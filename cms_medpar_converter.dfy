/**
 * The earlier MedPAR converter. Its file sets, year loop and `find` are
 * those of `MedparConverter`; it differs in `convert_dataset`, which
 * builds the reader itself and converts every data set, whatever an
 * earlier conversion left behind.
 */
module CmsMedparConverter {
  import opened Wrappers
  import opened PyText
  import opened PyPath
  import MedparConverter

  /**
   * `convert_dataset`: the reader for the data set, writing below the
   * converter's path, then `info` and `export`; SUCCESS when they
   * return, FAILED when they raise.
   */
  function ConvertDataset(path: string, dataset: MedparConverter.FileSet, exported: Result<(), string>)
    : (r: (MedparConverter.Reader, MedparConverter.Outcome))
    ensures r.0.dirPath == dataset.dir && r.0.name == dataset.name
    ensures ParseInt(r.0.year) == Some(dataset.year) && r.0.dest == JoinPath(path, r.0.year)
    ensures !r.1.Skipped?
    ensures r.1 == MedparConverter.Success <==> exported.Ok?
  {
    ParseIntToStr(dataset.year);
    var reader := MedparConverter.ReaderOf(path, dataset);
    if exported.Ok? then (reader, MedparConverter.Success) else (reader, MedparConverter.Failed)
  }

  /**
   * Where the later converter leaves a data set whose output is complete
   * alone, this one exports it again, and reports the same outcome as
   * for a data set never converted.
   */
  lemma ReconvertsReady(path: string, dataset: MedparConverter.FileSet, exported: Result<(), string>)
    ensures MedparConverter.ConvertDataset(Ok("READY"), exported) == MedparConverter.Skipped("READY")
    ensures ConvertDataset(path, dataset, exported).1 == MedparConverter.ConvertDataset(Ok("NONE"), exported)
  {
    assert !StartsWith("NONE", "ERROR");
    MedparConverter.NoBigWord("NONE");
  }
}
