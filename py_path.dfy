/**
 * The parts of Python's `posixpath` the converters use: `split`,
 * `dirname`, `basename`, `splitext` and two-argument `join`.
 */
module PyPath {
  import opened PyText

  /** Every character is a `/`. */
  predicate AllSlashes(s: string) {
    forall k :: 0 <= k < |s| ==> s[k] == '/'
  }

  /** `s.rfind(c)`: the last index of `c`, or -1. */
  function RFind(s: string, c: char): (r: int)
    ensures -1 <= r < |s|
    ensures r >= 0 ==> s[r] == c
    ensures forall k :: r < k < |s| ==> s[k] != c
  {
    if s == [] then -1
    else if s[|s| - 1] == c then |s| - 1
    else RFind(s[..|s| - 1], c)
  }

  /** `p.rstrip('/')`. */
  function RStripSlashes(s: string): (r: string)
    ensures |r| <= |s| && r == s[..|r|]
    ensures r == [] || r[|r| - 1] != '/'
    ensures AllSlashes(s[|r|..])
  {
    if s == [] || s[|s| - 1] != '/' then s
    else
      var r := RStripSlashes(s[..|s| - 1]);
      assert s[|r|..] == s[..|s| - 1][|r|..] + ['/'];
      r
  }

  /** Where the last component of `p` starts: just past its last `/`. */
  function TailStart(p: string): (i: nat)
    ensures i <= |p|
  {
    RFind(p, '/') + 1
  }

  /** `os.path.dirname(p)`, the head of `os.path.split(p)`. */
  function Dirname(p: string): (head: string)
    ensures |head| <= |p|
  {
    var head := p[..TailStart(p)];
    if head != [] && !AllSlashes(head) then RStripSlashes(head) else head
  }

  /** `os.path.basename(p)`, the tail of `os.path.split(p)`. */
  function Basename(p: string): (tail: string)
    ensures '/' !in tail
    ensures |tail| <= |p| && tail == p[|p| - |tail|..]
  {
    var tail := p[TailStart(p)..];
    assert forall k :: 0 <= k < |tail| ==> tail[k] == p[TailStart(p) + k];
    tail
  }

  /** `os.path.split(p)`. */
  function SplitPath(p: string): (string, string) {
    (Dirname(p), Basename(p))
  }

  /** `os.path.join(a, b)`: an absolute `b` replaces `a`; otherwise one `/` between them. */
  function JoinPath(a: string, b: string): (r: string)
    ensures StartsWith(b, "/") ==> r == b
  {
    if StartsWith(b, "/") then b
    else if a == [] || a[|a| - 1] == '/' then a + b
    else a + "/" + b
  }

  /**
   * Splitting a joined path gives back both parts, when the directory is
   * non-empty and does not end with `/` and the name holds no `/`.
   */
  lemma SplitJoinPath(a: string, b: string)
    requires a != [] && a[|a| - 1] != '/'
    requires '/' !in b
    ensures SplitPath(JoinPath(a, b)) == (a, b)
  {
    var p := a + "/" + b;
    assert b == [] || b[0] != '/';
    assert !StartsWith(b, "/");
    assert JoinPath(a, b) == p;
    assert p[|a|] == '/';
    assert forall k :: |a| < k < |p| ==> p[k] == b[k - |a| - 1];
    assert RFind(p, '/') == |a|;
    assert p[..|a| + 1] == a + "/";
    assert (a + "/")[|a| - 1] == a[|a| - 1];
    assert !AllSlashes(a + "/");
    assert RStripSlashes(a + "/") == RStripSlashes(a);
    assert p[|a| + 1..] == b;
  }

  /**
   * `os.path.split` moves up at least one character unless the path is
   * empty or made only of slashes, where it returns the path itself.
   */
  lemma DirnameShrinks(p: string)
    ensures p != [] && !AllSlashes(p) ==> |Dirname(p)| < |p|
    ensures AllSlashes(p) ==> Dirname(p) == p
  {
    var i := TailStart(p);
    if AllSlashes(p) && p != [] {
      assert p[|p| - 1] == '/';
      assert p[..i] == p;
    }
    if p != [] && !AllSlashes(p) && i == |p| {
      assert p[..i] == p && p[|p| - 1] == '/';
    }
  }

  /** Whether the characters of `s` from `from` up to `to` are all dots. */
  predicate DotsOnly(s: string, from: int, to: int)
    requires 0 <= from <= to <= |s|
  {
    forall k :: from <= k < to ==> s[k] == '.'
  }

  /**
   * `os.path.splitext(p)`: the last `.` of the last component starts the
   * extension, unless everything before it in the component is dots.
   */
  function SplitExt(p: string): (r: (string, string))
    ensures r.0 + r.1 == p
    ensures r.1 == [] || (r.1[0] == '.' && '/' !in r.1 && '.' !in r.1[1..])
  {
    var dot := RFind(p, '.');
    var start := TailStart(p);
    if dot >= start && !DotsOnly(p, start, dot) then
      assert p[..dot] + p[dot..] == p;
      (p[..dot], p[dot..])
    else
      (p, "")
  }

  /**
   * An extension that holds no dot or slash is split off again, when the
   * last component before it is not made only of dots.
   */
  lemma SplitExtRoundTrip(root: string, ext: string)
    requires '.' !in ext && '/' !in ext
    requires !DotsOnly(root, TailStart(root), |root|)
    ensures SplitExt(root + "." + ext) == (root, "." + ext)
  {
    var p := root + "." + ext;
    assert forall k :: |root| < k < |p| ==> p[k] == ext[k - |root| - 1];
    RFindIs(p, '.', |root|);
    assert p[..|root|] == root;
    assert RFind(p, '/') == RFind(root, '/') by {
      var r := RFind(root, '/');
      assert forall k :: |root| <= k < |p| ==> p[k] != '/';
      if r >= 0 {
        assert p[r] == '/';
      }
      RFindIs(p, '/', r);
    }
    var start := TailStart(p);
    assert !DotsOnly(p, start, |root|);
    assert p[|root|..] == "." + ext;
  }

  /** A path without a slash has an empty head. */
  lemma DirnameNoSlash(p: string)
    requires forall k :: 0 <= k < |p| ==> p[k] != '/'
    ensures Dirname(p) == []
  {
    RFindIs(p, '/', -1);
  }

  /** `RFind` is characterised by its contract. */
  lemma RFindIs(s: string, c: char, r: int)
    requires -1 <= r < |s|
    requires r >= 0 ==> s[r] == c
    requires forall k :: r < k < |s| ==> s[k] != c
    ensures RFind(s, c) == r
  {
  }
}
