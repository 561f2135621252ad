/**
 * `SASIntrospector` in `cms/tools/mcr_sas2yaml.py`: the registry entry of
 * one SAS table, built from the columns the introspector reports. Four key
 * columns (beneficiary, state, zip code and year) are looked up by name
 * among candidate spellings; each must be found once, the year may be
 * generated, and keys found under another name get a generated alias.
 */
module SasRegistry {
  import opened Wrappers
  import opened PyText
  import McrSas
  import FtsColumns

  /** The `index` entry of a column: absent, the text `"true"`, `True`, or required before loading. */
  datatype IndexFlag = NoIndexFlag | TrueText | TrueFlag | RequiredBeforeLoading

  /** The `source` entry of a column: absent, a generated expression, or the file name. */
  datatype ColumnSource = NoSource | Generated(code: string) | FileSource

  /** A column of the registry: its name and the entries `add_sas_table` reads or writes. */
  datatype SasColumn = SasColumn(
    name: string,
    ctype: string,
    index: IndexFlag,
    source: ColumnSource,
    description: Option<string>)

  /** A table of the registry: its columns in order and its primary key. */
  datatype SasTable = SasTable(columns: seq<SasColumn>, primaryKey: seq<string>)

  /** The `ValueError`s raised while building the registry. */
  datatype RegistryError =
    | TraverseFailed(cause: McrSas.SasError)
    | MultipleColumns(key: string, file: string)
    | NoColumn(key: string, file: string)
    | NotIntrospected(file: string)

  /** `PG_INT_TYPE` of `nsaph.pg_keywords`, taken to be the upper-case keyword. */
  const IntKeyword := "INTEGER"

  /** The key columns, in the order of the `specials` dictionary. */
  const Keys: seq<string> := ["bene_id", "state", "zip", "year"]

  /** The position of the year among the keys: the one key that may be generated. */
  const YearKey := 3

  /** The candidate names of the key at position `k`; `*` stands for any text. */
  function Candidates(k: nat): seq<string> {
    if k == 0 then ["bene_id", "intbid", "qid", "bid_5333*"]
    else if k == 1 then
      ["state", "ssa_state", "state_code", "bene_rsdnc_ssa_state_cd", "state_cd", "medpar_bene_rsdnc_ssa_state_cd"]
    else if k == 2 then
      ["zip", "zipcode", "bene_zip_cd", "bene_zip", "bene_mlg_cntct_zip_cd", "medpar_bene_mlg_cntct_zip_cd"]
    else ["year", "enrolyr", "bene_enrollmt_ref_yr", "rfrnc_yr"]
  }

  /**
   * `re.fullmatch` of a candidate in which every `*` became `.*`: a `*`
   * matches any run of characters other than a line feed, every other
   * character itself.
   */
  function WildMatch(p: string, s: string): bool
    decreases |p| + |s|
  {
    if p == [] then s == []
    else if p[0] == '*' then WildMatch(p[1..], s) || (s != [] && s[0] != '\n' && WildMatch(p, s[1..]))
    else s != [] && s[0] == p[0] && WildMatch(p[1..], s[1..])
  }

  /** Whether one of the candidates holding a `*` matches `s` as a pattern. */
  function PatternMatch(s: string, candidates: seq<string>): bool {
    if candidates == [] then false
    else ('*' in candidates[0] && WildMatch(candidates[0], s)) || PatternMatch(s, candidates[1..])
  }

  /** `matches`: `s` is one of the candidates, or a candidate with `*` matches it as a pattern. */
  function Matches(s: string, candidates: seq<string>): bool {
    s in candidates || PatternMatch(s, candidates)
  }

  /** A candidate without `*` matches exactly itself. */
  lemma {:induction false} StarFreeMatch(p: string, s: string)
    requires '*' !in p
    ensures WildMatch(p, s) <==> p == s
    decreases |p|
  {
    if p != [] && s != [] {
      StarFreeMatch(p[1..], s[1..]);
      if p[1..] == s[1..] && p[0] == s[0] {
        assert p == [p[0]] + p[1..] && s == [s[0]] + s[1..];
      }
    }
  }

  /** A lone `*` matches exactly the texts without a line feed. */
  lemma {:induction false} StarMatch(s: string)
    ensures WildMatch("*", s) <==> '\n' !in s
    decreases |s|
  {
    assert "*"[1..] == [];
    if s != [] {
      StarMatch(s[1..]);
      assert s == [s[0]] + s[1..];
    }
  }

  /**
   * A candidate that ends in its only `*` matches exactly the texts that
   * start with what comes before the `*` and hold no line feed after it.
   */
  lemma {:induction false} PrefixStarMatch(p: string, s: string)
    requires '*' !in p
    ensures WildMatch(p + "*", s) <==> StartsWith(s, p) && '\n' !in s[|p|..]
    decreases |p|
  {
    if p == [] {
      assert p + "*" == "*";
      StarMatch(s);
    } else {
      assert (p + "*")[0] == p[0] && (p + "*")[1..] == p[1..] + "*";
      if s != [] {
        PrefixStarMatch(p[1..], s[1..]);
        if |s| >= |p| {
          assert s[1..][|p| - 1..] == s[|p|..];
          if StartsWith(s[1..], p[1..]) && s[0] == p[0] {
            assert s[..|p|] == [s[0]] + s[1..][..|p| - 1];
          }
          if StartsWith(s, p) {
            assert s[1..][..|p| - 1] == s[..|p|][1..];
          }
        }
      }
    }
  }

  /** `PatternMatch` finds a candidate with `*` that matches. */
  lemma {:induction false} PatternMatchIff(s: string, candidates: seq<string>)
    ensures PatternMatch(s, candidates) <==>
      exists i :: 0 <= i < |candidates| && '*' in candidates[i] && WildMatch(candidates[i], s)
    decreases |candidates|
  {
    if candidates != [] {
      PatternMatchIff(s, candidates[1..]);
      if exists i :: 0 <= i < |candidates| && '*' in candidates[i] && WildMatch(candidates[i], s) {
        var i :| 0 <= i < |candidates| && '*' in candidates[i] && WildMatch(candidates[i], s);
        if i > 0 {
          assert candidates[1..][i - 1] == candidates[i];
        }
      }
      if PatternMatch(s, candidates[1..]) {
        var i :| 0 <= i < |candidates[1..]| && '*' in candidates[1..][i] && WildMatch(candidates[1..][i], s);
        assert candidates[i + 1] == candidates[1..][i];
      }
    }
  }

  /**
   * The exact-membership test is subsumed by the patterns: `matches` holds
   * exactly when some candidate, read as a pattern, matches the whole name.
   */
  lemma MatchesIff(s: string, candidates: seq<string>)
    ensures Matches(s, candidates) <==> exists i :: 0 <= i < |candidates| && WildMatch(candidates[i], s)
  {
    PatternMatchIff(s, candidates);
    if s in candidates {
      var i :| 0 <= i < |candidates| && candidates[i] == s;
      if '*' in s {
        ExactMatch(s);
      } else {
        StarFreeMatch(s, s);
      }
    }
    if exists i :: 0 <= i < |candidates| && WildMatch(candidates[i], s) {
      var i :| 0 <= i < |candidates| && WildMatch(candidates[i], s);
      if '*' !in candidates[i] {
        StarFreeMatch(candidates[i], s);
      }
    }
  }

  /** Every text matches itself read as a pattern, `*` matching a literal `*`. */
  lemma {:induction false} ExactMatch(s: string)
    ensures WildMatch(s, s)
    decreases |s|
  {
    if s != [] {
      ExactMatch(s[1..]);
      if s[0] == '*' {
        assert WildMatch(s, s[1..]);
      }
    }
  }

  /** Whether some candidate, read as a pattern, matches the whole of `s`. */
  predicate AnyMatch(s: string, candidates: seq<string>) {
    candidates != [] && (WildMatch(candidates[0], s) || AnyMatch(s, candidates[1..]))
  }

  lemma {:induction false} AnyMatchIff(s: string, candidates: seq<string>)
    ensures AnyMatch(s, candidates) <==> exists i :: 0 <= i < |candidates| && WildMatch(candidates[i], s)
    decreases |candidates|
  {
    if candidates != [] {
      AnyMatchIff(s, candidates[1..]);
      if exists i :: 0 <= i < |candidates| && WildMatch(candidates[i], s) {
        var i :| 0 <= i < |candidates| && WildMatch(candidates[i], s);
        if i > 0 {
          assert candidates[1..][i - 1] == candidates[i];
        }
      }
      if AnyMatch(s, candidates[1..]) {
        var i :| 0 <= i < |candidates[1..]| && WildMatch(candidates[1..][i], s);
        assert candidates[i + 1] == candidates[1..][i];
      }
    }
  }

  /** `matches` is the pattern test over all candidates. */
  lemma MatchesAny(s: string, candidates: seq<string>)
    ensures Matches(s, candidates) == AnyMatch(s, candidates)
  {
    MatchesIff(s, candidates);
    AnyMatchIff(s, candidates);
  }

  /** Whether the column's name is a candidate of the key at position `k`. */
  predicate Hit(c: SasColumn, k: nat) {
    AnyMatch(c.name, Candidates(k))
  }

  /** Whether the column's name is a candidate of some key: `is_key` after the inner loop. */
  predicate IsKeyColumn(c: SasColumn) {
    Hit(c, 0) || Hit(c, 1) || Hit(c, 2) || Hit(c, 3)
  }

  /** For one column, whether it is a candidate of each key in turn. */
  type HitRow = h: seq<bool> | |h| == 4 witness [false, false, false, false]

  function HitsOf(c: SasColumn): (h: HitRow) {
    seq(4, k requires 0 <= k < 4 => Hit(c, k))
  }

  /** The candidate test of every column, in order. */
  function HitTable(cols: seq<SasColumn>): (t: seq<HitRow>)
    ensures |t| == |cols|
  {
    if cols == [] then [] else HitTable(cols[..|cols| - 1]) + [HitsOf(cols[|cols| - 1])]
  }

  lemma {:induction false} HitTableAt(cols: seq<SasColumn>, j: nat)
    requires j < |cols|
    ensures HitTable(cols)[j] == HitsOf(cols[j])
    decreases |cols|
  {
    if j < |cols| - 1 {
      HitTableAt(cols[..|cols| - 1], j);
      assert cols[..|cols| - 1][j] == cols[j];
    }
  }

  /** Which column each key is bound to so far, by position; one entry per key. */
  type Binding = b: seq<Option<nat>> | |b| == 4 witness [None, None, None, None]

  /** Every key is bound to one of the first `n` columns, if to any. */
  predicate WellBound(b: Binding, n: nat) {
    forall k :: 0 <= k < 4 && b[k].Some? ==> b[k].value < n
  }

  /**
   * The inner loop over the keys for the column at position `j`, whose
   * candidate tests are `h`, from key `k` on: every key it matches is bound
   * to it, unless that key is bound already, which raises "Multiple
   * columns" for that key.
   */
  function BindRow(h: HitRow, j: nat, b: Binding, k: nat): (r: Result<Binding, nat>)
    requires k <= 4
    ensures r.Err? ==> r.error < 4
    decreases 4 - k
  {
    if k == 4 then Ok(b)
    else if h[k] then
      if b[k].Some? then Err(k) else BindRow(h, j, b[k := Some(j)], k + 1)
    else BindRow(h, j, b, k + 1)
  }

  /** The bindings after the outer loop has seen every column, or the key of the first clash. */
  function Bind(t: seq<HitRow>): (r: Result<Binding, nat>)
    ensures r.Err? ==> r.error < 4
    ensures r.Ok? ==> WellBound(r.value, |t|)
  {
    if t == [] then Ok([None, None, None, None])
    else
      var b :- Bind(t[..|t| - 1]);
      BindRowSpec(t[|t| - 1], |t| - 1, b, 0);
      BindRow(t[|t| - 1], |t| - 1, b, 0)
  }

  /** Two different columns are candidates of the key at position `k`. */
  predicate Twice(t: seq<HitRow>, k: nat)
    requires k < 4
  {
    exists j1, j2 :: 0 <= j1 < j2 < |t| && t[j1][k] && t[j2][k]
  }

  /** One row binds every key from `k` on that it matches, and fails exactly on one bound before. */
  lemma {:induction false} BindRowSpec(h: HitRow, j: nat, b: Binding, k: nat)
    requires k <= 4
    ensures BindRow(h, j, b, k).Ok? <==> forall k' :: k <= k' < 4 && h[k'] ==> b[k'].None?
    ensures BindRow(h, j, b, k).Ok? ==> forall k' :: 0 <= k' < 4 ==>
      BindRow(h, j, b, k).value[k'] == if k <= k' && h[k'] then Some(j) else b[k']
    ensures BindRow(h, j, b, k).Err? ==>
      var e := BindRow(h, j, b, k).error; k <= e < 4 && h[e] && b[e].Some?
    decreases 4 - k
  {
    if k < 4 {
      if h[k] {
        if b[k].None? {
          BindRowSpec(h, j, b[k := Some(j)], k + 1);
        }
      } else {
        BindRowSpec(h, j, b, k + 1);
      }
    }
  }

  /**
   * After every column is seen, a key is unbound exactly when no column is
   * its candidate, bound only to a candidate, and no key has two.
   */
  predicate BindsExactly(t: seq<HitRow>, b: Binding) {
    forall k :: 0 <= k < 4 ==>
      (b[k].Some? ==> b[k].value < |t| && t[b[k].value][k]) &&
      (b[k].None? ==> forall j :: 0 <= j < |t| ==> !t[j][k]) &&
      !Twice(t, k)
  }

  /** A key candidate among the first columns is one among all of them. */
  lemma TwicePrefix(t: seq<HitRow>, n: nat, k: nat)
    requires n <= |t| && k < 4
    requires Twice(t[..n], k)
    ensures Twice(t, k)
  {
    var j1, j2 :| 0 <= j1 < j2 < n && t[..n][j1][k] && t[..n][j2][k];
    assert t[j1][k] && t[j2][k];
  }

  /** A key that has no two candidates among the first columns, and none there when the last is one, has no two. */
  lemma NotTwiceExtend(t: seq<HitRow>, k: nat)
    requires t != [] && k < 4
    requires !Twice(t[..|t| - 1], k)
    requires t[|t| - 1][k] ==> forall j :: 0 <= j < |t| - 1 ==> !t[j][k]
    ensures !Twice(t, k)
  {
  }

  /** When binding succeeds, every key is bound to its one candidate column, if any. */
  lemma {:induction false} BindOk(t: seq<HitRow>)
    requires Bind(t).Ok?
    ensures BindsExactly(t, Bind(t).value)
    decreases |t|
  {
    if t != [] {
      var n := |t| - 1;
      var p := t[..n];
      var h := t[n];
      BindOk(p);
      var b := Bind(p).value;
      BindRowSpec(h, n, b, 0);
      var b' := Bind(t).value;
      forall k | 0 <= k < 4
        ensures (b'[k].Some? ==> b'[k].value < |t| && t[b'[k].value][k])
        ensures (b'[k].None? ==> forall j :: 0 <= j < |t| ==> !t[j][k])
        ensures !Twice(t, k)
      {
        if b'[k].Some? && b'[k].value < n {
          assert p[b'[k].value] == t[b'[k].value];
        }
        if b'[k].None? {
          forall j | 0 <= j < |t|
            ensures !t[j][k]
          {
            if j < n {
              assert !p[j][k];
            }
          }
        }
        if h[k] {
          assert b[k].None?;
          forall j | 0 <= j < n
            ensures !t[j][k]
          {
            assert p[j] == t[j];
          }
        }
        NotTwiceExtend(t, k);
      }
    }
  }

  /** When binding fails, the key it names has two candidate columns. */
  lemma {:induction false} BindErr(t: seq<HitRow>)
    requires Bind(t).Err?
    ensures Bind(t).error < 4 && Twice(t, Bind(t).error)
    decreases |t|
  {
    var n := |t| - 1;
    var p := t[..n];
    if Bind(p).Err? {
      BindErr(p);
      TwicePrefix(t, n, Bind(p).error);
    } else {
      var b := Bind(p).value;
      BindOk(p);
      BindRowSpec(t[n], n, b, 0);
      var e := Bind(t).error;
      assert p[b[e].value] == t[b[e].value];
      assert t[b[e].value][e] && t[n][e];
    }
  }

  /** The key columns are bound without error exactly when no key has two candidate columns. */
  lemma BindIff(t: seq<HitRow>)
    ensures Bind(t).Ok? <==> forall k :: 0 <= k < 4 ==> !Twice(t, k)
  {
    if Bind(t).Ok? {
      BindOk(t);
    } else {
      BindErr(t);
    }
  }

  /** `c["index"] = "true"`. */
  function Indexed(c: SasColumn): SasColumn {
    c.(index := TrueText)
  }

  /** The first loop's marking of one column: with `index_all`, a column that is no key's candidate is indexed. */
  function MarkColumn(c: SasColumn, h: HitRow, indexAll: bool): SasColumn {
    if indexAll && !(h[0] || h[1] || h[2] || h[3]) then Indexed(c) else c
  }

  /** Marking a column by its own candidate tests indexes it exactly when `index_all` holds and it is no key's candidate. */
  lemma MarkColumnIs(c: SasColumn, indexAll: bool)
    ensures MarkColumn(c, HitsOf(c), indexAll) == if indexAll && !IsKeyColumn(c) then Indexed(c) else c
  {
    var h := HitsOf(c);
    assert h[0] == Hit(c, 0) && h[1] == Hit(c, 1) && h[2] == Hit(c, 2) && h[3] == Hit(c, 3);
  }

  /** The columns after the first loop, each marked by its candidate tests. */
  function Marked(cols: seq<SasColumn>, t: seq<HitRow>, indexAll: bool): (m: seq<SasColumn>)
    requires |t| == |cols|
    ensures |m| == |cols|
  {
    if cols == [] then []
    else Marked(cols[..|cols| - 1], t[..|cols| - 1], indexAll) + [MarkColumn(cols[|cols| - 1], t[|cols| - 1], indexAll)]
  }

  lemma {:induction false} MarkedAt(cols: seq<SasColumn>, t: seq<HitRow>, indexAll: bool, j: nat)
    requires |t| == |cols| && j < |cols|
    ensures Marked(cols, t, indexAll)[j] == MarkColumn(cols[j], t[j], indexAll)
    decreases |cols|
  {
    if j < |cols| - 1 {
      MarkedAt(cols[..|cols| - 1], t[..|cols| - 1], indexAll, j);
    }
  }

  /** The generated year column: an indexed integer computed as the year of the file's directory. */
  function YearColumn(year: int): SasColumn {
    SasColumn(Keys[YearKey], IntKeyword, TrueText, Generated("GENERATED ALWAYS AS (" + IntToStr(year) + ") STORED"), None)
  }

  /** The alias of a key found under another name: an indexed column of its type computed as that column. */
  function AliasColumn(key: string, c: SasColumn): SasColumn {
    SasColumn(key, c.ctype, TrueFlag, Generated("GENERATED ALWAYS AS (" + c.name + ") STORED"), None)
  }

  /**
   * The second loop's step for the key at position `k`: an unbound year is
   * generated and any other unbound key raises; a key bound to a column of
   * its own name indexes it, one bound under another name gets an alias.
   */
  function KeyStep(cols: seq<SasColumn>, b: Binding, year: int, k: nat): (r: Result<seq<SasColumn>, nat>)
    requires k < 4 && WellBound(b, |cols|)
    ensures r.Err? ==> r.error == k
    ensures r.Ok? ==> |r.value| >= |cols|
  {
    if b[k].None? then
      if k == YearKey then Ok(cols + [YearColumn(year)]) else Err(k)
    else
      var j := b[k].value;
      if Keys[k] == cols[j].name then Ok(cols[j := Indexed(cols[j])])
      else Ok(cols + [AliasColumn(Keys[k], cols[j])])
  }

  /** The columns after the second loop has seen the first `n` keys, or the first key that is missing. */
  function Finish(cols: seq<SasColumn>, b: Binding, year: int, n: nat): (r: Result<seq<SasColumn>, nat>)
    requires n <= 4 && WellBound(b, |cols|)
    ensures r.Err? ==> r.error < n
    ensures r.Ok? ==> |r.value| >= |cols|
  {
    if n == 0 then Ok(cols)
    else
      var c :- Finish(cols, b, year, n - 1);
      KeyStep(c, b, year, n - 1)
  }

  /** The second loop fails exactly on the first key other than the year that no column is bound to. */
  lemma {:induction false} FinishErr(cols: seq<SasColumn>, b: Binding, year: int, n: nat)
    requires n <= 4 && WellBound(b, |cols|)
    ensures Finish(cols, b, year, n).Ok? ==> forall k :: 0 <= k < n && k != YearKey ==> b[k].Some?
    ensures Finish(cols, b, year, n).Err? ==>
      var e := Finish(cols, b, year, n).error;
      e != YearKey && b[e].None? && forall k :: 0 <= k < e && k != YearKey ==> b[k].Some?
    decreases n
  {
    if n > 0 {
      FinishErr(cols, b, year, n - 1);
    }
  }

  /** The column at position `i` is bound to one of the first `n` keys and carries that key's name. */
  predicate Touched(cols: seq<SasColumn>, b: Binding, n: nat, i: nat)
    requires n <= 4 && i < |cols|
  {
    exists k :: 0 <= k < n && b[k] == Some(i) && Keys[k] == cols[i].name
  }

  /**
   * The second loop keeps every column where it is, changing nothing but
   * the index of a column bound to a key of its own name.
   */
  lemma {:induction false} FinishKeeps(cols: seq<SasColumn>, b: Binding, year: int, n: nat)
    requires n <= 4 && WellBound(b, |cols|)
    requires Finish(cols, b, year, n).Ok?
    ensures forall i :: 0 <= i < |cols| ==>
      Finish(cols, b, year, n).value[i] == if Touched(cols, b, n, i) then Indexed(cols[i]) else cols[i]
    decreases n
  {
    if n > 0 {
      FinishKeeps(cols, b, year, n - 1);
      var c := Finish(cols, b, year, n - 1).value;
      var r := Finish(cols, b, year, n).value;
      forall i | 0 <= i < |cols|
        ensures r[i] == if Touched(cols, b, n, i) then Indexed(cols[i]) else cols[i]
      {
        if b[n - 1] == Some(i) && Keys[n - 1] == cols[i].name {
          assert Touched(cols, b, n, i);
        } else if Touched(cols, b, n, i) {
          var k :| 0 <= k < n && b[k] == Some(i) && Keys[k] == cols[i].name;
          assert Touched(cols, b, n - 1, i);
        }
      }
    }
  }

  /** Whether the second loop appends a column for the key at position `k`: it is unbound, or bound under another name. */
  predicate Appends(cols: seq<SasColumn>, b: Binding, k: nat)
    requires k < 4 && WellBound(b, |cols|)
  {
    b[k].None? || Keys[k] != cols[b[k].value].name
  }

  /** The column the second loop appends for the key at position `k`, if it appends one. */
  function GeneratedFor(cols: seq<SasColumn>, b: Binding, year: int, k: nat): SasColumn
    requires k < 4 && WellBound(b, |cols|)
  {
    if b[k].None? then YearColumn(year) else AliasColumn(Keys[k], cols[b[k].value])
  }

  /**
   * Every key among the first `n` that is unbound gets the generated year
   * column, and every key bound under another name gets its alias.
   */
  lemma {:induction false} FinishAdds(cols: seq<SasColumn>, b: Binding, year: int, n: nat)
    requires n <= 4 && WellBound(b, |cols|)
    requires Finish(cols, b, year, n).Ok?
    ensures forall k :: 0 <= k < n && Appends(cols, b, k) ==>
      exists i :: |cols| <= i < |Finish(cols, b, year, n).value| &&
        Finish(cols, b, year, n).value[i] == GeneratedFor(cols, b, year, k)
    decreases n
  {
    if n > 0 {
      FinishAdds(cols, b, year, n - 1);
      FinishKeeps(cols, b, year, n - 1);
      var c := Finish(cols, b, year, n - 1).value;
      var r := Finish(cols, b, year, n).value;
      assert |r| >= |c|;
      forall k | 0 <= k < n && Appends(cols, b, k)
        ensures exists i :: |cols| <= i < |r| && r[i] == GeneratedFor(cols, b, year, k)
      {
        if k < n - 1 {
          var i :| |cols| <= i < |c| && c[i] == GeneratedFor(cols, b, year, k);
          assert r[i] == c[i];
        } else {
          assert r[|c|] == GeneratedFor(cols, b, year, k);
        }
      }
    }
  }

  /** The column is the one the second loop appends for one of the first `n` keys. */
  predicate GeneratedAmong(cols: seq<SasColumn>, b: Binding, year: int, n: nat, x: SasColumn)
    requires n <= 4 && WellBound(b, |cols|)
  {
    exists k :: 0 <= k < n && Appends(cols, b, k) && x == GeneratedFor(cols, b, year, k)
  }

  /** The second loop appends nothing but the year column and aliases of the first `n` keys. */
  lemma {:induction false} FinishOnlyAdds(cols: seq<SasColumn>, b: Binding, year: int, n: nat)
    requires n <= 4 && WellBound(b, |cols|)
    requires Finish(cols, b, year, n).Ok?
    ensures forall i :: |cols| <= i < |Finish(cols, b, year, n).value| ==>
      GeneratedAmong(cols, b, year, n, Finish(cols, b, year, n).value[i])
    decreases n
  {
    if n > 0 {
      FinishOnlyAdds(cols, b, year, n - 1);
      FinishKeeps(cols, b, year, n - 1);
      var c := Finish(cols, b, year, n - 1).value;
      var r := Finish(cols, b, year, n).value;
      forall i | |cols| <= i < |r|
        ensures GeneratedAmong(cols, b, year, n, r[i])
      {
        if i < |c| {
          assert GeneratedAmong(cols, b, year, n - 1, c[i]);
          assert r[i] == c[i];
        } else {
          if b[n - 1].Some? {
            var j := b[n - 1].value;
            assert c[j].name == cols[j].name && c[j].ctype == cols[j].ctype;
          }
          assert Appends(cols, b, n - 1);
          assert r[i] == GeneratedFor(cols, b, year, n - 1);
        }
      }
    }
  }

  const FileKey := "FILE"
  const RecordKey := "RECORD"

  /** The column holding the name of the file a row came from; indexed before loading. */
  const FileColumn := SasColumn(FileKey, "VARCHAR(128)", RequiredBeforeLoading, FileSource, Some("original file name"))

  /** The column numbering the rows of a file. */
  const RecordColumn := SasColumn(RecordKey, FtsColumns.SerialKeyword, TrueFlag, NoSource, Some("Record (line) number in the file"))

  /**
   * `add_sas_table`: the registry entry of one SAS table, built from the
   * columns the introspector reports for its file, or the first error raised.
   */
  function SasTableOf(file: string, indexAll: bool, year: int, cols: seq<SasColumn>): (r: Result<SasTable, RegistryError>)
    ensures r.Ok? ==> r.value.primaryKey == [FileKey, RecordKey]
    ensures r.Ok? ==> |r.value.columns| >= |cols| + 2
    ensures r.Ok? ==> r.value.columns[|r.value.columns| - 2..] == [FileColumn, RecordColumn]
  {
    var t := HitTable(cols);
    match Bind(t)
    case Err(k) => Err(MultipleColumns(Keys[k], file))
    case Ok(b) =>
      match Finish(Marked(cols, t, indexAll), b, year, 4)
      case Err(k) => Err(NoColumn(Keys[k], file))
      case Ok(c) => Ok(SasTable(c + [FileColumn, RecordColumn], [FileKey, RecordKey]))
  }

  /** Two different columns are candidates of the key at position `k`. */
  predicate TwoCandidates(cols: seq<SasColumn>, k: nat) {
    exists j1, j2 :: 0 <= j1 < j2 < |cols| && Hit(cols[j1], k) && Hit(cols[j2], k)
  }

  /** No column is a candidate of the key at position `k`. */
  predicate NoCandidate(cols: seq<SasColumn>, k: nat) {
    forall j :: 0 <= j < |cols| ==> !Hit(cols[j], k)
  }

  /** The candidate tests of the table are those of the columns. */
  lemma HitTableTwice(cols: seq<SasColumn>, k: nat)
    requires k < 4
    ensures Twice(HitTable(cols), k) <==> TwoCandidates(cols, k)
  {
    var t := HitTable(cols);
    forall j | 0 <= j < |cols|
      ensures t[j][k] == Hit(cols[j], k)
    {
      HitTableAt(cols, j);
    }
  }

  /** The candidate tests of the table are those of the columns. */
  lemma HitTableNone(cols: seq<SasColumn>, k: nat)
    requires k < 4
    ensures (forall j :: 0 <= j < |cols| ==> !HitTable(cols)[j][k]) <==> NoCandidate(cols, k)
  {
    var t := HitTable(cols);
    if NoCandidate(cols, k) {
      forall j | 0 <= j < |cols|
        ensures !t[j][k]
      {
        HitTableAt(cols, j);
      }
    } else {
      var j :| 0 <= j < |cols| && Hit(cols[j], k);
      HitTableAt(cols, j);
    }
  }

  /** "Multiple columns" is raised exactly when some key has two candidate columns, and names such a key. */
  lemma SasTableMultiple(file: string, indexAll: bool, year: int, cols: seq<SasColumn>)
    ensures (SasTableOf(file, indexAll, year, cols).Err? && SasTableOf(file, indexAll, year, cols).error.MultipleColumns?)
      <==> exists k :: 0 <= k < 4 && TwoCandidates(cols, k)
    ensures SasTableOf(file, indexAll, year, cols).Err? && SasTableOf(file, indexAll, year, cols).error.MultipleColumns? ==>
      exists k :: 0 <= k < 4 && TwoCandidates(cols, k) && SasTableOf(file, indexAll, year, cols).error == MultipleColumns(Keys[k], file)
  {
    var t := HitTable(cols);
    BindIff(t);
    forall k | 0 <= k < 4
      ensures Twice(t, k) <==> TwoCandidates(cols, k)
    {
      HitTableTwice(cols, k);
    }
    if Bind(t).Err? {
      BindErr(t);
    }
  }

  /** Once the keys are bound, a key is unbound exactly when no column is its candidate. */
  lemma UnboundIffNoCandidate(cols: seq<SasColumn>)
    requires Bind(HitTable(cols)).Ok?
    ensures forall k :: 0 <= k < 4 ==> (Bind(HitTable(cols)).value[k].None? <==> NoCandidate(cols, k))
  {
    BindOk(HitTable(cols));
    forall k | 0 <= k < 4
      ensures Bind(HitTable(cols)).value[k].None? <==> NoCandidate(cols, k)
    {
      HitTableNone(cols, k);
    }
  }

  /**
   * The table is built exactly when no key has two candidate columns and
   * each of the beneficiary, state and zip keys has one.
   */
  lemma SasTableOk(file: string, indexAll: bool, year: int, cols: seq<SasColumn>)
    ensures SasTableOf(file, indexAll, year, cols).Ok? <==>
      (forall k :: 0 <= k < 4 ==> !TwoCandidates(cols, k)) && (forall k :: 0 <= k < YearKey ==> !NoCandidate(cols, k))
  {
    var t := HitTable(cols);
    SasTableMultiple(file, indexAll, year, cols);
    if Bind(t).Ok? {
      UnboundIffNoCandidate(cols);
      FinishErr(Marked(cols, t, indexAll), Bind(t).value, year, 4);
    }
  }

  /** A missing beneficiary, state or zip column raises "No column" for the first of them. */
  lemma SasTableNoColumn(file: string, indexAll: bool, year: int, cols: seq<SasColumn>)
    requires SasTableOf(file, indexAll, year, cols).Err? && SasTableOf(file, indexAll, year, cols).error.NoColumn?
    ensures exists k :: (
      && 0 <= k < YearKey && NoCandidate(cols, k)
      && SasTableOf(file, indexAll, year, cols).error == NoColumn(Keys[k], file)
      && forall k' :: 0 <= k' < k ==> !NoCandidate(cols, k'))
  {
    var t := HitTable(cols);
    UnboundIffNoCandidate(cols);
    var b := Bind(t).value;
    var m := Marked(cols, t, indexAll);
    FinishErr(m, b, year, 4);
    var e := Finish(m, b, year, 4).error;
    assert e < YearKey && NoCandidate(cols, e);
  }

  /** The name is one of the keys. */
  predicate KeyName(name: string) {
    exists k :: 0 <= k < 4 && Keys[k] == name
  }

  /** A column named after a key is a candidate of that key. */
  lemma OwnCandidate(c: SasColumn, k: nat)
    requires k < 4 && c.name == Keys[k]
    ensures Hit(c, k)
  {
    ExactMatch(Keys[k]);
    assert Candidates(k)[0] == Keys[k];
  }

  /** Once binding succeeds, a key is bound to any column that is its candidate. */
  lemma BoundToCandidate(t: seq<HitRow>, b: Binding, i: nat, k: nat)
    requires BindsExactly(t, b) && i < |t| && k < 4 && t[i][k]
    ensures b[k] == Some(i)
  {
  }

  /**
   * The columns the introspector reported keep their place and everything
   * but the index, which becomes `"true"` for a column named after a key
   * and, with `index_all`, for every column that is no key's candidate.
   */
  lemma SasTableKeeps(file: string, indexAll: bool, year: int, cols: seq<SasColumn>, i: nat)
    requires SasTableOf(file, indexAll, year, cols).Ok? && i < |cols|
    ensures SasTableOf(file, indexAll, year, cols).value.columns[i] ==
      if (indexAll && !IsKeyColumn(cols[i])) || KeyName(cols[i].name) then Indexed(cols[i]) else cols[i]
  {
    var t := HitTable(cols);
    var b := Bind(t).value;
    var m := Marked(cols, t, indexAll);
    BindOk(t);
    FinishKeeps(m, b, year, 4);
    MarkedAt(cols, t, indexAll, i);
    HitTableAt(cols, i);
    assert m[i].name == cols[i].name;
    if KeyName(cols[i].name) {
      var k :| 0 <= k < 4 && Keys[k] == cols[i].name;
      OwnCandidate(cols[i], k);
      assert t[i] == HitsOf(cols[i]);
      assert HitsOf(cols[i])[k] == Hit(cols[i], k);
      BoundToCandidate(t, b, i, k);
      assert Touched(m, b, 4, i);
    }
    if Touched(m, b, 4, i) {
      var k :| 0 <= k < 4 && b[k] == Some(i) && Keys[k] == m[i].name;
      assert KeyName(cols[i].name);
    }
  }

  /**
   * Every key has a column of its own name in the table, and that column
   * is indexed: found, generated, or added as an alias.
   */
  lemma SasTableHasKey(file: string, indexAll: bool, year: int, cols: seq<SasColumn>, k: nat)
    requires SasTableOf(file, indexAll, year, cols).Ok? && k < 4
    ensures exists i :: (
      && 0 <= i < |SasTableOf(file, indexAll, year, cols).value.columns|
      && SasTableOf(file, indexAll, year, cols).value.columns[i].name == Keys[k]
      && SasTableOf(file, indexAll, year, cols).value.columns[i].index in {TrueText, TrueFlag})
  {
    var t := HitTable(cols);
    var b := Bind(t).value;
    var m := Marked(cols, t, indexAll);
    var c := Finish(m, b, year, 4).value;
    var r := SasTableOf(file, indexAll, year, cols).value.columns;
    FinishErr(m, b, year, 4);
    if Appends(m, b, k) {
      FinishAdds(m, b, year, 4);
      var i :| |m| <= i < |c| && c[i] == GeneratedFor(m, b, year, k);
      assert r[i] == c[i];
    } else {
      var j := b[k].value;
      FinishKeeps(m, b, year, 4);
      assert Touched(m, b, 4, j);
      assert r[j] == c[j];
    }
  }

  /** A column exists among those the second loop appends. */
  predicate AppendedIn(cols: seq<SasColumn>, columns: seq<SasColumn>, x: SasColumn) {
    exists i :: |cols| <= i < |columns| - 2 && columns[i] == x
  }

  /** Without a year candidate, the table gets the generated year column. */
  lemma SasTableYear(file: string, indexAll: bool, year: int, cols: seq<SasColumn>)
    requires SasTableOf(file, indexAll, year, cols).Ok? && NoCandidate(cols, YearKey)
    ensures AppendedIn(cols, SasTableOf(file, indexAll, year, cols).value.columns, YearColumn(year))
  {
    var t := HitTable(cols);
    var b := Bind(t).value;
    var m := Marked(cols, t, indexAll);
    var c := Finish(m, b, year, 4).value;
    var r := SasTableOf(file, indexAll, year, cols).value.columns;
    UnboundIffNoCandidate(cols);
    FinishAdds(m, b, year, 4);
    var i :| |m| <= i < |c| && c[i] == GeneratedFor(m, b, year, YearKey);
    assert r[i] == c[i];
  }

  /** A key whose candidate column has another name gets an alias computed as that column. */
  lemma SasTableAlias(file: string, indexAll: bool, year: int, cols: seq<SasColumn>, j: nat, k: nat)
    requires SasTableOf(file, indexAll, year, cols).Ok?
    requires j < |cols| && k < 4 && Hit(cols[j], k) && cols[j].name != Keys[k]
    ensures AppendedIn(cols, SasTableOf(file, indexAll, year, cols).value.columns, AliasColumn(Keys[k], cols[j]))
  {
    var t := HitTable(cols);
    var b := Bind(t).value;
    var m := Marked(cols, t, indexAll);
    var c := Finish(m, b, year, 4).value;
    var r := SasTableOf(file, indexAll, year, cols).value.columns;
    BindOk(t);
    HitTableAt(cols, j);
    assert t[j][k];
    assert b[k] == Some(j) by {
      var j' := b[k].value;
      assert t[j'][k];
    }
    MarkedAt(cols, t, indexAll, j);
    assert Appends(m, b, k);
    FinishAdds(m, b, year, 4);
    var i :| |m| <= i < |c| && c[i] == GeneratedFor(m, b, year, k);
    assert r[i] == c[i];
  }

  /**
   * A column the second loop may append: the generated year when no column
   * is a year candidate, or the alias of a key whose candidate column has
   * another name.
   */
  predicate GeneratedColumn(cols: seq<SasColumn>, year: int, x: SasColumn) {
    || (x == YearColumn(year) && NoCandidate(cols, YearKey))
    || exists k, j :: 0 <= k < 4 && 0 <= j < |cols| && Hit(cols[j], k) && cols[j].name != Keys[k] &&
         x == AliasColumn(Keys[k], cols[j])
  }

  /**
   * The table holds nothing beyond the reported columns, the generated
   * columns, and FILE and RECORD at the end.
   */
  lemma SasTableOnlyAdds(file: string, indexAll: bool, year: int, cols: seq<SasColumn>, i: nat)
    requires SasTableOf(file, indexAll, year, cols).Ok?
    requires |cols| <= i < |SasTableOf(file, indexAll, year, cols).value.columns| - 2
    ensures GeneratedColumn(cols, year, SasTableOf(file, indexAll, year, cols).value.columns[i])
  {
    var t := HitTable(cols);
    var b := Bind(t).value;
    var m := Marked(cols, t, indexAll);
    var c := Finish(m, b, year, 4).value;
    var r := SasTableOf(file, indexAll, year, cols).value.columns;
    FinishOnlyAdds(m, b, year, 4);
    assert r[i] == c[i];
    assert GeneratedAmong(m, b, year, 4, c[i]);
    var k :| 0 <= k < 4 && Appends(m, b, k) && c[i] == GeneratedFor(m, b, year, k);
    if b[k].Some? {
      var j := b[k].value;
      MarkedAt(cols, t, indexAll, j);
      BindOk(t);
      HitTableAt(cols, j);
      assert Hit(cols[j], k) && cols[j].name != Keys[k] && r[i] == AliasColumn(Keys[k], cols[j]);
    } else {
      UnboundIffNoCandidate(cols);
      FinishErr(m, b, year, 4);
    }
  }

  /** Once binding fails on the first `n` columns, it fails with the same key on all of them. */
  lemma {:induction false} BindErrPersists(t: seq<HitRow>, n: nat)
    requires n <= |t| && Bind(t[..n]).Err?
    ensures Bind(t) == Bind(t[..n])
    decreases |t|
  {
    if n < |t| {
      var p := t[..|t| - 1];
      assert p[..n] == t[..n];
      BindErrPersists(p, n);
    } else {
      assert t[..n] == t;
    }
  }

  /** Once the second loop fails on the first `n` keys, it fails with the same key on all four. */
  lemma {:induction false} FinishErrPersists(cols: seq<SasColumn>, b: Binding, year: int, n: nat, n': nat)
    requires n <= n' <= 4 && WellBound(b, |cols|)
    requires Finish(cols, b, year, n).Err?
    ensures Finish(cols, b, year, n') == Finish(cols, b, year, n)
    decreases n'
  {
    if n < n' {
      FinishErrPersists(cols, b, year, n, n' - 1);
    }
  }

  /**
   * The inner loop of `add_sas_table` for the column at position `j`:
   * each key whose candidates match the column's name is bound to it, or
   * raises when bound already; `isKey` records whether any matched.
   */
  method BindColumn(c: SasColumn, j: nat, bound: Binding) returns (r: Result<Binding, nat>, isKey: bool)
    ensures r == BindRow(HitsOf(c), j, bound, 0)
    ensures r.Ok? ==> isKey == IsKeyColumn(c)
  {
    ghost var h := HitsOf(c);
    var b := bound;
    isKey := false;
    for k := 0 to 4
      invariant BindRow(h, j, bound, 0) == BindRow(h, j, b, k)
      invariant isKey <==> exists k' :: 0 <= k' < k && h[k']
    {
      var hit := Matches(c.name, Candidates(k));
      MatchesAny(c.name, Candidates(k));
      assert hit == h[k];
      if hit {
        if b[k].Some? {
          return Err(k), isKey;
        }
        b := b[k := Some(j)];
        isKey := true;
      }
    }
    r := Ok(b);
    if IsKeyColumn(c) {
      assert h[0] || h[1] || h[2] || h[3];
    }
  }

  /**
   * The first loop of `add_sas_table`: binds the keys column by column and,
   * with `index_all`, indexes every column that is no key's candidate.
   */
  method BindAll(columns: seq<SasColumn>, indexAll: bool) returns (r: Result<(seq<SasColumn>, Binding), nat>)
    ensures Bind(HitTable(columns)).Err? ==> r == Err(Bind(HitTable(columns)).error)
    ensures Bind(HitTable(columns)).Ok? ==>
      r == Ok((Marked(columns, HitTable(columns), indexAll), Bind(HitTable(columns)).value))
  {
    ghost var t := HitTable(columns);
    var cols := columns;
    var bound: Binding := [None, None, None, None];
    assert t[..0] == [];
    for j := 0 to |columns|
      invariant |cols| == |columns|
      invariant Bind(t[..j]) == Ok(bound)
      invariant forall i :: 0 <= i < j ==> cols[i] == MarkColumn(columns[i], t[i], indexAll)
      invariant forall i :: j <= i < |columns| ==> cols[i] == columns[i]
    {
      HitTableAt(columns, j);
      BindNext(t, j);
      var row, isKey := BindColumn(cols[j], j, bound);
      if row.Err? {
        return Err(row.error);
      }
      bound := row.value;
      var c := MarkPlain(cols[j], indexAll, isKey);
      cols := cols[j := c];
    }
    assert t[..|columns|] == t;
    MarkedIs(columns, t, indexAll, cols);
    r := Ok((cols, bound));
  }

  /** Binding one more column continues from the bindings of those before it. */
  lemma BindNext(t: seq<HitRow>, j: nat)
    requires j < |t| && Bind(t[..j]).Ok?
    ensures Bind(t[..j + 1]) == BindRow(t[j], j, Bind(t[..j]).value, 0)
    ensures Bind(t[..j + 1]).Err? ==> Bind(t) == Bind(t[..j + 1])
  {
    assert t[..j + 1][..j] == t[..j] && t[..j + 1][j] == t[j];
    if Bind(t[..j + 1]).Err? {
      BindErrPersists(t, j + 1);
    }
  }

  /** `c["index"] = "true"` for a column that is no key's candidate, when `index_all` holds. */
  method MarkPlain(c: SasColumn, indexAll: bool, isKey: bool) returns (c': SasColumn)
    requires isKey == IsKeyColumn(c)
    ensures c' == MarkColumn(c, HitsOf(c), indexAll)
  {
    MarkColumnIs(c, indexAll);
    if indexAll && !isKey {
      c' := Indexed(c);
    } else {
      c' := c;
    }
  }

  /** A sequence that agrees with the marking at every position is the marked sequence. */
  lemma MarkedIs(cols: seq<SasColumn>, t: seq<HitRow>, indexAll: bool, m: seq<SasColumn>)
    requires |t| == |cols| == |m|
    requires forall i :: 0 <= i < |cols| ==> m[i] == MarkColumn(cols[i], t[i], indexAll)
    ensures m == Marked(cols, t, indexAll)
  {
    forall i | 0 <= i < |cols|
      ensures m[i] == Marked(cols, t, indexAll)[i]
    {
      MarkedAt(cols, t, indexAll, i);
    }
  }

  /**
   * The second loop of `add_sas_table`: per key in order, an unbound year
   * is generated and any other unbound key raises; a bound key indexes its
   * column or adds an alias.
   */
  method CompleteKeys(m: seq<SasColumn>, bound: Binding, year: int) returns (r: Result<seq<SasColumn>, nat>)
    requires WellBound(bound, |m|)
    ensures r == Finish(m, bound, year, 4)
  {
    var cols := m;
    for k := 0 to 4
      invariant Finish(m, bound, year, k) == Ok(cols)
    {
      if bound[k].None? {
        if k == YearKey {
          cols := cols + [YearColumn(year)];
        } else {
          FinishErrPersists(m, bound, year, k + 1, 4);
          return Err(k);
        }
      } else {
        var j := bound[k].value;
        if Keys[k] == cols[j].name {
          cols := cols[j := Indexed(cols[j])];
        } else {
          cols := cols + [AliasColumn(Keys[k], cols[j])];
        }
      }
    }
    r := Ok(cols);
  }

  /** `handle`: every column of a denominator file is indexed, of other files only the keys. */
  predicate IndexAllFor(fileType: string) {
    fileType == McrSas.DenominatorDir
  }

  /**
   * What `handle` does to the tables for one file `traverse` dispatched:
   * the columns the introspector reports for the file, `None` where it
   * fails, go into the entry of the file's table.
   */
  function Register(tables: map<string, SasTable>, target: McrSas.SasTarget, introspected: map<string, seq<SasColumn>>)
    : (r: Result<map<string, SasTable>, RegistryError>)
    ensures r.Ok? ==> r.value.Keys == tables.Keys + {target.table}
  {
    if target.file !in introspected then Err(NotIntrospected(target.file))
    else
      var entry :- SasTableOf(target.file, IndexAllFor(target.fileType), target.year, introspected[target.file]);
      Ok(tables[target.table := entry])
  }

  /** The tables after `handle` is called for each dispatched file in turn, and the error that stops it. */
  function RegisterAll(tables: map<string, SasTable>, targets: seq<McrSas.SasTarget>, introspected: map<string, seq<SasColumn>>)
    : (r: (map<string, SasTable>, Option<RegistryError>))
    decreases |targets|
  {
    if targets == [] then (tables, None)
    else match Register(tables, targets[0], introspected)
      case Err(e) => (tables, Some(e))
      case Ok(t) => RegisterAll(t, targets[1..], introspected)
  }

  /** Tables are only added or replaced: every table already in the registry stays in it. */
  lemma {:induction false} RegisterAllKeeps(tables: map<string, SasTable>, targets: seq<McrSas.SasTarget>,
                                            introspected: map<string, seq<SasColumn>>, name: string)
    requires name in tables
    ensures name in RegisterAll(tables, targets, introspected).0
    ensures (forall i :: 0 <= i < |targets| ==> targets[i].table != name) ==>
      RegisterAll(tables, targets, introspected).0[name] == tables[name]
    decreases |targets|
  {
    if targets != [] && Register(tables, targets[0], introspected).Ok? {
      var t := Register(tables, targets[0], introspected).value;
      RegisterAllKeeps(t, targets[1..], introspected, name);
      if forall i :: 0 <= i < |targets| ==> targets[i].table != name {
        assert targets[0].table != name;
        assert forall i :: 0 <= i < |targets[1..]| ==> targets[1..][i] == targets[i + 1];
      }
    }
  }

  /**
   * When every file is registered, each table holds the entry of the last
   * file dispatched to it: a later file of the same table replaces an
   * earlier one.
   */
  lemma {:induction false} RegisterAllLastWins(tables: map<string, SasTable>, targets: seq<McrSas.SasTarget>,
                                               introspected: map<string, seq<SasColumn>>, i: nat)
    requires RegisterAll(tables, targets, introspected).1.None?
    requires i < |targets|
    requires forall i' :: i < i' < |targets| ==> targets[i'].table != targets[i].table
    ensures targets[i].file in introspected
    ensures targets[i].table in RegisterAll(tables, targets, introspected).0
    ensures var x := targets[i];
      var entry := SasTableOf(x.file, IndexAllFor(x.fileType), x.year, introspected[x.file]);
      entry.Ok? && RegisterAll(tables, targets, introspected).0[x.table] == entry.value
    decreases |targets|
  {
    var t := Register(tables, targets[0], introspected).value;
    if i == 0 {
      RegisterAllKeeps(t, targets[1..], introspected, targets[0].table);
      assert forall i' :: 0 <= i' < |targets[1..]| ==> targets[1..][i'] == targets[i' + 1];
    } else {
      RegisterAllLastWins(t, targets[1..], introspected, i - 1);
    }
  }

  /**
   * The registry the introspector fills: the tables of the `cms` domain,
   * by name.
   */
  class SasIntrospector {
    var tables: map<string, SasTable>

    /** Opening a registry: the tables it already holds are given. */
    constructor (tables: map<string, SasTable>)
      ensures this.tables == tables
    {
      this.tables := tables;
    }

    /**
     * `add_sas_table`: the entry built from the introspected columns is
     * written under the table's name; an error leaves the registry as it was.
     */
    method AddSasTable(table: string, filePath: string, indexAll: bool, year: int, columns: seq<SasColumn>)
      returns (r: Result<(), RegistryError>)
      modifies this
      ensures SasTableOf(filePath, indexAll, year, columns).Ok? ==>
        r.Ok? && tables == old(tables)[table := SasTableOf(filePath, indexAll, year, columns).value]
      ensures SasTableOf(filePath, indexAll, year, columns).Err? ==>
        r == Err(SasTableOf(filePath, indexAll, year, columns).error) && tables == old(tables)
    {
      var bound := BindAll(columns, indexAll);
      if bound.Err? {
        return Err(MultipleColumns(Keys[bound.error], filePath));
      }
      var (cols, b) := bound.value;
      var done := CompleteKeys(cols, b, year);
      if done.Err? {
        return Err(NoColumn(Keys[done.error], filePath));
      }
      var all := done.value + [FileColumn];
      all := all + [RecordColumn];
      assert all == done.value + [FileColumn, RecordColumn];
      tables := tables[table := SasTable(all, [FileKey, RecordKey])];
      r := Ok(());
    }

    /** `handle`: the table of one dispatched file is added, indexing every column of a denominator file. */
    method Handle(target: McrSas.SasTarget, introspected: map<string, seq<SasColumn>>) returns (r: Result<(), RegistryError>)
      modifies this
      ensures Register(old(tables), target, introspected).Ok? ==>
        r.Ok? && tables == Register(old(tables), target, introspected).value
      ensures Register(old(tables), target, introspected).Err? ==>
        r == Err(Register(old(tables), target, introspected).error) && tables == old(tables)
    {
      if target.file !in introspected {
        return Err(NotIntrospected(target.file));
      }
      var indexAll := target.fileType == McrSas.DenominatorDir;
      r := AddSasTable(target.table, target.file, indexAll, target.year, introspected[target.file]);
    }

    /**
     * `process`: `traverse` over the matched files, `handle` for each file
     * in turn; the first error raised ends it, and the tables hold what was
     * added before it.
     */
    method Process(matched: seq<seq<string>>, introspected: map<string, seq<SasColumn>>) returns (r: Result<(), RegistryError>)
      modifies this
      ensures var (calls, err) := McrSas.Trace(McrSas.Concat(matched));
        var (t, e) := RegisterAll(old(tables), calls, introspected);
        && tables == t
        && r == (if e.Some? then Err(e.value) else if err.Some? then Err(TraverseFailed(err.value)) else Ok(()))
    {
      var calls, err := McrSas.Traverse(matched);
      ghost var t0 := tables;
      var i := 0;
      while i < |calls|
        invariant i <= |calls|
        invariant RegisterAll(t0, calls, introspected) == RegisterAll(tables, calls[i..], introspected)
      {
        assert calls[i..][1..] == calls[i + 1..];
        var h := Handle(calls[i], introspected);
        if h.Err? {
          return Err(h.error);
        }
        i := i + 1;
      }
      assert calls[i..] == [];
      if err.Some? {
        return Err(TraverseFailed(err.value));
      }
      r := Ok(());
    }
  }
}
