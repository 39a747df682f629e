/**
 * Value normalizers and the column resolver (src/utils.py): the permissive conversions that
 * turn raw table cells into canonical values, and the case-insensitive column lookup.
 */
module Utils {
  import opened Wrappers

  /**
   * One cell of a raw table: missing (pandas `NaN`, `None`) or present, carried as its Python
   * string form `str(x)`. The parsers below see only that text, so a cell that the reader typed
   * as a number or a boolean is not told apart from a text cell with the same characters.
   */
  datatype RawCell = Missing | Present(text: string)

  /** A point in time as pandas orders timestamps (ticks since the epoch). */
  type Date = int

  /**
   * Python's `float(...)` and pandas' `to_datetime(..., errors="coerce")` as given partial
   * parsers: `None` is the outcome for text they reject.
   */
  datatype Parsers = Parsers(number: string -> Option<real>, date: string -> Option<Date>)

  /** Python's `str.isspace` on one character; `str.strip` and the regex `\s` use the same set. */
  predicate IsSpace(c: char) {
    || ('\t' <= c <= '\r')
    || ('\U{1C}' <= c <= ' ')
    || c == '\U{85}' || c == '\U{A0}' || c == '\U{1680}'
    || ('\U{2000}' <= c <= '\U{200A}')
    || c == '\U{2028}' || c == '\U{2029}' || c == '\U{202F}' || c == '\U{205F}' || c == '\U{3000}'
  }

  predicate AllSpace(s: string) {
    forall i :: 0 <= i < |s| ==> IsSpace(s[i])
  }

  predicate NoSpace(s: string) {
    forall i :: 0 <= i < |s| ==> !IsSpace(s[i])
  }

  /** Neither the first nor the last character is whitespace. */
  predicate Trimmed(s: string) {
    s == [] || (!IsSpace(s[0]) && !IsSpace(s[|s| - 1]))
  }

  /** Position of the first non-whitespace character of `s` at or after `i`, or `|s|`. */
  function TextStart(s: string, i: nat): (j: nat)
    requires i <= |s|
    ensures i <= j <= |s|
    ensures forall k :: i <= k < j ==> IsSpace(s[k])
    ensures j < |s| ==> !IsSpace(s[j])
    decreases |s| - i
  {
    if i < |s| && IsSpace(s[i]) then TextStart(s, i + 1) else i
  }

  /** Position just after the last non-whitespace character of `s` before `j`, but not below `i`. */
  function TextEnd(s: string, i: nat, j: nat): (e: nat)
    requires i <= j <= |s|
    ensures i <= e <= j
    ensures forall k :: e <= k < j ==> IsSpace(s[k])
    ensures e > i ==> !IsSpace(s[e - 1])
  {
    if i < j && IsSpace(s[j - 1]) then TextEnd(s, i, j - 1) else j
  }

  /**
   * Python's `str.strip()`: the middle of `s` that is left once the whitespace at both ends
   * is cut off.
   */
  function Strip(s: string): (r: string)
    ensures Trimmed(r)
    ensures |r| <= |s|
  {
    var i := TextStart(s, 0);
    s[i..TextEnd(s, i, |s|)]
  }

  /**
   * What `str.strip()` keeps: a contiguous slice of `s`, starting at the returned position,
   * with nothing but whitespace before and after it.
   */
  lemma StripSlice(s: string) returns (i: nat)
    ensures i + |Strip(s)| <= |s|
    ensures Strip(s) == s[i..i + |Strip(s)|]
    ensures AllSpace(s[..i]) && AllSpace(s[i + |Strip(s)|..])
  {
    i := TextStart(s, 0);
    var e := TextEnd(s, i, |s|);
    assert Strip(s) == s[i..e];
    SpaceRun(s, 0, i);
    SpaceRun(s, e, |s|);
  }

  /** A run of whitespace positions is an all-whitespace slice. */
  lemma SpaceRun(s: string, lo: nat, hi: nat)
    requires lo <= hi <= |s|
    requires forall k :: lo <= k < hi ==> IsSpace(s[k])
    ensures AllSpace(s[lo..hi])
  {
  }

  /** A string without whitespace at its ends is its own stripped form. */
  lemma TrimmedStrip(s: string)
    requires Trimmed(s)
    ensures Strip(s) == s
  {
  }

  lemma StripIdempotent(s: string)
    ensures Strip(Strip(s)) == Strip(s)
  {
    TrimmedStrip(Strip(s));
  }

  /** Stripping leaves nothing exactly when the string is all whitespace. */
  lemma StripEmpty(s: string)
    ensures Strip(s) == [] <==> AllSpace(s)
  {
    var i := StripSlice(s);
    if Strip(s) == [] {
      assert s == s[..i] + s[i..];
    }
  }

  /** `clean_str`: `""` for a missing cell, otherwise the cell's text stripped. */
  function CleanStr(x: RawCell): (r: string)
    ensures Trimmed(r)
    ensures x.Missing? ==> r == ""
    ensures x.Present? ==> r == Strip(x.text)
  {
    match x
    case Missing => ""
    case Present(t) => Strip(t)
  }

  /** The cleaned value is empty exactly when the cell is missing or all whitespace. */
  lemma CleanStrEmpty(x: RawCell)
    ensures CleanStr(x) == "" <==> x.Missing? || AllSpace(x.text)
  {
    if x.Present? {
      StripEmpty(x.text);
    }
  }

  lemma CleanStrIdempotent(x: RawCell)
    ensures CleanStr(Present(CleanStr(x))) == CleanStr(x)
  {
    TrimmedStrip(CleanStr(x));
  }

  /** `re.sub(r"\s+", "", s)`: every whitespace character removed, the others kept in order. */
  function RemoveSpaces(s: string): (r: string)
    ensures NoSpace(r)
    ensures |r| <= |s|
  {
    if s == [] then ""
    else RemoveSpaces(s[..|s| - 1]) + (if IsSpace(s[|s| - 1]) then "" else [s[|s| - 1]])
  }

  /** Removing whitespace commutes with concatenation, so the order of the kept characters is unchanged. */
  lemma {:induction false} RemoveSpacesAppend(a: string, b: string)
    ensures RemoveSpaces(a + b) == RemoveSpaces(a) + RemoveSpaces(b)
    decreases |b|
  {
    if b == [] {
      assert a + b == a;
    } else {
      var b' := b[..|b| - 1];
      assert (a + b)[..|a + b| - 1] == a + b';
      RemoveSpacesAppend(a, b');
    }
  }

  /** Every character that is not whitespace is kept, as many times as it occurs. */
  lemma {:induction false} RemoveSpacesKeeps(s: string, c: char)
    requires !IsSpace(c)
    ensures multiset(RemoveSpaces(s))[c] == multiset(s)[c]
  {
    if s != [] {
      RemoveSpacesKeeps(s[..|s| - 1], c);
      assert s == s[..|s| - 1] + [s[|s| - 1]];
    }
  }

  /** A string without whitespace is left as it is; in particular removing whitespace twice is removing it once. */
  lemma {:induction false} RemoveSpacesNoSpace(s: string)
    requires NoSpace(s)
    ensures RemoveSpaces(s) == s
  {
    if s != [] {
      RemoveSpacesNoSpace(s[..|s| - 1]);
    }
  }

  /** Removing whitespace leaves nothing exactly when the string is all whitespace. */
  lemma {:induction false} RemoveSpacesEmpty(s: string)
    ensures RemoveSpaces(s) == "" <==> AllSpace(s)
  {
    if s != [] {
      RemoveSpacesEmpty(s[..|s| - 1]);
    }
  }

  /** `normalize_site_id`: the cleaned text with all whitespace removed, also inside. */
  function NormalizeSiteId(x: RawCell): (r: string)
    ensures NoSpace(r)
    ensures r == "" <==> x.Missing? || AllSpace(x.text)
  {
    var s := CleanStr(x);
    CleanStrEmpty(x);
    RemoveSpacesEmpty(s);
    RemoveSpaces(s)
  }

  lemma NormalizeSiteIdIdempotent(x: RawCell)
    ensures NormalizeSiteId(Present(NormalizeSiteId(x))) == NormalizeSiteId(x)
  {
    var r := NormalizeSiteId(x);
    assert Trimmed(r);
    TrimmedStrip(r);
    RemoveSpacesNoSpace(r);
  }

  /** `to_float`: `None` for a missing cell, otherwise the parser's answer, `None` when it rejects the text. */
  function ToFloat(x: RawCell, parse: string -> Option<real>): (r: Option<real>)
    ensures x.Missing? ==> r == None
    ensures x.Present? ==> r == parse(x.text)
  {
    if x.Missing? then None else parse(x.text)
  }

  /**
   * `to_date`: no date for a missing cell or one that is blank once stripped; otherwise the
   * parser's answer on the unstripped text, no date when it rejects it.
   */
  function ToDate(x: RawCell, parse: string -> Option<Date>): (r: Option<Date>)
    ensures x.Missing? || Strip(x.text) == "" ==> r == None
    ensures x.Present? && Strip(x.text) != "" ==> r == parse(x.text)
  {
    if x.Missing? || Strip(x.text) == "" then None else parse(x.text)
  }

  /** Python's `str.lower()` on one character, for the ASCII letters. */
  function LowerChar(c: char): char {
    if 'A' <= c <= 'Z' then (c as int - 'A' as int + 'a' as int) as char else c
  }

  function Lower(s: string): string {
    seq(|s|, i requires 0 <= i < |s| => LowerChar(s[i]))
  }

  /** Position of the last column whose lower-case form is `key`, or -1 when there is none. */
  function LastWithLower(columns: seq<string>, key: string): (k: int)
    ensures -1 <= k < |columns|
    ensures k >= 0 ==> Lower(columns[k]) == key
    ensures forall j :: k < j < |columns| ==> Lower(columns[j]) != key
  {
    if columns == [] then -1
    else if Lower(columns[|columns| - 1]) == key then |columns| - 1
    else LastWithLower(columns[..|columns| - 1], key)
  }

  /**
   * `{c.lower(): c for c in df.columns}`: each lower-case form maps to the column that has it;
   * when several do, the later assignment, the last such column, is the one kept.
   */
  function LowerIndex(columns: seq<string>): (m: map<string, string>)
    ensures forall key :: key in m <==> LastWithLower(columns, key) >= 0
    ensures forall key :: key in m ==> m[key] == columns[LastWithLower(columns, key)]
  {
    if columns == [] then map[]
    else
      var last := columns[|columns| - 1];
      LowerIndex(columns[..|columns| - 1])[Lower(last) := last]
  }

  /** Some column equals `cand` up to case. */
  predicate Resolves(columns: seq<string>, cand: string) {
    LastWithLower(columns, Lower(cand)) >= 0
  }

  /** The early-return search over the candidates from position `k` on. */
  function PickFrom(index: map<string, string>, candidates: seq<string>, k: nat): Option<string>
    requires k <= |candidates|
    decreases |candidates| - k
  {
    if k == |candidates| then None
    else if Lower(candidates[k]) in index then Some(index[Lower(candidates[k])])
    else PickFrom(index, candidates, k + 1)
  }

  /** `pick_first_col`: the actual column for the first candidate that has one, up to case. */
  function PickFirstCol(columns: seq<string>, candidates: seq<string>): Option<string> {
    PickFrom(LowerIndex(columns), candidates, 0)
  }

  /**
   * `pick_first_col` finds nothing exactly when no candidate equals any column up to case;
   * otherwise it returns, for the first candidate in list order that has a match, the last
   * column (in column order) with that candidate's lower-case form.
   */
  lemma PickFirstColSpec(columns: seq<string>, candidates: seq<string>)
    ensures PickFirstCol(columns, candidates).None? <==>
      forall i :: 0 <= i < |candidates| ==> !Resolves(columns, candidates[i])
    ensures PickFirstCol(columns, candidates).Some? ==>
      exists i :: 0 <= i < |candidates| && Resolves(columns, candidates[i])
        && (forall k :: 0 <= k < i ==> !Resolves(columns, candidates[k]))
        && PickFirstCol(columns, candidates).value == columns[LastWithLower(columns, Lower(candidates[i]))]
  {
    PickFromSpec(columns, candidates, 0);
  }

  lemma {:induction false} PickFromSpec(columns: seq<string>, candidates: seq<string>, k: nat)
    requires k <= |candidates|
    ensures PickFrom(LowerIndex(columns), candidates, k).None? <==>
      forall i :: k <= i < |candidates| ==> !Resolves(columns, candidates[i])
    ensures PickFrom(LowerIndex(columns), candidates, k).Some? ==>
      exists i :: k <= i < |candidates| && Resolves(columns, candidates[i])
        && (forall j :: k <= j < i ==> !Resolves(columns, candidates[j]))
        && PickFrom(LowerIndex(columns), candidates, k).value == columns[LastWithLower(columns, Lower(candidates[i]))]
    decreases |candidates| - k
  {
    var index := LowerIndex(columns);
    if k < |candidates| {
      var key := Lower(candidates[k]);
      assert key in index <==> Resolves(columns, candidates[k]);
      if key in index {
        assert PickFrom(index, candidates, k) == Some(index[key]);
        assert index[key] == columns[LastWithLower(columns, key)];
      } else {
        PickFromSpec(columns, candidates, k + 1);
        var r := PickFrom(index, candidates, k + 1);
        assert PickFrom(index, candidates, k) == r;
        if r.Some? {
          var i :| k + 1 <= i < |candidates| && Resolves(columns, candidates[i])
            && (forall j :: k + 1 <= j < i ==> !Resolves(columns, candidates[j]))
            && r.value == columns[LastWithLower(columns, Lower(candidates[i]))];
          assert forall j :: k <= j < i ==> !Resolves(columns, candidates[j]);
        } else {
          assert forall i :: k + 1 <= i < |candidates| ==> !Resolves(columns, candidates[i]);
        }
      }
    }
  }
}
