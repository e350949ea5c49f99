/**
 * Rows of the local-government-code table (団体コード and the four name
 * columns) and the lookups the migration script performs on them.
 */
module RegionRecords {
  import opened Decimal

  /**
   * One row: 団体コード, 都道府県名（漢字）, 市区町村名（漢字）,
   * 都道府県名（カナ）, 市区町村名（カナ）, each as the text `str()` gives
   * after empty cells are filled with "".
   */
  datatype Record = Record(
    code: string,
    prefName: string,
    muniName: string,
    prefKana: string,
    muniKana: string)

  /** A table snapshot, rows in file order. */
  type Snapshot = seq<Record>

  function Codes(s: Snapshot): set<string> {
    set r | r in s :: r.code
  }

  /**
   * `{row["団体コード"]: row for row in rows}`: rows keyed by code, a later
   * row replacing an earlier one with the same code.
   */
  function Index(s: Snapshot): (m: map<string, Record>)
    ensures m.Keys == Codes(s)
    ensures forall c :: c in m ==> m[c].code == c && m[c] in s
  {
    if s == [] then map[]
    else
      var init := s[..|s| - 1];
      var m := Index(init)[s[|s| - 1].code := s[|s| - 1]];
      assert s == init + [s[|s| - 1]];
      assert Codes(s) == Codes(init) + {s[|s| - 1].code};
      m
  }

  /** The value kept for a code is the last row carrying it. */
  lemma {:induction false} IndexLastWins(s: Snapshot, i: nat)
    requires i < |s|
    requires forall j :: i < j < |s| ==> s[j].code != s[i].code
    ensures Index(s)[s[i].code] == s[i]
    decreases |s|
  {
    if i < |s| - 1 {
      var init := s[..|s| - 1];
      assert init[i] == s[i];
      IndexLastWins(init, i);
    }
  }

  /**
   * The text compared for change detection: the four name columns
   * concatenated, the code excluded. The script compares md5 digests of
   * this text; the model compares the text itself.
   */
  function Content(r: Record): string {
    r.prefName + r.muniName + r.prefKana + r.muniKana
  }

  predicate Changed(older: Record, newer: Record) {
    Content(older) != Content(newer)
  }

  /** A row with a municipality name is a municipality; otherwise a prefecture. */
  predicate IsMunicipality(r: Record) {
    r.muniName != ""
  }

  /** The 6-character region code written to SQL: `str(code).zfill(6)`. */
  function JisCode(r: Record): string {
    ZFill(r.code, 6)
  }

  lemma JisCodeLength(r: Record)
    ensures |JisCode(r)| >= 6
  {
    ZFillShape(r.code, 6);
  }

  /** The (name, name_kana) pair written for a row. */
  function ShownNames(r: Record): (p: (string, string))
    ensures IsMunicipality(r) ==> p == (r.muniName, r.muniKana)
    ensures !IsMunicipality(r) ==> p == (r.prefName, r.prefKana)
  {
    if IsMunicipality(r) then (r.muniName, r.muniKana) else (r.prefName, r.prefKana)
  }

  /** `text[:2]`. */
  function Prefix2(text: string): string {
    if |text| <= 2 then text else text[..2]
  }

  /** A prefecture row whose padded code starts with `prefix`. */
  predicate IsPrefectureFor(r: Record, prefix: string) {
    !IsMunicipality(r) && prefix <= JisCode(r)
  }

  /** Row `i` is the first prefecture row for `prefix`. */
  predicate FirstPrefectureAt(records: seq<Record>, prefix: string, i: int) {
    && 0 <= i < |records|
    && IsPrefectureFor(records[i], prefix)
    && forall j :: 0 <= j < i ==> !IsPrefectureFor(records[j], prefix)
  }

  /** The sentinel the script uses for "no parent". */
  const NoParent: string := "NULL"

  /**
   * `find_prefecture_jis_code_from_record`: the padded code of the first
   * prefecture row whose padded code starts with the first two characters of
   * `muniCode`, or "NULL".
   */
  function FindPrefecture(muniCode: string, records: seq<Record>): (r: string)
    ensures r == NoParent <==> forall i :: 0 <= i < |records| ==> !IsPrefectureFor(records[i], Prefix2(muniCode))
    ensures r != NoParent ==> exists i :: FirstPrefectureAt(records, Prefix2(muniCode), i) && r == JisCode(records[i])
    ensures r != NoParent ==> Prefix2(muniCode) <= r
  {
    FindFrom(Prefix2(muniCode), records)
  }

  function FindFrom(prefix: string, records: seq<Record>): (r: string)
    ensures r == NoParent <==> forall i :: 0 <= i < |records| ==> !IsPrefectureFor(records[i], prefix)
    ensures r != NoParent ==> exists i :: FirstPrefectureAt(records, prefix, i) && r == JisCode(records[i])
    ensures r != NoParent ==> prefix <= r
  {
    if records == [] then NoParent
    else if IsPrefectureFor(records[0], prefix) then
      JisCodeLength(records[0]);
      JisCode(records[0])
    else
      var r := FindFrom(prefix, records[1..]);
      assert forall i :: 1 <= i < |records| ==> records[i] == records[1..][i - 1];
      assert r != NoParent ==> exists i :: FirstPrefectureAt(records, prefix, i) && r == JisCode(records[i]) by {
        if r != NoParent {
          var k :| FirstPrefectureAt(records[1..], prefix, k) && r == JisCode(records[1..][k]);
          assert FirstPrefectureAt(records, prefix, k + 1);
        }
      }
      r
  }
}
