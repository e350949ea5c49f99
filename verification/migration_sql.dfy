/**
 * `generate_diff_up_sql` and `generate_diff_down_sql`: the up and down
 * migration scripts, built as structured statements and rendered to the
 * exact text the script writes.
 */
module MigrationSql {
  import opened Wrappers
  import opened Decimal
  import opened SqlLiteral
  import opened RegionRecords
  import opened RegionDiff

  datatype RegionType = Prefecture | Municipality

  function TypeName(t: RegionType): string {
    match t
    case Prefecture => "prefecture"
    case Municipality => "municipality"
  }

  /** One tuple of an `INSERT INTO regions … VALUES` statement; names unescaped. */
  datatype InsertRow = InsertRow(
    jisCode: string,
    name: string,
    nameKana: string,
    regionType: RegionType,
    parent: Option<string>)

  datatype Statement =
    | Insert(rows: seq<InsertRow>)
    | SetNames(jisCode: string, name: string, nameKana: string)
    | Delete(jisCodes: seq<string>)

  /** Comment lines, then statements, then an empty line. */
  datatype Section = Section(comments: seq<string>, statements: seq<Statement>)

  /** Title comments, `BEGIN;`, the sections, `COMMIT;` and `ANALYZE regions;`. */
  datatype Script = Script(title: seq<string>, sections: seq<Section>)

  /** The parent clause from the sentinel `find_prefecture_jis_code_from_record` returns. */
  function ParentOf(found: string): (p: Option<string>)
    ensures p.None? <==> found == NoParent
    ensures p.Some? ==> p.value == found
  {
    if found != NoParent then Some(found) else None
  }

  /**
   * The tuple inserted for row `r` when it is inserted together with
   * `batch`: a municipality when it has a municipality name, its parent the
   * first prefecture of `batch` sharing the code's two-digit prefix.
   */
  function InsertRowFor(r: Record, batch: seq<Record>): (row: InsertRow)
    ensures row.jisCode == JisCode(r)
    ensures (row.name, row.nameKana) == ShownNames(r)
    ensures row.regionType == Municipality <==> IsMunicipality(r)
    ensures row.regionType == Prefecture ==> row.parent.None?
    ensures row.parent.Some? ==>
      exists i :: FirstPrefectureAt(batch, Prefix2(JisCode(r)), i) && row.parent.value == JisCode(batch[i])
    ensures IsMunicipality(r) && row.parent.None? ==>
      forall i :: 0 <= i < |batch| ==> !IsPrefectureFor(batch[i], Prefix2(JisCode(r)))
  {
    var jis := JisCode(r);
    if IsMunicipality(r) then
      InsertRow(jis, r.muniName, r.muniKana, Municipality, ParentOf(FindPrefecture(jis, batch)))
    else
      InsertRow(jis, r.prefName, r.prefKana, Prefecture, None)
  }

  /** The tuples inserted for `rs`, each parent looked up in `batch`. */
  function RowsFor(rs: seq<Record>, batch: seq<Record>): (rows: seq<InsertRow>)
    ensures |rows| == |rs|
    ensures forall i :: 0 <= i < |rs| ==> rows[i] == InsertRowFor(rs[i], batch)
  {
    seq(|rs|, i requires 0 <= i < |rs| => InsertRowFor(rs[i], batch))
  }

  function JisCodes(rs: seq<Record>): (codes: seq<string>)
    ensures |codes| == |rs|
    ensures forall i :: 0 <= i < |rs| ==> codes[i] == JisCode(rs[i])
  {
    seq(|rs|, i requires 0 <= i < |rs| => JisCode(rs[i]))
  }

  /** The UPDATE statements that write each row's current names. */
  function NewNames(rs: seq<Record>): (sts: seq<Statement>)
    ensures |sts| == |rs|
    ensures forall i :: 0 <= i < |rs| ==>
      sts[i] == SetNames(JisCode(rs[i]), ShownNames(rs[i]).0, ShownNames(rs[i]).1)
  {
    seq(|rs|, i requires 0 <= i < |rs| => SetNames(JisCode(rs[i]), ShownNames(rs[i]).0, ShownNames(rs[i]).1))
  }

  /** Rows with their code replaced by the padded code. */
  function Padded(s: Snapshot): (p: Snapshot)
    ensures |p| == |s|
    ensures forall i :: 0 <= i < |s| ==> p[i] == s[i].(code := JisCode(s[i]))
  {
    seq(|s|, i requires 0 <= i < |s| => s[i].(code := JisCode(s[i])))
  }

  /** `{str(row["団体コード"]).zfill(6): row for row in old}`. */
  function PaddedIndex(s: Snapshot): map<string, Record> {
    Index(Padded(s))
  }

  /**
   * The UPDATE statements that put back the old names of the updated rows;
   * a row whose padded code the old snapshot lacks is skipped.
   */
  function Restores(updated: seq<Record>, byCode: map<string, Record>): (sts: seq<Statement>)
    ensures forall st :: st in sts ==>
      && st.SetNames?
      && st.jisCode in byCode
      && (st.name, st.nameKana) == ShownNames(byCode[st.jisCode])
  {
    if updated == [] then []
    else
      var k := JisCode(updated[0]);
      (if k in byCode then [SetNames(k, ShownNames(byCode[k]).0, ShownNames(byCode[k]).1)] else [])
        + Restores(updated[1..], byCode)
  }

  function Count(n: nat): string {
    "(" + FromNat(n) + " records)"
  }

  const UpTitle: seq<string> := [
    "-- Update regions data (differential migration)",
    "-- Generated automatically from local government codes diff"]

  const DownTitle: seq<string> := [
    "-- Rollback regions data changes",
    "-- This will undo the differential migration"]

  /** A commented section that the script writes only when it has something to do. */
  function OptionalSection(present: bool, comments: seq<string>, statements: seq<Statement>): (secs: seq<Section>)
    ensures present ==> secs == [Section(comments, statements)]
    ensures !present ==> secs == []
  {
    if present then [Section(comments, statements)] else []
  }

  function UpScript(ch: Changes): Script {
    Script(UpTitle,
      OptionalSection(ch.added != [], ["-- Insert new regions " + Count(|ch.added|)], [Insert(RowsFor(ch.added, ch.added))])
      + OptionalSection(ch.updated != [], ["-- Update existing regions " + Count(|ch.updated|)], NewNames(ch.updated))
      + OptionalSection(ch.deleted != [],
          ["-- Delete removed regions " + Count(|ch.deleted|), "-- Note: Physical deletion for master data"],
          [Delete(JisCodes(ch.deleted))]))
  }

  /**
   * Where the down script looks for the parent prefecture of a municipality
   * it re-inserts: among the deleted rows, as the script does, or in the
   * whole old snapshot, which gives back the parent the row had.
   */
  datatype ParentSource = AmongDeleted | AmongOld

  function ParentBatch(source: ParentSource, ch: Changes, older: Snapshot): (batch: seq<Record>) {
    match source
    case AmongDeleted => ch.deleted
    case AmongOld => older
  }

  /** `older` is the backup snapshot, empty on a first run. */
  function DownScript(ch: Changes, older: Snapshot, source: ParentSource): Script {
    Script(DownTitle,
      OptionalSection(ch.added != [], ["-- Remove newly added regions " + Count(|ch.added|)], [Delete(JisCodes(ch.added))])
      + OptionalSection(ch.updated != [] && older != [],
          ["-- Restore updated regions " + Count(|ch.updated|)], Restores(ch.updated, PaddedIndex(older)))
      + OptionalSection(ch.deleted != [], ["-- Restore deleted regions " + Count(|ch.deleted|)],
          [Insert(RowsFor(ch.deleted, ParentBatch(source, ch, older)))]))
  }

  // Rendering to text

  /** Python's `sep.join(parts)`. */
  function Join(sep: string, parts: seq<string>): string {
    if parts == [] then ""
    else if |parts| == 1 then parts[0]
    else parts[0] + sep + Join(sep, parts[1..])
  }

  const InsertHead: string :=
    "INSERT INTO regions (jis_code, name, name_kana, region_type, parent_jis_code, created_at, updated_at) VALUES"

  function ParentClause(p: Option<string>): string {
    match p
    case Some(code) => "'" + code + "'"
    case None => "NULL"
  }

  function QuotedCode(code: string): string {
    "'" + code + "'"
  }

  /** One parenthesised row of the INSERT statement. */
  function ValuesTuple(row: InsertRow): string {
    "(" + QuotedCode(row.jisCode) + ", " + Literal(row.name) + ", " + Literal(row.nameKana) + TupleTail(row)
  }

  function TupleTail(row: InsertRow): string {
    ", '" + TypeName(row.regionType) + "', " + ParentClause(row.parent) + ", NOW(), NOW())"
  }

  /**
   * The names are quoted safely in a row: an SQL reader that scans the
   * literal after the code gets the name back exactly, whatever quotes it
   * holds, and then the kana the same way, with the rest of the row left.
   */
  lemma ValuesTupleNames(row: InsertRow)
    ensures var head := "(" + QuotedCode(row.jisCode) + ", ";
      var afterName := ", " + Literal(row.nameKana) + TupleTail(row);
      && ScanLiteral(ValuesTuple(row)[|head|..]) == Some((row.name, afterName))
      && ScanLiteral(afterName[2..]) == Some((row.nameKana, TupleTail(row)))
  {
    var head := "(" + QuotedCode(row.jisCode) + ", ";
    var afterName := ", " + Literal(row.nameKana) + TupleTail(row);
    TupleSplit(row, head, afterName);
    ScanLiteralOfEscaped(row.name, afterName);
    KanaAfterName(row, afterName);
  }

  lemma TupleSplit(row: InsertRow, head: string, afterName: string)
    requires head == "(" + QuotedCode(row.jisCode) + ", "
    requires afterName == ", " + Literal(row.nameKana) + TupleTail(row)
    ensures ValuesTuple(row)[|head|..] == Literal(row.name) + afterName
  {
    assert ValuesTuple(row) == head + (Literal(row.name) + afterName);
  }

  lemma KanaAfterName(row: InsertRow, afterName: string)
    requires afterName == ", " + Literal(row.nameKana) + TupleTail(row)
    ensures ScanLiteral(afterName[2..]) == Some((row.nameKana, TupleTail(row)))
  {
    var kana := Literal(row.nameKana) + TupleTail(row);
    assert afterName == ", " + kana;
    assert |", "| == 2;
    assert afterName[2..] == kana;
    ScanLiteralOfEscaped(row.nameKana, TupleTail(row));
  }

  const UpdateHead: string := "UPDATE regions SET name = "
  const KanaClause: string := ", name_kana = "

  function UpdateTail(code: string): string {
    ", updated_at = NOW() WHERE jis_code = '" + code + "';"
  }

  /** The UPDATE statement that sets both names of one row. */
  function UpdateLine(code: string, name: string, kana: string): string {
    UpdateHead + Literal(name) + KanaClause + Literal(kana) + UpdateTail(code)
  }

  /** The same safety for the UPDATE statement: both names scan back exactly. */
  lemma UpdateLineNames(code: string, name: string, kana: string)
    ensures var afterName := KanaClause + Literal(kana) + UpdateTail(code);
      && ScanLiteral(UpdateLine(code, name, kana)[|UpdateHead|..]) == Some((name, afterName))
      && ScanLiteral(afterName[|KanaClause|..]) == Some((kana, UpdateTail(code)))
  {
    var afterName := KanaClause + Literal(kana) + UpdateTail(code);
    assert UpdateLine(code, name, kana)[|UpdateHead|..] == Literal(name) + afterName;
    ScanLiteralOfEscaped(name, afterName);
    assert afterName[|KanaClause|..] == Literal(kana) + UpdateTail(code);
    ScanLiteralOfEscaped(kana, UpdateTail(code));
  }

  function StatementLines(st: Statement): seq<string> {
    match st
    case Insert(rows) =>
      [InsertHead, Join(",\n", seq(|rows|, i requires 0 <= i < |rows| => ValuesTuple(rows[i]))) + ";"]
    case SetNames(code, name, kana) =>
      [UpdateLine(code, name, kana)]
    case Delete(codes) =>
      ["DELETE FROM regions WHERE jis_code IN ("
         + Join(", ", seq(|codes|, i requires 0 <= i < |codes| => QuotedCode(codes[i]))) + ");"]
  }

  function StatementsLines(sts: seq<Statement>): seq<string> {
    if sts == [] then [] else StatementLines(sts[0]) + StatementsLines(sts[1..])
  }

  function SectionsLines(secs: seq<Section>): seq<string> {
    if secs == [] then []
    else secs[0].comments + StatementsLines(secs[0].statements) + [""] + SectionsLines(secs[1..])
  }

  const Footer: seq<string> := ["COMMIT;", "", "-- Update statistics", "ANALYZE regions;"]

  function Lines(s: Script): seq<string> {
    s.title + ["", "BEGIN;", ""] + SectionsLines(s.sections) + Footer
  }

  /** The file content: `"\n".join(sql_lines)`. */
  function Render(s: Script): string {
    Join("\n", Lines(s))
  }
}
