/**
 * What the generated scripts do to the `regions` table, and the proof that
 * the down script undoes the up script.
 */
module MigrationApply {
  import opened Wrappers
  import opened Decimal
  import opened RegionRecords
  import opened RegionDiff
  import opened MigrationSql

  /** A `regions` row apart from its key and timestamps. */
  datatype Row = Row(name: string, nameKana: string, regionType: RegionType, parent: Option<string>)

  /** The `regions` table keyed by `jis_code`. */
  type Table = map<string, Row>

  function RowOf(ir: InsertRow): Row {
    Row(ir.name, ir.nameKana, ir.regionType, ir.parent)
  }

  /** Inserting a key already present violates the primary key and aborts the transaction. */
  function InsertAll(t: Table, rows: seq<InsertRow>): Option<Table>
    decreases |rows|
  {
    if rows == [] then Some(t)
    else if rows[0].jisCode in t then None
    else InsertAll(t[rows[0].jisCode := RowOf(rows[0])], rows[1..])
  }

  function ApplyStatement(t: Table, st: Statement): Option<Table> {
    match st
    case Insert(rows) => InsertAll(t, rows)
    case SetNames(k, n, kana) => Some(if k in t then t[k := t[k].(name := n, nameKana := kana)] else t)
    case Delete(codes) => Some(t - (set c | c in codes))
  }

  function ApplyAll(t: Table, sts: seq<Statement>): Option<Table>
    decreases |sts|
  {
    if sts == [] then Some(t)
    else
      match ApplyStatement(t, sts[0])
      case None => None
      case Some(t') => ApplyAll(t', sts[1..])
  }

  function SectionStatements(secs: seq<Section>): seq<Statement> {
    if secs == [] then [] else secs[0].statements + SectionStatements(secs[1..])
  }

  /** Run a script inside its transaction: `None` when a statement fails and everything rolls back. */
  function Run(t: Table, s: Script): Option<Table> {
    ApplyAll(t, SectionStatements(s.sections))
  }

  // Helpers about the semantics

  lemma {:induction false} ApplyAllAppend(t: Table, a: seq<Statement>, b: seq<Statement>)
    ensures ApplyAll(t, a + b) ==
      match ApplyAll(t, a)
      case None => None
      case Some(t') => ApplyAll(t', b)
    decreases |a|
  {
    if a == [] {
      assert a + b == b;
    } else {
      assert (a + b)[0] == a[0];
      assert (a + b)[1..] == a[1..] + b;
      match ApplyStatement(t, a[0])
      case None =>
      case Some(t') => ApplyAllAppend(t', a[1..], b);
    }
  }

  lemma {:induction false} SectionStatementsAppend(a: seq<Section>, b: seq<Section>)
    ensures SectionStatements(a + b) == SectionStatements(a) + SectionStatements(b)
    decreases |a|
  {
    if a == [] {
      assert a + b == b;
    } else {
      assert (a + b)[0] == a[0];
      assert (a + b)[1..] == a[1..] + b;
      SectionStatementsAppend(a[1..], b);
    }
  }

  function InsertKeys(rows: seq<InsertRow>): set<string> {
    set row | row in rows :: row.jisCode
  }

  predicate DistinctKeys(rows: seq<InsertRow>) {
    forall i, j :: 0 <= i < j < |rows| ==> rows[i].jisCode != rows[j].jisCode
  }

  /** Inserting rows with fresh, distinct keys succeeds and adds exactly those rows. */
  lemma {:induction false} InsertFresh(t: Table, rows: seq<InsertRow>)
    requires DistinctKeys(rows)
    requires forall row :: row in rows ==> row.jisCode !in t
    ensures InsertAll(t, rows).Some?
    ensures InsertAll(t, rows).value.Keys == t.Keys + InsertKeys(rows)
    ensures forall k :: k in t ==> InsertAll(t, rows).value[k] == t[k]
    ensures forall row :: row in rows ==> InsertAll(t, rows).value[row.jisCode] == RowOf(row)
    decreases |rows|
  {
    if rows != [] {
      var k0, tail := rows[0].jisCode, rows[1..];
      var t' := t[k0 := RowOf(rows[0])];
      assert rows == [rows[0]] + tail;
      assert DistinctKeys(tail) by {
        forall i, j | 0 <= i < j < |tail| ensures tail[i].jisCode != tail[j].jisCode {
          assert tail[i] == rows[i + 1] && tail[j] == rows[j + 1];
        }
      }
      forall row | row in tail ensures row.jisCode !in t' {
        var j :| 0 <= j < |tail| && tail[j] == row;
        assert rows[j + 1] == row;
      }
      InsertFresh(t', tail);
      var r := InsertAll(t', tail).value;
      assert InsertAll(t, rows) == Some(r);
      assert InsertKeys(rows) == {k0} + InsertKeys(tail);
      forall row | row in rows ensures r[row.jisCode] == RowOf(row) {
        if row !in tail {
          assert row == rows[0];
        }
      }
    }
  }

  function SetNamesCodes(sts: seq<Statement>): set<string> {
    set st | st in sts && st.SetNames? :: st.jisCode
  }

  predicate DistinctSetNames(sts: seq<Statement>) {
    && (forall st :: st in sts ==> st.SetNames?)
    && forall i, j :: 0 <= i < j < |sts| ==> sts[i].jisCode != sts[j].jisCode
  }

  /** UPDATEs on distinct keys rename exactly the rows they name and leave every other row alone. */
  lemma {:induction false} SetNamesEffect(t: Table, sts: seq<Statement>)
    requires DistinctSetNames(sts)
    ensures ApplyAll(t, sts).Some?
    ensures ApplyAll(t, sts).value.Keys == t.Keys
    ensures forall k :: k in t && k !in SetNamesCodes(sts) ==> ApplyAll(t, sts).value[k] == t[k]
    ensures forall st :: st in sts && st.jisCode in t ==>
      ApplyAll(t, sts).value[st.jisCode] == t[st.jisCode].(name := st.name, nameKana := st.nameKana)
    decreases |sts|
  {
    if sts != [] {
      var st0 := sts[0];
      assert st0 in sts;
      var t' := ApplyStatement(t, st0).value;
      assert DistinctSetNames(sts[1..]) by {
        assert forall i :: 1 <= i < |sts| ==> sts[1..][i - 1] == sts[i];
      }
      SetNamesEffect(t', sts[1..]);
      assert st0.jisCode !in SetNamesCodes(sts[1..]) by {
        forall st | st in sts[1..] ensures st.jisCode != st0.jisCode {
          var j :| 1 <= j < |sts| && sts[j] == st;
        }
      }
      assert SetNamesCodes(sts) == {st0.jisCode} + SetNamesCodes(sts[1..]);
      assert forall st :: st in sts ==> st == st0 || st in sts[1..];
    }
  }

  // The scripts as statement lists

  /** An optional section contributes its statements exactly when it is present. */
  lemma OptionalStatements(present: bool, comments: seq<string>, statements: seq<Statement>)
    ensures SectionStatements(OptionalSection(present, comments, statements)) == if present then statements else []
  {
    if present {
      assert SectionStatements([Section(comments, statements)]) == statements + SectionStatements([]);
    }
  }

  /** The statements of three optional sections, in order. */
  lemma ThreeSections(a: seq<Section>, u: seq<Section>, d: seq<Section>)
    ensures SectionStatements(a + u + d) == SectionStatements(a) + SectionStatements(u) + SectionStatements(d)
  {
    SectionStatementsAppend(a + u, d);
    SectionStatementsAppend(a, u);
  }

  lemma UpStatements(ch: Changes)
    ensures SectionStatements(UpScript(ch).sections) ==
      (if ch.added != [] then [Insert(RowsFor(ch.added, ch.added))] else [])
      + NewNames(ch.updated)
      + (if ch.deleted != [] then [Delete(JisCodes(ch.deleted))] else [])
  {
    var ca := ["-- Insert new regions " + Count(|ch.added|)];
    var cu := ["-- Update existing regions " + Count(|ch.updated|)];
    var cd := ["-- Delete removed regions " + Count(|ch.deleted|), "-- Note: Physical deletion for master data"];
    ThreeSections(OptionalSection(ch.added != [], ca, [Insert(RowsFor(ch.added, ch.added))]),
                  OptionalSection(ch.updated != [], cu, NewNames(ch.updated)),
                  OptionalSection(ch.deleted != [], cd, [Delete(JisCodes(ch.deleted))]));
    OptionalStatements(ch.added != [], ca, [Insert(RowsFor(ch.added, ch.added))]);
    OptionalStatements(ch.updated != [], cu, NewNames(ch.updated));
    OptionalStatements(ch.deleted != [], cd, [Delete(JisCodes(ch.deleted))]);
    if ch.updated == [] {
      assert NewNames(ch.updated) == [];
    }
  }

  lemma DownStatements(ch: Changes, older: Snapshot, source: ParentSource)
    ensures SectionStatements(DownScript(ch, older, source).sections) ==
      (if ch.added != [] then [Delete(JisCodes(ch.added))] else [])
      + (if ch.updated != [] && older != [] then Restores(ch.updated, PaddedIndex(older)) else [])
      + (if ch.deleted != [] then [Insert(RowsFor(ch.deleted, ParentBatch(source, ch, older)))] else [])
  {
    var ca := ["-- Remove newly added regions " + Count(|ch.added|)];
    var cu := ["-- Restore updated regions " + Count(|ch.updated|)];
    var cd := ["-- Restore deleted regions " + Count(|ch.deleted|)];
    var rs := Restores(ch.updated, PaddedIndex(older));
    var rows := RowsFor(ch.deleted, ParentBatch(source, ch, older));
    ThreeSections(OptionalSection(ch.added != [], ca, [Delete(JisCodes(ch.added))]),
                  OptionalSection(ch.updated != [] && older != [], cu, rs),
                  OptionalSection(ch.deleted != [], cd, [Insert(rows)]));
    OptionalStatements(ch.added != [], ca, [Delete(JisCodes(ch.added))]);
    OptionalStatements(ch.updated != [] && older != [], cu, rs);
    OptionalStatements(ch.deleted != [], cd, [Insert(rows)]);
  }

  // Conditions for the round trip

  function JisSet(rs: seq<Record>): set<string> {
    set r | r in rs :: JisCode(r)
  }

  predicate DistinctJis(rs: seq<Record>) {
    forall i, j :: 0 <= i < j < |rs| ==> JisCode(rs[i]) != JisCode(rs[j])
  }

  /** No padded code occurs twice in the three lists together. */
  predicate Separate(ch: Changes) {
    && DistinctJis(ch.added) && DistinctJis(ch.updated) && DistinctJis(ch.deleted)
    && JisSet(ch.added) !! JisSet(ch.updated)
    && JisSet(ch.added) !! JisSet(ch.deleted)
    && JisSet(ch.updated) !! JisSet(ch.deleted)
  }

  lemma RowsForKeys(rs: seq<Record>, batch: seq<Record>)
    requires DistinctJis(rs)
    ensures DistinctKeys(RowsFor(rs, batch))
    ensures InsertKeys(RowsFor(rs, batch)) == JisSet(rs)
  {
    var rows := RowsFor(rs, batch);
    forall k | k in JisSet(rs) ensures k in InsertKeys(rows) {
      var r :| r in rs && JisCode(r) == k;
      var i :| 0 <= i < |rs| && rs[i] == r;
      assert rows[i] in rows;
    }
  }

  lemma {:induction false} RestoresCodes(updated: seq<Record>, byCode: map<string, Record>)
    ensures SetNamesCodes(Restores(updated, byCode)) == set r | r in updated && JisCode(r) in byCode :: JisCode(r)
    decreases |updated|
  {
    if updated != [] {
      var tail := updated[1..];
      RestoresCodes(tail, byCode);
      var k := JisCode(updated[0]);
      var head := if k in byCode then [SetNames(k, ShownNames(byCode[k]).0, ShownNames(byCode[k]).1)] else [];
      var rt := Restores(tail, byCode);
      assert Restores(updated, byCode) == head + rt;
      assert SetNamesCodes(head + rt) == SetNamesCodes(head) + SetNamesCodes(rt) by {
        assert forall st :: st in head + rt <==> st in head || st in rt;
      }
      assert SetNamesCodes(head) == if k in byCode then {k} else {} by {
        if k in byCode {
          assert head[0] in head;
        }
      }
      var here := if k in byCode then {k} else {};
      assert (set r | r in updated && JisCode(r) in byCode :: JisCode(r))
        == here + (set r | r in tail && JisCode(r) in byCode :: JisCode(r)) by {
        assert forall r :: r in updated <==> r == updated[0] || r in tail;
      }
    }
  }

  lemma {:induction false} RestoresDistinct(updated: seq<Record>, byCode: map<string, Record>)
    requires DistinctJis(updated)
    ensures DistinctSetNames(Restores(updated, byCode))
    decreases |updated|
  {
    if updated != [] {
      var tail := updated[1..];
      assert DistinctJis(tail) by {
        assert forall i :: 0 <= i < |tail| ==> tail[i] == updated[i + 1];
      }
      RestoresDistinct(tail, byCode);
      RestoresCodes(tail, byCode);
      var k := JisCode(updated[0]);
      var rt := Restores(tail, byCode);
      var head := if k in byCode then [SetNames(k, ShownNames(byCode[k]).0, ShownNames(byCode[k]).1)] else [];
      assert Restores(updated, byCode) == head + rt;
      assert k !in JisSet(tail) by {
        forall r | r in tail ensures JisCode(r) != k {
          var j :| 0 <= j < |tail| && tail[j] == r;
          assert updated[j + 1] == r;
        }
      }
      assert k !in SetNamesCodes(rt);
      forall i | 0 <= i < |rt| ensures rt[i].jisCode != k {
        assert rt[i] in rt;
      }
    }
  }

  /** Inserting the rows of `rs`, parents looked up in `batch`, on a table that lacks their codes. */
  lemma InsertBatch(t: Table, rs: seq<Record>, batch: seq<Record>)
    requires DistinctJis(rs)
    requires forall r :: r in rs ==> JisCode(r) !in t
    ensures var sts := if rs != [] then [Insert(RowsFor(rs, batch))] else [];
      && ApplyAll(t, sts).Some?
      && ApplyAll(t, sts).value.Keys == t.Keys + JisSet(rs)
      && (forall k :: k in t ==> ApplyAll(t, sts).value[k] == t[k])
      && (forall r :: r in rs ==> ApplyAll(t, sts).value[JisCode(r)] == RowOf(InsertRowFor(r, batch)))
  {
    RowsForKeys(rs, batch);
    var rows := RowsFor(rs, batch);
    if rs != [] {
      assert forall row :: row in rows ==> row.jisCode !in t by {
        forall row | row in rows ensures row.jisCode !in t {
          var i :| 0 <= i < |rows| && rows[i] == row;
          assert rs[i] in rs;
        }
      }
      InsertFresh(t, rows);
      forall r | r in rs
        ensures InsertAll(t, rows).value[JisCode(r)] == RowOf(InsertRowFor(r, batch))
      {
        var i :| 0 <= i < |rs| && rs[i] == r;
        assert rows[i] in rows;
      }
    }
  }

  lemma DeleteBatch(t: Table, batch: seq<Record>)
    ensures ApplyAll(t, if batch != [] then [Delete(JisCodes(batch))] else []) == Some(t - JisSet(batch))
  {
    if batch != [] {
      var codes := JisCodes(batch);
      assert (set c | c in codes) == JisSet(batch) by {
        forall k | k in JisSet(batch) ensures k in codes {
          var r :| r in batch && JisCode(r) == k;
          var i :| 0 <= i < |batch| && batch[i] == r;
        }
      }
    } else {
      assert JisSet(batch) == {};
      assert t - {} == t;
    }
  }

  lemma RenameBatch(t: Table, updated: seq<Record>)
    requires DistinctJis(updated)
    ensures var t' := ApplyAll(t, NewNames(updated));
      && t'.Some?
      && t'.value.Keys == t.Keys
      && (forall k :: k in t && k !in JisSet(updated) ==> t'.value[k] == t[k])
      && (forall r :: r in updated && JisCode(r) in t ==>
            t'.value[JisCode(r)] == t[JisCode(r)].(name := ShownNames(r).0, nameKana := ShownNames(r).1))
  {
    var ua := NewNames(updated);
    assert DistinctSetNames(ua);
    assert SetNamesCodes(ua) == JisSet(updated) by {
      forall k | k in JisSet(updated) ensures k in SetNamesCodes(ua) {
        var r :| r in updated && JisCode(r) == k;
        var i :| 0 <= i < |updated| && updated[i] == r;
        assert ua[i] in ua;
      }
    }
    SetNamesEffect(t, ua);
    forall r | r in updated && JisCode(r) in t
      ensures ApplyAll(t, ua).value[JisCode(r)] == t[JisCode(r)].(name := ShownNames(r).0, nameKana := ShownNames(r).1)
    {
      var i :| 0 <= i < |updated| && updated[i] == r;
      assert ua[i] in ua;
    }
  }

  lemma RestoreBatch(t: Table, updated: seq<Record>, byCode: map<string, Record>)
    requires DistinctJis(updated)
    ensures var t' := ApplyAll(t, Restores(updated, byCode));
      && t'.Some?
      && t'.value.Keys == t.Keys
      && (forall k :: k in t && k !in JisSet(updated) ==> t'.value[k] == t[k])
      && (forall r :: r in updated && JisCode(r) in t && JisCode(r) in byCode ==>
            t'.value[JisCode(r)] == t[JisCode(r)].(
              name := ShownNames(byCode[JisCode(r)]).0, nameKana := ShownNames(byCode[JisCode(r)]).1))
  {
    var rs := Restores(updated, byCode);
    RestoresCodes(updated, byCode);
    RestoresDistinct(updated, byCode);
    SetNamesEffect(t, rs);
    forall r | r in updated && JisCode(r) in t && JisCode(r) in byCode
      ensures ApplyAll(t, rs).value[JisCode(r)] == t[JisCode(r)].(
        name := ShownNames(byCode[JisCode(r)]).0, nameKana := ShownNames(byCode[JisCode(r)]).1)
    {
      assert JisCode(r) in SetNamesCodes(rs);
      var st :| st in rs && st.SetNames? && st.jisCode == JisCode(r);
    }
  }

  /** What the up script does to a table in which no added code is present. */
  lemma UpEffect(ch: Changes, t: Table) returns (t': Table)
    requires Separate(ch)
    requires forall r :: r in ch.added ==> JisCode(r) !in t
    ensures Run(t, UpScript(ch)) == Some(t')
    ensures t'.Keys == (t.Keys + JisSet(ch.added)) - JisSet(ch.deleted)
    ensures forall r :: r in ch.added ==> t'[JisCode(r)] == RowOf(InsertRowFor(r, ch.added))
    ensures forall k :: k in t && k !in JisSet(ch.updated) && k !in JisSet(ch.deleted) ==> t'[k] == t[k]
    ensures forall r :: r in ch.updated && JisCode(r) in t ==>
      t'[JisCode(r)] == t[JisCode(r)].(name := ShownNames(r).0, nameKana := ShownNames(r).1)
  {
    UpStatements(ch);
    t' := UpApply(ch, t);
  }

  /** The up script's statements, applied in order. */
  lemma UpApply(ch: Changes, t: Table) returns (t': Table)
    requires Separate(ch)
    requires forall r :: r in ch.added ==> JisCode(r) !in t
    ensures ApplyAll(t,
      (if ch.added != [] then [Insert(RowsFor(ch.added, ch.added))] else [])
      + NewNames(ch.updated)
      + (if ch.deleted != [] then [Delete(JisCodes(ch.deleted))] else [])) == Some(t')
    ensures t'.Keys == (t.Keys + JisSet(ch.added)) - JisSet(ch.deleted)
    ensures forall r :: r in ch.added ==> t'[JisCode(r)] == RowOf(InsertRowFor(r, ch.added))
    ensures forall k :: k in t && k !in JisSet(ch.updated) && k !in JisSet(ch.deleted) ==> t'[k] == t[k]
    ensures forall r :: r in ch.updated && JisCode(r) in t ==>
      t'[JisCode(r)] == t[JisCode(r)].(name := ShownNames(r).0, nameKana := ShownNames(r).1)
  {
    var optA := if ch.added != [] then [Insert(RowsFor(ch.added, ch.added))] else [];
    var ua := NewNames(ch.updated);
    var optD := if ch.deleted != [] then [Delete(JisCodes(ch.deleted))] else [];
    InsertBatch(t, ch.added, ch.added);
    var t1 := ApplyAll(t, optA).value;
    RenameBatch(t1, ch.updated);
    var t2 := ApplyAll(t1, ua).value;
    DeleteBatch(t2, ch.deleted);
    ApplyAllAppend(t, optA, ua);
    ApplyAllAppend(t, optA + ua, optD);
    t' := t2 - JisSet(ch.deleted);
    forall r | r in ch.updated && JisCode(r) in t
      ensures JisCode(r) !in JisSet(ch.deleted)
    {
      assert JisCode(r) in JisSet(ch.updated);
    }
    forall r | r in ch.added
      ensures JisCode(r) !in JisSet(ch.updated) && JisCode(r) !in JisSet(ch.deleted)
    {
      assert JisCode(r) in JisSet(ch.added);
    }
  }

  /** What the down script does to a table in which no deleted code is present. */
  lemma DownEffect(ch: Changes, older: Snapshot, source: ParentSource, t: Table) returns (t': Table)
    requires Separate(ch)
    requires forall r :: r in ch.deleted ==> JisCode(r) !in t
    ensures Run(t, DownScript(ch, older, source)) == Some(t')
    ensures t'.Keys == (t.Keys - JisSet(ch.added)) + JisSet(ch.deleted)
    ensures forall k :: k in t && k !in JisSet(ch.added) && k !in JisSet(ch.updated) ==> t'[k] == t[k]
    ensures forall r :: r in ch.updated && JisCode(r) in t && older != [] && JisCode(r) in PaddedIndex(older) ==>
      t'[JisCode(r)] == t[JisCode(r)].(
        name := ShownNames(PaddedIndex(older)[JisCode(r)]).0,
        nameKana := ShownNames(PaddedIndex(older)[JisCode(r)]).1)
    ensures forall r :: r in ch.deleted ==> t'[JisCode(r)] == RowOf(InsertRowFor(r, ParentBatch(source, ch, older)))
  {
    DownStatements(ch, older, source);
    t' := DownApply(ch, older, ParentBatch(source, ch, older), t);
  }

  /** The down script's statements, applied in order. */
  lemma DownApply(ch: Changes, older: Snapshot, parents: seq<Record>, t: Table) returns (t': Table)
    requires Separate(ch)
    requires forall r :: r in ch.deleted ==> JisCode(r) !in t
    ensures ApplyAll(t,
      (if ch.added != [] then [Delete(JisCodes(ch.added))] else [])
      + (if ch.updated != [] && older != [] then Restores(ch.updated, PaddedIndex(older)) else [])
      + (if ch.deleted != [] then [Insert(RowsFor(ch.deleted, parents))] else [])) == Some(t')
    ensures t'.Keys == (t.Keys - JisSet(ch.added)) + JisSet(ch.deleted)
    ensures forall k :: k in t && k !in JisSet(ch.added) && k !in JisSet(ch.updated) ==> t'[k] == t[k]
    ensures forall r :: r in ch.updated && JisCode(r) in t && older != [] && JisCode(r) in PaddedIndex(older) ==>
      t'[JisCode(r)] == t[JisCode(r)].(
        name := ShownNames(PaddedIndex(older)[JisCode(r)]).0,
        nameKana := ShownNames(PaddedIndex(older)[JisCode(r)]).1)
    ensures forall r :: r in ch.deleted ==> t'[JisCode(r)] == RowOf(InsertRowFor(r, parents))
  {
    var byCode := PaddedIndex(older);
    var restoring := ch.updated != [] && older != [];
    var delA := if ch.added != [] then [Delete(JisCodes(ch.added))] else [];
    var rs := if restoring then Restores(ch.updated, byCode) else [];
    var insD := if ch.deleted != [] then [Insert(RowsFor(ch.deleted, parents))] else [];
    DeleteBatch(t, ch.added);
    var t4 := t - JisSet(ch.added);
    RestoreBatch(t4, ch.updated, byCode);
    var t5 := ApplyAll(t4, rs).value;
    assert restoring ==> t5 == ApplyAll(t4, Restores(ch.updated, byCode)).value;
    assert !restoring ==> t5 == t4;
    forall r | r in ch.deleted ensures JisCode(r) !in t5 {
      assert JisCode(r) in JisSet(ch.deleted);
    }
    InsertBatch(t5, ch.deleted, parents);
    ApplyAllAppend(t, delA, rs);
    ApplyAllAppend(t, delA + rs, insD);
    t' := ApplyAll(t5, insD).value;
    DownTables(ch, older, parents, t, t4, t5, t');
  }

  /** The bookkeeping of the down script over its intermediate tables. */
  lemma DownTables(ch: Changes, older: Snapshot, parents: seq<Record>, t: Table, t4: Table, t5: Table, t6: Table)
    requires Separate(ch)
    requires forall r :: r in ch.deleted ==> JisCode(r) !in t
    requires t4 == t - JisSet(ch.added)
    requires t5.Keys == t4.Keys
    requires forall k :: k in t4 && k !in JisSet(ch.updated) ==> t5[k] == t4[k]
    requires forall r :: r in ch.updated && JisCode(r) in t4 && older != [] && JisCode(r) in PaddedIndex(older) ==>
      t5[JisCode(r)] == t4[JisCode(r)].(
        name := ShownNames(PaddedIndex(older)[JisCode(r)]).0,
        nameKana := ShownNames(PaddedIndex(older)[JisCode(r)]).1)
    requires t6.Keys == t5.Keys + JisSet(ch.deleted)
    requires forall k :: k in t5 ==> t6[k] == t5[k]
    requires forall r :: r in ch.deleted ==> t6[JisCode(r)] == RowOf(InsertRowFor(r, parents))
    ensures t6.Keys == (t.Keys - JisSet(ch.added)) + JisSet(ch.deleted)
    ensures forall k :: k in t && k !in JisSet(ch.added) && k !in JisSet(ch.updated) ==> t6[k] == t[k]
    ensures forall r :: r in ch.updated && JisCode(r) in t && older != [] && JisCode(r) in PaddedIndex(older) ==>
      t6[JisCode(r)] == t[JisCode(r)].(
        name := ShownNames(PaddedIndex(older)[JisCode(r)]).0,
        nameKana := ShownNames(PaddedIndex(older)[JisCode(r)]).1)
  {
    forall r | r in ch.updated && JisCode(r) in t
      ensures JisCode(r) !in JisSet(ch.added) && JisCode(r) in t4
    {
      assert JisCode(r) in JisSet(ch.updated);
    }
  }

  /**
   * The down script undoes the up script: on a table where the added codes
   * are absent, the deleted codes hold exactly the rows the down script
   * re-inserts (parents looked up where `source` says), and the updated
   * codes hold the old snapshot's names, running up and then down succeeds
   * and gives back the same table.
   */
  lemma DownUndoesUp(ch: Changes, older: Snapshot, source: ParentSource, t: Table)
    requires Separate(ch)
    requires forall r :: r in ch.added ==> JisCode(r) !in t
    requires forall r :: r in ch.deleted ==>
      JisCode(r) in t && t[JisCode(r)] == RowOf(InsertRowFor(r, ParentBatch(source, ch, older)))
    requires forall r :: r in ch.updated && JisCode(r) in t ==>
      JisCode(r) in PaddedIndex(older)
      && (t[JisCode(r)].name, t[JisCode(r)].nameKana) == ShownNames(PaddedIndex(older)[JisCode(r)])
    ensures Run(t, UpScript(ch)).Some?
    ensures Run(Run(t, UpScript(ch)).value, DownScript(ch, older, source)) == Some(t)
  {
    var t3 := UpEffect(ch, t);
    forall r | r in ch.deleted ensures JisCode(r) !in t3 {
      assert JisCode(r) in JisSet(ch.deleted);
    }
    var t6 := DownEffect(ch, older, source, t3);
    UpThenDownRows(ch, older, ParentBatch(source, ch, older), t, t3, t6);
  }

  /** The per-key bookkeeping of the round trip, over the tables after up and after down. */
  lemma UpThenDownRows(ch: Changes, older: Snapshot, parents: seq<Record>, t: Table, t3: Table, t6: Table)
    requires Separate(ch)
    requires forall r :: r in ch.added ==> JisCode(r) !in t
    requires forall r :: r in ch.deleted ==>
      JisCode(r) in t && t[JisCode(r)] == RowOf(InsertRowFor(r, parents))
    requires forall r :: r in ch.updated && JisCode(r) in t ==>
      JisCode(r) in PaddedIndex(older)
      && (t[JisCode(r)].name, t[JisCode(r)].nameKana) == ShownNames(PaddedIndex(older)[JisCode(r)])
    requires t3.Keys == (t.Keys + JisSet(ch.added)) - JisSet(ch.deleted)
    requires forall k :: k in t && k !in JisSet(ch.updated) && k !in JisSet(ch.deleted) ==> t3[k] == t[k]
    requires forall r :: r in ch.updated && JisCode(r) in t ==>
      t3[JisCode(r)] == t[JisCode(r)].(name := ShownNames(r).0, nameKana := ShownNames(r).1)
    requires t6.Keys == (t3.Keys - JisSet(ch.added)) + JisSet(ch.deleted)
    requires forall k :: k in t3 && k !in JisSet(ch.added) && k !in JisSet(ch.updated) ==> t6[k] == t3[k]
    requires forall r :: r in ch.updated && JisCode(r) in t3 && older != [] && JisCode(r) in PaddedIndex(older) ==>
      t6[JisCode(r)] == t3[JisCode(r)].(
        name := ShownNames(PaddedIndex(older)[JisCode(r)]).0,
        nameKana := ShownNames(PaddedIndex(older)[JisCode(r)]).1)
    requires forall r :: r in ch.deleted ==> t6[JisCode(r)] == RowOf(InsertRowFor(r, parents))
    ensures t6 == t
  {
    var A, U, D := JisSet(ch.added), JisSet(ch.updated), JisSet(ch.deleted);
    assert D <= t.Keys;
    assert A !! t.Keys;
    assert t6.Keys == t.Keys;
    forall k | k in t ensures t6[k] == t[k] {
      if k in D {
        var r :| r in ch.deleted && JisCode(r) == k;
      } else if k in U {
        var r :| r in ch.updated && JisCode(r) == k;
        assert older != [];
        assert k in t3 && k !in A;
      } else {
        assert k !in A;
      }
    }
  }

  /** A municipality re-inserted from a batch without its prefecture gets no parent. */
  lemma OrphanedWithoutPrefecture(m: Record, batch: seq<Record>)
    requires IsMunicipality(m)
    requires forall r :: r in batch ==> !IsPrefectureFor(r, Prefix2(JisCode(m)))
    ensures InsertRowFor(m, batch).parent.None?
  {
    assert forall i :: 0 <= i < |batch| ==> !IsPrefectureFor(batch[i], Prefix2(JisCode(m))) by {
      forall i | 0 <= i < |batch| ensures !IsPrefectureFor(batch[i], Prefix2(JisCode(m))) {
        assert batch[i] in batch;
      }
    }
  }

  /**
   * As written, the down script loses the parent of a deleted municipality
   * whose prefecture was not deleted with it: it looks for the prefecture
   * only among the deleted rows, so the row comes back with a NULL parent
   * and the table after up and down differs from the table before.
   */
  lemma AsWrittenLosesParent(ch: Changes, older: Snapshot, t: Table, m: Record)
    requires Separate(ch)
    requires forall r :: r in ch.added ==> JisCode(r) !in t
    requires m in ch.deleted && IsMunicipality(m)
    requires forall r :: r in ch.deleted ==> !IsPrefectureFor(r, Prefix2(JisCode(m)))
    requires JisCode(m) in t && t[JisCode(m)].parent.Some?
    ensures Run(t, UpScript(ch)).Some?
    ensures var t' := Run(Run(t, UpScript(ch)).value, DownScript(ch, older, AmongDeleted));
      t'.Some? && JisCode(m) in t'.value && t'.value[JisCode(m)].parent.None? && t'.value != t
  {
    var t3 := UpEffect(ch, t);
    forall r | r in ch.deleted ensures JisCode(r) !in t3 {
      assert JisCode(r) in JisSet(ch.deleted);
    }
    var t6 := DownEffect(ch, older, AmongDeleted, t3);
    OrphanedWithoutPrefecture(m, ch.deleted);
    assert JisCode(m) in JisSet(ch.deleted);
    assert t6[JisCode(m)] != t[JisCode(m)];
  }

  // From the diff to the round trip

  /** A prefecture row and one of its municipalities, as the code table lists them. */
  const Hokkaido := Record("10006", "北海道", "", "ホッカイドウ", "")
  const Sapporo := Record("11002", "北海道", "札幌市", "ホッカイドウ", "サッポロシ")

  /** Every code is the text `str()` gives for an integer, as pandas reads the code column. */
  predicate AllCanonical(s: Snapshot) {
    forall r :: r in s ==> Canonical(r.code)
  }

  /** Padding distinct canonical codes keeps them distinct. */
  lemma JisCodeInjective(r1: Record, r2: Record)
    requires Canonical(r1.code) && Canonical(r2.code)
    requires JisCode(r1) == JisCode(r2)
    ensures r1.code == r2.code
  {
    ZFillInjective(r1.code, r2.code, 6);
  }

  lemma DistinctJisOfCodes(rs: seq<Record>)
    requires AllCanonical(rs) && DistinctCodes(rs)
    ensures DistinctJis(rs)
  {
    forall i, j | 0 <= i < j < |rs| ensures JisCode(rs[i]) != JisCode(rs[j]) {
      assert rs[i] in rs && rs[j] in rs;
      if JisCode(rs[i]) == JisCode(rs[j]) {
        JisCodeInjective(rs[i], rs[j]);
      }
    }
  }

  lemma DisjointJisOfCodes(a: seq<Record>, b: seq<Record>)
    requires AllCanonical(a) && AllCanonical(b) && Codes(a) !! Codes(b)
    ensures JisSet(a) !! JisSet(b)
  {
    forall r1, r2 | r1 in a && r2 in b ensures JisCode(r1) != JisCode(r2) {
      assert r1.code in Codes(a) && r2.code in Codes(b);
      if JisCode(r1) == JisCode(r2) {
        JisCodeInjective(r1, r2);
      }
    }
  }

  /** With canonical codes, the three lists of a diff never share a padded code. */
  lemma DiffIsSeparate(older: Snapshot, newer: Snapshot, ch: Changes)
    requires IsDiff(older, newer, ch)
    requires AllCanonical(older) && AllCanonical(newer)
    ensures Separate(ch)
  {
    DiffDisjoint(older, newer, ch);
    assert AllCanonical(ch.added) && AllCanonical(ch.updated) && AllCanonical(ch.deleted);
    DistinctJisOfCodes(ch.added);
    DistinctJisOfCodes(ch.updated);
    DistinctJisOfCodes(ch.deleted);
    DisjointJisOfCodes(ch.added, ch.updated);
    DisjointJisOfCodes(ch.added, ch.deleted);
    DisjointJisOfCodes(ch.updated, ch.deleted);
  }

  /**
   * With canonical codes, the down script's lookup keyed by padded code
   * finds the same row as the diff's lookup keyed by raw code.
   */
  /** Appending a row to the old snapshot adds or replaces the entry of its padded code. */
  lemma PaddedIndexSnoc(s: Snapshot)
    requires s != []
    ensures var last := s[|s| - 1];
      PaddedIndex(s) == PaddedIndex(s[..|s| - 1])[JisCode(last) := last.(code := JisCode(last))]
  {
    var init := s[..|s| - 1];
    assert Padded(s)[..|s| - 1] == Padded(init);
  }

  /** An entry of another padded code is untouched by the appended row. */
  lemma PaddedIndexKeep(s: Snapshot, k: string)
    requires s != []
    requires k != JisCode(s[|s| - 1]) && k in PaddedIndex(s[..|s| - 1])
    ensures k in PaddedIndex(s) && PaddedIndex(s)[k] == PaddedIndex(s[..|s| - 1])[k]
  {
    PaddedIndexSnoc(s);
  }

  /** Distinct canonical codes have distinct padded codes. */
  lemma JisCodeDistinct(r1: Record, r2: Record)
    requires Canonical(r1.code) && Canonical(r2.code)
    requires r1.code != r2.code
    ensures JisCode(r1) != JisCode(r2)
  {
    if JisCode(r1) == JisCode(r2) {
      JisCodeInjective(r1, r2);
    }
  }

  lemma {:induction false} PaddedIndexAgrees(s: Snapshot, c: string)
    requires AllCanonical(s)
    requires c in Codes(s)
    ensures ZFill(c, 6) in PaddedIndex(s)
    ensures PaddedIndex(s)[ZFill(c, 6)] == Index(s)[c].(code := ZFill(c, 6))
    decreases |s|
  {
    var init := s[..|s| - 1];
    var last := s[|s| - 1];
    assert s == init + [last];
    var idx := Index(s);
    assert idx == Index(init)[last.code := last];
    if c == last.code {
      PaddedIndexSnoc(s);
    } else {
      assert Codes(s) == Codes(init) + {last.code};
      assert AllCanonical(init) by {
        forall r' | r' in init ensures Canonical(r'.code) {
          assert r' in s;
        }
      }
      PaddedIndexAgrees(init, c);
      JisCodeDistinct(idx[c], last);
      PaddedIndexKeep(s, JisCode(idx[c]));
      assert idx[c] == Index(init)[c];
    }
  }

  /** The down script puts back, for every updated code, the names of the old snapshot's row. */
  lemma DownRestoresOldNames(older: Snapshot, newer: Snapshot, ch: Changes)
    requires IsDiff(older, newer, ch)
    requires AllCanonical(older)
    ensures forall r :: r in ch.updated ==>
      && JisCode(r) in PaddedIndex(older)
      && ShownNames(PaddedIndex(older)[JisCode(r)]) == ShownNames(Index(older)[r.code])
  {
    DiffUpdated(older, newer, ch);
    forall r | r in ch.updated
      ensures JisCode(r) in PaddedIndex(older)
      ensures ShownNames(PaddedIndex(older)[JisCode(r)]) == ShownNames(Index(older)[r.code])
    {
      PaddedIndexAgrees(older, r.code);
    }
  }

  /**
   * The generated migration pair is reversible once the down script looks up
   * parents in the old snapshot: for a diff of canonical snapshots, on a
   * table that lacks the added codes, holds each deleted code's row as the
   * old snapshot describes it (its parent the first prefecture of the old
   * snapshot with the same two-digit prefix), and holds the old snapshot's
   * names for the updated codes, applying up then down restores the table.
   */
  lemma MigrationRoundTrip(older: Snapshot, newer: Snapshot, ch: Changes, t: Table)
    requires IsDiff(older, newer, ch)
    requires AllCanonical(older) && AllCanonical(newer)
    requires forall r :: r in ch.added ==> JisCode(r) !in t
    requires forall r :: r in ch.deleted ==>
      JisCode(r) in t && t[JisCode(r)] == RowOf(InsertRowFor(r, older))
    requires forall r :: r in ch.updated && JisCode(r) in t ==>
      (t[JisCode(r)].name, t[JisCode(r)].nameKana) == ShownNames(Index(older)[r.code])
    ensures Run(t, UpScript(ch)).Some?
    ensures Run(Run(t, UpScript(ch)).value, DownScript(ch, older, AmongOld)) == Some(t)
  {
    DiffIsSeparate(older, newer, ch);
    DownRestoresOldNames(older, newer, ch);
    DownUndoesUp(ch, older, AmongOld, t);
  }

  /** Sapporo is merged away while Hokkaido stays. */
  const MergerOld: Snapshot := [Hokkaido, Sapporo]
  const MergerNew: Snapshot := [Hokkaido]
  const MergerChanges := Changes([], [], [Sapporo])

  /** The table holding the old snapshot, each parent looked up in the whole snapshot. */
  const MergerTable: Table := map[
    JisCode(Hokkaido) := RowOf(InsertRowFor(Hokkaido, MergerOld)),
    JisCode(Sapporo) := RowOf(InsertRowFor(Sapporo, MergerOld))]

  /** The facts about the merger the round-trip lemmas need. */
  lemma MergerFacts()
    ensures IsDiff(MergerOld, MergerNew, MergerChanges)
    ensures AllCanonical(MergerOld) && AllCanonical(MergerNew)
    ensures JisCode(Sapporo) in MergerTable
    ensures MergerTable[JisCode(Sapporo)] == RowOf(InsertRowFor(Sapporo, MergerOld))
    ensures MergerTable[JisCode(Sapporo)].parent == Some(JisCode(Hokkaido))
  {
    assert JisCode(Hokkaido) == "010006" && JisCode(Sapporo) == "011002";
    assert Prefix2(JisCode(Sapporo)) == "01";
    assert FirstPrefectureAt(MergerOld, "01", 0);
    CounterexampleDiff(MergerOld, MergerNew, MergerChanges);
    assert Canonical(Hokkaido.code) && Canonical(Sapporo.code);
  }

  /**
   * On the table holding the old snapshot, Sapporo's parent is Hokkaido; up
   * then down as written re-inserts Sapporo with a NULL parent, while
   * looking the parent up in the old snapshot gives the table back.
   */
  lemma AsWrittenParentCounterexample()
    ensures MergerTable[JisCode(Sapporo)].parent == Some(JisCode(Hokkaido))
    ensures Run(MergerTable, UpScript(MergerChanges)).Some?
    ensures var up := Run(MergerTable, UpScript(MergerChanges)).value;
      var down := Run(up, DownScript(MergerChanges, MergerOld, AmongDeleted));
      && down.Some? && JisCode(Sapporo) in down.value && down.value[JisCode(Sapporo)].parent.None?
      && down.value != MergerTable
      && Run(up, DownScript(MergerChanges, MergerOld, AmongOld)) == Some(MergerTable)
  {
    MergerFacts();
    DiffIsSeparate(MergerOld, MergerNew, MergerChanges);
    AsWrittenLosesParent(MergerChanges, MergerOld, MergerTable, Sapporo);
    MigrationRoundTrip(MergerOld, MergerNew, MergerChanges, MergerTable);
  }

  lemma CounterexampleDiff(older: Snapshot, newer: Snapshot, ch: Changes)
    requires older == [Hokkaido, Sapporo] && newer == [Hokkaido] && ch == Changes([], [], [Sapporo])
    ensures IsDiff(older, newer, ch)
  {
    assert Codes(older) == {"10006", "11002"} by {
      assert older[0] in older && older[1] in older;
    }
    assert Codes(newer) == {"10006"} by {
      assert newer[0] in newer;
    }
    assert Index(older) == map["10006" := Hokkaido, "11002" := Sapporo] by {
      assert older[..1] == [Hokkaido] && [Hokkaido][..0] == [];
    }
    assert Index(newer) == map["10006" := Hokkaido] by {
      assert newer[..0] == [];
    }
    assert ChangedCodes(older, newer) == {};
    assert Lists(ch.deleted, Index(older), Codes(older) - Codes(newer));
  }
}
