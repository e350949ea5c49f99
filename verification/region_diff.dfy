/**
 * `detect_changes`: the keyed difference between an old and a new snapshot,
 * split into added, updated and deleted rows.
 */
module RegionDiff {
  import opened RegionRecords

  /** The three lists `detect_changes` returns, in the order it happened to produce them. */
  datatype Changes = Changes(added: seq<Record>, updated: seq<Record>, deleted: seq<Record>)

  predicate DistinctCodes(s: seq<Record>) {
    forall i, j :: 0 <= i < j < |s| ==> s[i].code != s[j].code
  }

  /** `r` is the row `m` holds under one of `keys`. */
  predicate KeyedIn(m: map<string, Record>, keys: set<string>, r: Record) {
    r.code in keys && r.code in m && m[r.code] == r
  }

  /** `s` lists the rows `m` holds under `keys`, each once, in some order. */
  predicate Lists(s: seq<Record>, m: map<string, Record>, keys: set<string>) {
    && DistinctCodes(s)
    && (forall r :: r in s ==> KeyedIn(m, keys, r))
    && (forall c :: c in keys && c in m ==> m[c] in s)
  }

  /** Codes both snapshots carry whose name columns differ. */
  function ChangedCodes(older: Snapshot, newer: Snapshot): set<string> {
    var o := Index(older);
    var n := Index(newer);
    set c | c in o.Keys && c in n.Keys && Changed(o[c], n[c])
  }

  /** `ch` is a possible result of `detect_changes(older, newer)`. */
  predicate IsDiff(older: Snapshot, newer: Snapshot, ch: Changes) {
    && Lists(ch.added, Index(newer), Codes(newer) - Codes(older))
    && Lists(ch.updated, Index(newer), ChangedCodes(older, newer))
    && Lists(ch.deleted, Index(older), Codes(older) - Codes(newer))
  }

  /** The rows `m` holds under the codes in `keys`, listed in an unspecified order. */
  method CollectRows(m: map<string, Record>, keys: set<string>) returns (s: seq<Record>)
    requires keys <= m.Keys
    requires forall c :: c in m ==> m[c].code == c
    ensures Lists(s, m, keys)
  {
    s := [];
    var rest := keys;
    while rest != {}
      invariant rest <= keys
      invariant Lists(s, m, keys - rest)
      decreases rest
    {
      var c :| c in rest;
      assert forall i :: 0 <= i < |s| ==> s[i] in s;
      s := s + [m[c]];
      rest := rest - {c};
    }
  }

  /** The new rows of the common codes whose name columns changed, in an unspecified order. */
  method CollectUpdated(o: map<string, Record>, n: map<string, Record>) returns (updated: seq<Record>)
    requires forall c :: c in n ==> n[c].code == c
    ensures DistinctCodes(updated)
    ensures forall r :: r in updated ==> r.code in o && r.code in n && r == n[r.code] && Changed(o[r.code], r)
    ensures forall c :: c in o && c in n && Changed(o[c], n[c]) ==> n[c] in updated
  {
    var common := n.Keys * o.Keys;
    updated := [];
    var rest := common;
    while rest != {}
      invariant rest <= common
      invariant DistinctCodes(updated)
      invariant forall r :: r in updated ==>
        r.code in common - rest && r == n[r.code] && Changed(o[r.code], r)
      invariant forall c :: c in common - rest && Changed(o[c], n[c]) ==> n[c] in updated
      decreases rest
    {
      var c :| c in rest;
      if Changed(o[c], n[c]) {
        assert forall i :: 0 <= i < |updated| ==> updated[i] in updated;
        updated := updated + [n[c]];
      }
      rest := rest - {c};
    }
  }

  method DetectChanges(older: Snapshot, newer: Snapshot) returns (ch: Changes)
    ensures IsDiff(older, newer, ch)
  {
    var o := Index(older);
    var n := Index(newer);
    var added := CollectRows(n, n.Keys - o.Keys);
    var deleted := CollectRows(o, o.Keys - n.Keys);
    var updated := CollectUpdated(o, n);
    ch := Changes(added, updated, deleted);
  }

  /** Added codes are new codes minus old codes; deleted codes are old codes minus new codes. */
  lemma DiffCodes(older: Snapshot, newer: Snapshot, ch: Changes)
    requires IsDiff(older, newer, ch)
    ensures Codes(ch.added) == Codes(newer) - Codes(older)
    ensures Codes(ch.deleted) == Codes(older) - Codes(newer)
    ensures forall r :: r in ch.added ==> r == Index(newer)[r.code]
    ensures forall r :: r in ch.deleted ==> r == Index(older)[r.code]
  {
    var o := Index(older);
    var n := Index(newer);
    forall c | c in Codes(newer) - Codes(older) ensures c in Codes(ch.added) {
      assert KeyedIn(n, Codes(newer) - Codes(older), n[c]);
    }
    forall c | c in Codes(older) - Codes(newer) ensures c in Codes(ch.deleted) {
      assert KeyedIn(o, Codes(older) - Codes(newer), o[c]);
    }
  }

  /**
   * A code both snapshots carry is updated exactly when its name columns
   * differ, and the updated entry is the new row.
   */
  lemma DiffUpdated(older: Snapshot, newer: Snapshot, ch: Changes)
    requires IsDiff(older, newer, ch)
    ensures forall r :: r in ch.updated ==>
      r.code in Codes(older) * Codes(newer) && r == Index(newer)[r.code]
    ensures forall c :: c in Codes(older) * Codes(newer) ==>
      (c in Codes(ch.updated) <==> Changed(Index(older)[c], Index(newer)[c]))
  {
    var o := Index(older);
    var n := Index(newer);
    forall c | c in Codes(older) * Codes(newer) && Changed(o[c], n[c])
      ensures c in Codes(ch.updated)
    {
      assert KeyedIn(n, ChangedCodes(older, newer), n[c]);
    }
  }

  /** No code is in two of the three lists, and no list names a code twice. */
  lemma DiffDisjoint(older: Snapshot, newer: Snapshot, ch: Changes)
    requires IsDiff(older, newer, ch)
    ensures Codes(ch.added) !! Codes(ch.updated)
    ensures Codes(ch.added) !! Codes(ch.deleted)
    ensures Codes(ch.updated) !! Codes(ch.deleted)
    ensures DistinctCodes(ch.added) && DistinctCodes(ch.updated) && DistinctCodes(ch.deleted)
  {
    DiffCodes(older, newer, ch);
    DiffUpdated(older, newer, ch);
  }

  predicate NoChanges(ch: Changes) {
    ch.added == [] && ch.updated == [] && ch.deleted == []
  }

  lemma EmptyWhenNoCodes(s: seq<Record>)
    requires Codes(s) == {}
    ensures s == []
  {
    assert |s| > 0 ==> s[0].code in Codes(s);
  }

  /** Diffing a snapshot against itself finds nothing to migrate. */
  lemma SelfDiffIsEmpty(s: Snapshot, ch: Changes)
    requires IsDiff(s, s, ch)
    ensures NoChanges(ch)
  {
    DiffCodes(s, s, ch);
    DiffUpdated(s, s, ch);
    EmptyWhenNoCodes(ch.added);
    EmptyWhenNoCodes(ch.deleted);
    EmptyWhenNoCodes(ch.updated);
  }

  /** With no backup, every row of the new file is treated as added. */
  function FirstRun(newer: Snapshot): (ch: Changes)
    ensures ch.updated == [] && ch.deleted == []
    ensures ch.added == newer
  {
    Changes(newer, [], [])
  }
}
