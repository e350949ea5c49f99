/**
 * `generate_diff_migration_sql`: compare the current snapshot with the
 * backup, and when anything changed, name and produce the up and down
 * migration files. Reading the CSV files, the clock, writing the files and
 * refreshing the backup are the caller's part: the snapshots, the listing
 * of the migrations directory and the timestamp come in as parameters.
 */
module MigrationPlan {
  import opened Wrappers
  import opened Decimal
  import opened RegionRecords
  import opened RegionDiff
  import opened MigrationSql
  import opened MigrationNumber

  datatype Migration = Migration(upName: string, downName: string, up: string, down: string)

  /** The snapshot the down script restores names from: the backup, or nothing on a first run. */
  function Previous(backup: Option<Snapshot>): (older: Snapshot)
    ensures backup.Some? ==> older == backup.value
    ensures backup.None? ==> older == []
  {
    match backup
    case Some(s) => s
    case None => []
  }

  /** Both issued files carry the issued number, which is 1 for a missing directory and beyond every listed number otherwise. */
  lemma IssuedFileNumbers(listing: Option<seq<string>>, timestamp: string)
    requires |timestamp| >= 1 && AllDigits(timestamp)
    ensures var n := Next(Widened, listing);
      && Number(Widened, UpFileName(timestamp, n)) == Some(Value(n))
      && Number(Widened, DownFileName(timestamp, n)) == Some(Value(n))
      && (listing.None? ==> Value(n) == 1)
      && (listing.Some? ==> Value(n) == MaxNumber(Widened, listing.value) + 1)
      && (listing.Some? ==> forall i :: 0 <= i < |listing.value| && Number(Widened, listing.value[i]).Some? ==>
            Number(Widened, listing.value[i]).value < Value(n))
  {
    var n := Next(Widened, listing);
    WrittenFileNumber(Widened, timestamp, n, true);
    WrittenFileNumber(Widened, timestamp, n, false);
    FirstNumberIsOne(Widened);
  }

  /**
   * `timestamp` is the UTC time as `%Y%m%d%H%M%S`; `listing` is the
   * migrations directory, `None` when it does not exist. The number is
   * read with the widened pattern (see the findings in the README).
   */
  method PlanMigration(newer: Snapshot, backup: Option<Snapshot>, listing: Option<seq<string>>, timestamp: string)
    returns (ch: Changes, m: Option<Migration>)
    requires |timestamp| == 14 && AllDigits(timestamp)
    ensures backup.None? ==> ch == FirstRun(newer)
    ensures backup.Some? ==> IsDiff(backup.value, newer, ch)
    ensures m.None? <==> NoChanges(ch)
    ensures m.Some? ==>
      && m.value.up == Render(UpScript(ch))
      && m.value.down == Render(DownScript(ch, Previous(backup), AmongOld))
    ensures m.Some? ==>
      && m.value.upName == UpFileName(timestamp, Next(Widened, listing))
      && m.value.downName == DownFileName(timestamp, Next(Widened, listing))
    ensures m.Some? && listing.Some? ==>
      && Number(Widened, m.value.upName) == Some(MaxNumber(Widened, listing.value) + 1)
      && Number(Widened, m.value.upName) == Number(Widened, m.value.downName)
      && forall i :: 0 <= i < |listing.value| && Number(Widened, listing.value[i]).Some? ==>
           Number(Widened, listing.value[i]).value < Number(Widened, m.value.upName).value
    ensures m.Some? && listing.None? ==> Number(Widened, m.value.upName) == Some(1)
  {
    match backup {
      case Some(older) =>
        ch := DetectChanges(older, newer);
      case None =>
        ch := FirstRun(newer);
    }
    if NoChanges(ch) {
      m := None;
      return;
    }
    var n := Next(Widened, listing);
    var upName, downName := UpFileName(timestamp, n), DownFileName(timestamp, n);
    IssuedFileNumbers(listing, timestamp);
    assert Number(Widened, upName) == Number(Widened, downName) == Some(Value(n));
    m := Some(Migration(upName, downName, Render(UpScript(ch)), Render(DownScript(ch, Previous(backup), AmongOld))));
  }
}
