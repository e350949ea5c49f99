/**
 * The sequence number of a migration, read back from the names of the
 * migration files already present: `<digits>_<number>_<anything>.sql`.
 * The pattern is scanned as Python's `re.match` would (anchored at the
 * start, `\d` restricted to ASCII digits, `.` not matching a newline, `$`
 * matching at the end or before a final newline).
 */
module MigrationNumber {
  import opened Wrappers
  import opened Decimal

  /** Length of the longest run of digits at the start of `s`. */
  function LeadingDigits(s: string): (n: nat)
    ensures n <= |s|
    ensures AllDigits(s[..n])
    ensures n < |s| ==> !IsDigit(s[n])
  {
    if |s| == 0 || !IsDigit(s[0]) then 0
    else
      var n := 1 + LeadingDigits(s[1..]);
      assert s[..n] == [s[0]] + s[1..][..n - 1];
      n
  }

  /** A digit run followed by a non-digit is exactly the leading run. */
  lemma LeadingDigitsAt(s: string, k: nat)
    requires k < |s| && AllDigits(s[..k]) && !IsDigit(s[k])
    ensures LeadingDigits(s) == k
  {
    var n := LeadingDigits(s);
    assert forall i :: 0 <= i < k ==> s[..k][i] == s[i];
    assert forall i :: 0 <= i < n ==> s[..n][i] == s[i];
  }

  predicate NoNewline(s: string) {
    forall i :: 0 <= i < |s| ==> s[i] != '\n'
  }

  /** What `.*\.sql$` accepts: the rest ends in `.sql`, optionally followed by one final newline. */
  predicate TailMatches(r: string) {
    || (|r| >= 4 && r[|r| - 4..] == ".sql" && NoNewline(r))
    || (|r| >= 5 && r[|r| - 5..] == ".sql\n" && NoNewline(r[..|r| - 1]))
  }

  /**
   * The digits between the first and the second underscore, when the name
   * has the shape `<digits>_<digits>_<tail>` with an accepted tail.
   */
  function Group(name: string): (g: Option<string>)
    ensures g.Some? ==> AllDigits(g.value)
  {
    var k := LeadingDigits(name);
    if 0 < k < |name| && name[k] == '_' then GroupAfter(name[k + 1..]) else None
  }

  /** The scan past the first underscore: a digit run, an underscore and an accepted tail. */
  function GroupAfter(rest: string): (g: Option<string>)
    ensures g.Some? ==> AllDigits(g.value)
  {
    var j := LeadingDigits(rest);
    if j < |rest| && rest[j] == '_' && TailMatches(rest[j + 1..]) then Some(rest[..j]) else None
  }

  /**
   * The regular expression's own reading: the name splits after `k`
   * leading digits into an underscore and a rest that starts with the group
   * `g`, an underscore and a tail that `.*\.sql$` accepts.
   */
  predicate SplitsAt(name: string, k: nat, g: string) {
    && 1 <= k < |name|
    && AllDigits(name[..k])
    && name[k] == '_'
    && RestSplits(name[k + 1..], g)
  }

  predicate RestSplits(rest: string, g: string) {
    && |g| < |rest|
    && rest[..|g|] == g
    && rest[|g|] == '_'
    && TailMatches(rest[|g| + 1..])
  }

  lemma GroupSplits(name: string, g: string)
    requires Group(name) == Some(g)
    ensures SplitsAt(name, LeadingDigits(name), g)
  {
  }

  lemma SplitsGroup(name: string, k: nat, g: string)
    requires AllDigits(g) && SplitsAt(name, k, g)
    ensures Group(name) == Some(g)
  {
    LeadingDigitsAt(name, k);
    var rest := name[k + 1..];
    assert rest[..|g|] == g;
    LeadingDigitsAt(rest, |g|);
  }

  /** The deterministic scan finds a digit group exactly when the name splits around it. */
  lemma GroupIffSplits(name: string, g: string)
    requires AllDigits(g)
    ensures Group(name) == Some(g) <==> exists k :: SplitsAt(name, k, g)
  {
    if Group(name) == Some(g) {
      GroupSplits(name, g);
    }
    if exists k :: SplitsAt(name, k, g) {
      var k :| SplitsAt(name, k, g);
      SplitsGroup(name, k, g);
    }
  }

  /**
   * The group the script's pattern captures: `(\d{3})` as written, or
   * `(\d{3,})`, which also accepts the numbers from 1000 on.
   */
  datatype Pattern = AsWritten | Widened

  predicate AcceptsWidth(p: Pattern, width: nat) {
    match p
    case AsWritten => width == 3
    case Widened => width >= 3
  }

  /** The number a file contributes: only `*.sql` names the pattern matches count. */
  function Number(p: Pattern, name: string): (n: Option<nat>)
  {
    var globbed := |name| >= 4 && name[|name| - 4..] == ".sql";
    match Group(name)
    case Some(g) =>
      if globbed && AcceptsWidth(p, |g|) then Some(Value(g)) else None
    case None => None
  }

  lemma NumberOfGroup(p: Pattern, name: string, g: string)
    requires Group(name) == Some(g)
    requires |name| >= 4 && name[|name| - 4..] == ".sql"
    ensures Number(p, name) == if AcceptsWidth(p, |g|) then Some(Value(g)) else None
  {
  }

  /** The largest of the present numbers, or 0 when none is present. */
  function MaxOf(ns: seq<Option<nat>>): (m: nat)
    ensures forall i :: 0 <= i < |ns| && ns[i].Some? ==> ns[i].value <= m
    ensures m == 0 || exists i :: 0 <= i < |ns| && ns[i] == Some(m)
  {
    if |ns| == 0 then 0
    else
      var rest := MaxOf(ns[1..]);
      assert forall i :: 1 <= i < |ns| ==> ns[i] == ns[1..][i - 1];
      assert rest > 0 ==> exists i :: 0 <= i < |ns| && ns[i] == Some(rest) by {
        if rest > 0 {
          var i :| 0 <= i < |ns[1..]| && ns[1..][i] == Some(rest);
          assert ns[i + 1] == ns[1..][i];
        }
      }
      match ns[0] case Some(n) => if n > rest then n else rest case None => rest
  }

  lemma {:induction false} MaxOfAppend(a: seq<Option<nat>>, b: seq<Option<nat>>)
    ensures MaxOf(a + b) == if MaxOf(a) > MaxOf(b) then MaxOf(a) else MaxOf(b)
    decreases |a|
  {
    if |a| == 0 {
      assert a + b == b;
    } else {
      assert (a + b)[1..] == a[1..] + b;
      assert (a + b)[0] == a[0];
      MaxOfAppend(a[1..], b);
    }
  }

  /** The number each listed file contributes, in listing order. */
  function Numbers(p: Pattern, names: seq<string>): (ns: seq<Option<nat>>)
    ensures |ns| == |names|
    ensures forall i :: 0 <= i < |names| ==> ns[i] == Number(p, names[i])
  {
    seq(|names|, i requires 0 <= i < |names| => Number(p, names[i]))
  }

  /** The largest number among the listed files, or 0 when none matches. */
  function MaxNumber(p: Pattern, names: seq<string>): (m: nat)
    ensures forall i :: 0 <= i < |names| && Number(p, names[i]).Some? ==> Number(p, names[i]).value <= m
    ensures m == 0 || exists i :: 0 <= i < |names| && Number(p, names[i]) == Some(m)
  {
    var ns := Numbers(p, names);
    var m := MaxOf(ns);
    assert m > 0 ==> exists i :: 0 <= i < |names| && Number(p, names[i]) == Some(m) by {
      if m > 0 {
        var i :| 0 <= i < |ns| && ns[i] == Some(m);
        assert Number(p, names[i]) == Some(m);
      }
    }
    m
  }

  /** Listing order does not matter: the maximum over two parts is the larger of their maxima. */
  lemma MaxNumberAppend(p: Pattern, a: seq<string>, b: seq<string>)
    ensures MaxNumber(p, a + b) == if MaxNumber(p, a) > MaxNumber(p, b) then MaxNumber(p, a) else MaxNumber(p, b)
  {
    assert Numbers(p, a + b) == Numbers(p, a) + Numbers(p, b);
    MaxOfAppend(Numbers(p, a), Numbers(p, b));
  }

  /** The value a file contributes to the maximum: its number, or 0 when it has none. */
  function OrZero(n: Option<nat>): nat {
    match n case Some(v) => v case None => 0
  }

  /** The maximum over the two files of one migration. */
  lemma MaxNumberPair(p: Pattern, up: string, down: string)
    ensures var u := OrZero(Number(p, up)); var d := OrZero(Number(p, down));
      MaxNumber(p, [up, down]) == if u > d then u else d
  {
    var ns := Numbers(p, [up, down]);
    assert ns == [Number(p, up)] + [Number(p, down)];
    MaxOfAppend([Number(p, up)], [Number(p, down)]);
    assert MaxOf([Number(p, up)]) == OrZero(Number(p, up)) by {
      assert [Number(p, up)][1..] == [];
    }
    assert MaxOf([Number(p, down)]) == OrZero(Number(p, down)) by {
      assert [Number(p, down)][1..] == [];
    }
  }

  /**
   * The next migration number: one more than the largest number found,
   * formatted with at least three digits; "001" when the migrations
   * directory is missing (`None`).
   */
  function Next(p: Pattern, listing: Option<seq<string>>): (s: string)
    ensures AllDigits(s) && |s| >= 3
    ensures listing.None? ==> s == "001"
    ensures listing.Some? ==> Value(s) == MaxNumber(p, listing.value) + 1
    ensures listing.Some? ==>
      |s| == if |FromNat(MaxNumber(p, listing.value) + 1)| >= 3 then |FromNat(MaxNumber(p, listing.value) + 1)| else 3
  {
    match listing
    case None => "001"
    case Some(names) => ZeroPad(MaxNumber(p, names) + 1, 3)
  }

  /** The next number depends on the listing only through its largest number. */
  lemma NextOfSameMax(p: Pattern, a: seq<string>, b: seq<string>)
    requires MaxNumber(p, a) == MaxNumber(p, b)
    ensures Next(p, Some(a)) == Next(p, Some(b))
  {
    var padded := ZeroPad(MaxNumber(p, a) + 1, 3);
    assert Next(p, Some(a)) == padded;
    assert Next(p, Some(b)) == padded;
  }

  /** The issued number exceeds every number the pattern reads from the directory. */
  lemma NextExceedsListed(p: Pattern, names: seq<string>, i: nat)
    requires i < |names| && Number(p, names[i]).Some?
    ensures Number(p, names[i]).value < Value(Next(p, Some(names)))
  {
  }

  /** An empty directory and a missing one give the same first number. */
  lemma EmptyListingStartsAtOne(p: Pattern)
    ensures Next(p, Some([])) == Next(p, None) == "001"
  {
    assert FromNat(1) == "1";
    assert Zeros(2) == "00";
  }

  lemma FirstNumberIsOne(p: Pattern)
    ensures Value(Next(p, None)) == 1
  {
    assert Value("001") == 1 by {
      assert "001"[..2] == "00" && "00"[..1] == "0" && "0"[..0] == [];
    }
  }

  /** The name of the up file the script writes for a timestamp and a number. */
  function UpFileName(timestamp: string, number: string): string {
    timestamp + "_" + number + "_" + UpSuffix
  }

  const UpSuffix := "update_regions_data.up.sql"
  const DownSuffix := "update_regions_data.down.sql"

  /** The name of the matching down file. */
  function DownFileName(timestamp: string, number: string): string {
    timestamp + "_" + number + "_" + DownSuffix
  }

  lemma SuffixTails()
    ensures TailMatches(UpSuffix) && UpSuffix[|UpSuffix| - 4..] == ".sql"
    ensures TailMatches(DownSuffix) && DownSuffix[|DownSuffix| - 4..] == ".sql"
  {
    assert NoNewline(UpSuffix);
    assert NoNewline(DownSuffix);
  }

  /** A name built as `<digits>_<group>_<tail>` splits after the leading digits. */
  lemma BuiltNameSplits(timestamp: string, number: string, suffix: string)
    requires |timestamp| >= 1 && AllDigits(timestamp) && AllDigits(number)
    requires TailMatches(suffix)
    ensures SplitsAt(timestamp + "_" + number + "_" + suffix, |timestamp|, number)
  {
    var name := timestamp + "_" + number + "_" + suffix;
    var k := |timestamp|;
    assert name[..k] == timestamp;
    var rest := name[k + 1..];
    assert rest == number + "_" + suffix;
    assert rest[..|number|] == number;
    assert rest[|number| + 1..] == suffix;
  }

  /** A `*.sql` name that splits around a digit group contributes that group's value, if the pattern accepts its width. */
  lemma NumberOfSplit(p: Pattern, name: string, k: nat, g: string)
    requires AllDigits(g) && SplitsAt(name, k, g)
    requires |name| >= 4 && name[|name| - 4..] == ".sql"
    ensures Number(p, name) == if AcceptsWidth(p, |g|) then Some(Value(g)) else None
  {
    SplitsGroup(name, k, g);
    NumberOfGroup(p, name, g);
  }

  /** A file named `<timestamp>_<number>_<suffix>` is read back with its number, whenever the pattern accepts its width. */
  lemma SuffixFileNumber(p: Pattern, timestamp: string, number: string, suffix: string)
    requires |timestamp| >= 1 && AllDigits(timestamp) && AllDigits(number)
    requires TailMatches(suffix) && |suffix| >= 4 && suffix[|suffix| - 4..] == ".sql"
    ensures Number(p, timestamp + "_" + number + "_" + suffix) ==
      if AcceptsWidth(p, |number|) then Some(Value(number)) else None
  {
    var name := timestamp + "_" + number + "_" + suffix;
    BuiltNameSplits(timestamp, number, suffix);
    assert name[|name| - 4..] == suffix[|suffix| - 4..];
    NumberOfSplit(p, name, |timestamp|, number);
  }

  /** A written file is read back with the number it was given, whenever the pattern accepts its width. */
  lemma WrittenFileNumber(p: Pattern, timestamp: string, number: string, up: bool)
    requires |timestamp| >= 1 && AllDigits(timestamp) && AllDigits(number)
    ensures var name := if up then UpFileName(timestamp, number) else DownFileName(timestamp, number);
      Number(p, name) == if AcceptsWidth(p, |number|) then Some(Value(number)) else None
  {
    SuffixTails();
    if up {
      SuffixFileNumber(p, timestamp, number, UpSuffix);
    } else {
      SuffixFileNumber(p, timestamp, number, DownSuffix);
    }
  }

  /**
   * The widened pattern keeps the numbers increasing: after the up and down
   * files of the issued number are written, the next run issues the
   * following number, also past 999.
   */
  lemma IssuedNumberIncreases(names: seq<string>, timestamp: string)
    requires |timestamp| >= 1 && AllDigits(timestamp)
    ensures var n := Next(Widened, Some(names));
      Value(Next(Widened, Some(names + [UpFileName(timestamp, n), DownFileName(timestamp, n)])))
        == Value(n) + 1
  {
    var n := Next(Widened, Some(names));
    var written := [UpFileName(timestamp, n), DownFileName(timestamp, n)];
    WrittenFileNumber(Widened, timestamp, n, true);
    WrittenFileNumber(Widened, timestamp, n, false);
    MaxNumberAppend(Widened, names, written);
    MaxNumberPair(Widened, UpFileName(timestamp, n), DownFileName(timestamp, n));
  }

  /** A number below 1000 is written with exactly three digits. */
  lemma ShortNumeral(v: nat)
    requires v < 1000
    ensures |ZeroPad(v, 3)| == 3
  {
    FromNatLength(v, 3);
  }

  /**
   * Below 1000 the pattern as written reads back the script's own files:
   * the next run issues the following number, as the widened pattern does.
   */
  lemma AsWrittenIncreasesBelow1000(names: seq<string>, timestamp: string)
    requires |timestamp| >= 1 && AllDigits(timestamp)
    requires Value(Next(AsWritten, Some(names))) < 1000
    ensures var n := Next(AsWritten, Some(names));
      Value(Next(AsWritten, Some(names + [UpFileName(timestamp, n), DownFileName(timestamp, n)])))
        == Value(n) + 1
  {
    var n := Next(AsWritten, Some(names));
    ShortNumeral(MaxNumber(AsWritten, names) + 1);
    assert AcceptsWidth(AsWritten, |n|);
    var written := [UpFileName(timestamp, n), DownFileName(timestamp, n)];
    WrittenFileNumber(AsWritten, timestamp, n, true);
    WrittenFileNumber(AsWritten, timestamp, n, false);
    MaxNumberAppend(AsWritten, names, written);
    MaxNumberPair(AsWritten, UpFileName(timestamp, n), DownFileName(timestamp, n));
  }

  /**
   * With the pattern as written, once 1000 has been issued its files are
   * invisible to the next run, which issues the same number again, and so
   * on forever.
   */
  lemma {:induction false} AsWrittenRepeatsFrom1000(names: seq<string>, timestamp: string)
    requires |timestamp| >= 1 && AllDigits(timestamp)
    requires Value(Next(AsWritten, Some(names))) >= 1000
    ensures var n := Next(AsWritten, Some(names));
      Next(AsWritten, Some(names + [UpFileName(timestamp, n), DownFileName(timestamp, n)])) == n
  {
    var n := Next(AsWritten, Some(names));
    ValueBound(n);
    assert Pow10(3) == 1000;
    assert !AcceptsWidth(AsWritten, |n|);
    var written := [UpFileName(timestamp, n), DownFileName(timestamp, n)];
    WrittenFileNumber(AsWritten, timestamp, n, true);
    WrittenFileNumber(AsWritten, timestamp, n, false);
    MaxNumberAppend(AsWritten, names, written);
    MaxNumberPair(AsWritten, UpFileName(timestamp, n), DownFileName(timestamp, n));
    NextOfSameMax(AsWritten, names, names + written);
  }

  /**
   * A run that shows it: with the files of migration 999 present, 1000 is
   * issued, and with the files of migration 1000 added, 1000 is issued
   * again (for instance with the timestamps "20250101000000" and
   * "20250102000000").
   */
  lemma AsWrittenCounterexample(earlier: string, later: string)
    requires |earlier| >= 1 && AllDigits(earlier) && |later| >= 1 && AllDigits(later)
    ensures var first := [UpFileName(earlier, "999"), DownFileName(earlier, "999")];
      var n := Next(AsWritten, Some(first));
      && Value(n) == 1000
      && Next(AsWritten, Some(first + [UpFileName(later, n), DownFileName(later, n)])) == n
  {
    var first := [UpFileName(earlier, "999"), DownFileName(earlier, "999")];
    assert AllDigits("999");
    assert Value("999") == 999 by {
      assert "999"[..2] == "99" && "99"[..1] == "9" && "9"[..0] == [];
    }
    WrittenFileNumber(AsWritten, earlier, "999", true);
    WrittenFileNumber(AsWritten, earlier, "999", false);
    MaxNumberPair(AsWritten, UpFileName(earlier, "999"), DownFileName(earlier, "999"));
    AsWrittenRepeatsFrom1000(first, later);
  }
}
