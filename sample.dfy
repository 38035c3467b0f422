/** The sample run in the command's own documentation: five events of three users, a
    window of 5 seconds, a Levenshtein threshold of 2 and a Damerau-Levenshtein threshold
    of 1. Only user2's two searches are reported. */
module DocstringSample {
  import opened Records
  import opened Partitioning
  import opened EditDistance
  import opened TimeOrder
  import opened WindowScan
  import opened Typo

  const u1a: Record := map["user" := "user1", "time" := "0", "search" := "blah121", "app" := "app1"]
  const u2a: Record := map["user" := "user2", "time" := "2", "search" := "blah22", "app" := "app24"]
  const u1b: Record := map["user" := "user1", "time" := "3", "search" := "blaxxxh11", "app" := "app1"]
  const u2b: Record := map["user" := "user2", "time" := "4", "search" := "blah32", "app" := "app2"]
  const u3: Record := map["user" := "user3", "time" := "20", "search" := "blah3", "app" := "appx"]

  /** `compfield=search partitionby=user windowtime=5 levdist=2 damdist=1 timefield=time`. */
  const sampleConfig := Config("search", "time", "user", 5, 2, 1)

  /** The events in the order the search pipeline delivers them. */
  const sampleEvents := [u1a, u2a, u1b, u2b, u3]

  /** user1's searches are too far apart for either threshold: three inserted `x`s put them
      at least 3 edits apart, and their lengths at least 2. */
  lemma User1Distances()
    ensures Lev("blah121", "blaxxxh11") >= 3
    ensures Dam("blah121", "blaxxxh11") >= 2
  {
    var a, b := "blah121", "blaxxxh11";
    LevOccurrencesBound(a, b, 'x');
    assert Occurrences(a, 1, 'x') == 0 && Occurrences(a, 2, 'x') == 0 && Occurrences(a, 3, 'x') == 0;
    assert Occurrences(a, 4, 'x') == 0 && Occurrences(a, 5, 'x') == 0 && Occurrences(a, 6, 'x') == 0;
    assert Occurrences(a, 7, 'x') == 0;
    assert Occurrences(b, 1, 'x') == 0 && Occurrences(b, 2, 'x') == 0 && Occurrences(b, 3, 'x') == 0;
    assert Occurrences(b, 4, 'x') == 1 && Occurrences(b, 5, 'x') == 2 && Occurrences(b, 6, 'x') == 3;
    assert Occurrences(b, 7, 'x') == 3 && Occurrences(b, 8, 'x') == 3 && Occurrences(b, 9, 'x') == 3;
    DamLengthBound(a, b);
  }

  /** user2's searches differ in the fifth character only. */
  lemma User2Mismatches()
    ensures Mismatches("blah22", "blah32", 6) == 1
  {
    var a, b := "blah22", "blah32";
    assert Mismatches(a, b, 1) == 0 && Mismatches(a, b, 2) == 0 && Mismatches(a, b, 3) == 0;
    assert Mismatches(a, b, 4) == 0 && Mismatches(a, b, 5) == 1;
  }

  /** Equal strings have no mismatching position. */
  lemma {:induction false} MismatchesOfEqual(a: string, n: nat)
    requires n <= |a|
    ensures Mismatches(a, a, n) == 0
  {
    if n > 0 {
      MismatchesOfEqual(a, n - 1);
    }
  }

  /** Equal-length strings that differ in exactly one position are one edit apart in
      both metrics. */
  lemma OneSubstitutionApart(a: string, b: string)
    requires |a| == |b| && Mismatches(a, b, |a|) == 1
    ensures Lev(a, b) == 1 && Dam(a, b) == 1
  {
    LevAtMostMismatches(a, b);
    if a == b {
      MismatchesOfEqual(a, |a|);
    }
    LevZeroIff(a, b);
    DamZeroIff(a, b);
    DamAtMostLev(a, b);
  }

  /** user2's searches are one substitution apart in both metrics. */
  lemma User2Distances()
    ensures Lev("blah22", "blah32") == 1
    ensures Dam("blah22", "blah32") == 1
  {
    User2Mismatches();
    OneSubstitutionApart("blah22", "blah32");
  }

  /** The time fields of the sample parse to the numbers they spell. */
  lemma SampleTimes()
    ensures TimeOf(u1a, "time") == Ok(0) && TimeOf(u2a, "time") == Ok(2)
    ensures TimeOf(u1b, "time") == Ok(3) && TimeOf(u2b, "time") == Ok(4)
    ensures TimeOf(u3, "time") == Ok(20)
  {
    ParseDecimal(0);
    ParseDecimal(2);
    ParseDecimal(3);
    ParseDecimal(4);
    ParseDecimal(20);
    assert Decimal(0) == "0" && Decimal(2) == "2" && Decimal(3) == "3" && Decimal(4) == "4";
    assert Decimal(20) == "20";
  }

  /** The sort keys of one record with an integer time. */
  lemma StampOne(x: Record, tx: int, tf: string)
    requires TimeOf(x, tf) == Ok(tx)
    ensures Stamp([x], tf) == Ok([Stamped(tx, x)])
  {
    StampSound([x], tf);
    assert AllTimed([x], tf);
    var v := Stamp([x], tf).value;
    assert v[0].record == x && v[0].time == tx;
    assert v == [Stamped(tx, x)];
  }

  /** The sort keys of two records with integer times. */
  lemma StampTwo(x: Record, y: Record, tx: int, ty: int, tf: string)
    requires TimeOf(x, tf) == Ok(tx) && TimeOf(y, tf) == Ok(ty)
    ensures Stamp([x, y], tf) == Ok([Stamped(tx, x), Stamped(ty, y)])
  {
    StampSound([x, y], tf);
    assert AllTimed([x, y], tf);
    var v := Stamp([x, y], tf).value;
    assert v[0].record == x && v[0].time == tx;
    assert v[1].record == y && v[1].time == ty;
    assert v == [Stamped(tx, x), Stamped(ty, y)];
  }

  /** A partition of one record with an integer time contributes nothing. */
  lemma OneRecordPartition(x: Record, tx: int, cfg: Config)
    requires TimeOf(x, cfg.timeField) == Ok(tx)
    ensures PartitionResult([x], cfg) == Ok([])
  {
    StampOne(x, tx, cfg.timeField);
    var s := [Stamped(tx, x)];
    assert SortByTime(s) == s by {
      assert s[..0] == [];
    }
    assert SortPartition([x], cfg.timeField) == Ok(s);
    assert FirstIndex(s, 0) == 0;
    var none: seq<Record> := [];
    assert AsWrittenStep(s, 0, cfg) == Ok(none);
    assert none + none == none;
    assert ScanAsWritten(s, 1, cfg) == Join(ScanAsWritten(s, 0, cfg), AsWrittenStep(s, 0, cfg));
  }

  /** Two records in time order are already sorted. */
  lemma SortTwo(sx: Stamped, sy: Stamped)
    requires sx.time <= sy.time
    ensures SortByTime([sx, sy]) == [sx, sy]
  {
    assert [sx, sy][..1] == [sx] && [sx][..0] == [];
    assert SortByTime([sx]) == [sx];
    assert InsertPosition([sx], sy.time) == 1;
  }

  /** The loop as written over two different records compares the first with the second. */
  lemma ScanTwo(sx: Stamped, sy: Stamped, cfg: Config)
    requires sx.record != sy.record
    ensures ScanAsWritten([sx, sy], 2, cfg) == Compare(sx, sy, cfg)
  {
    var s := [sx, sy];
    assert FirstIndex(s, 0) == 0;
    assert FirstIndex(s[1..], 0) == 0;
    assert FirstIndex(s, 1) == 1;
    var none: seq<Record> := [];
    var step := AsWrittenStep(s, 0, cfg);
    assert ScanAsWritten(s, 1, cfg) == Join(Ok(none), step);
    assert AsWrittenStep(s, 1, cfg) == Ok(none);
    if step.Ok? {
      assert none + step.value == step.value && step.value + none == step.value;
    }
  }

  /** A partition of two different records, the second not earlier, contributes the
      comparison of the two. */
  lemma TwoRecordPartition(x: Record, y: Record, tx: int, ty: int, cfg: Config)
    requires TimeOf(x, cfg.timeField) == Ok(tx) && TimeOf(y, cfg.timeField) == Ok(ty)
    requires x != y && tx <= ty
    ensures PartitionResult([x, y], cfg) == Compare(Stamped(tx, x), Stamped(ty, y), cfg)
  {
    StampTwo(x, y, tx, ty, cfg.timeField);
    SortTwo(Stamped(tx, x), Stamped(ty, y));
    ScanTwo(Stamped(tx, x), Stamped(ty, y), cfg);
  }

  /** The partition values of the sample events. */
  lemma SampleUsers()
    ensures u1a["user"] == "user1" && u2a["user"] == "user2" && u1b["user"] == "user1"
    ensures u2b["user"] == "user2" && u3["user"] == "user3"
  {
  }

  /** The prefixes of the sample events, each one record shorter than the next. */
  lemma SamplePrefixes()
    ensures sampleEvents[..4] == [u1a, u2a, u1b, u2b]
    ensures [u1a, u2a, u1b, u2b][..3] == [u1a, u2a, u1b]
    ensures [u1a, u2a, u1b][..2] == [u1a, u2a]
    ensures [u1a, u2a][..1] == [u1a] && [u1a][..0] == []
  {
  }

  /** The users in the order they first appear. */
  lemma SampleKeys()
    ensures Keys(sampleEvents, "user") == ["user1", "user2", "user3"]
  {
    SampleUsers();
    SamplePrefixes();
    assert Keys([u1a], "user") == ["user1"];
    assert Keys([u1a, u2a], "user") == ["user1", "user2"];
    assert Keys([u1a, u2a, u1b], "user") == ["user1", "user2"];
    assert Keys([u1a, u2a, u1b, u2b], "user") == ["user1", "user2"];
  }

  /** user1's events. */
  lemma SampleBucket1()
    ensures Bucket(sampleEvents, "user", "user1") == [u1a, u1b]
  {
    SampleUsers();
    SamplePrefixes();
    assert Bucket([u1a], "user", "user1") == [u1a];
    assert Bucket([u1a, u2a], "user", "user1") == [u1a];
    assert Bucket([u1a, u2a, u1b], "user", "user1") == [u1a, u1b];
    assert Bucket([u1a, u2a, u1b, u2b], "user", "user1") == [u1a, u1b];
  }

  /** user2's events. */
  lemma SampleBucket2()
    ensures Bucket(sampleEvents, "user", "user2") == [u2a, u2b]
  {
    SampleUsers();
    SamplePrefixes();
    assert Bucket([u1a], "user", "user2") == [];
    assert Bucket([u1a, u2a], "user", "user2") == [u2a];
    assert Bucket([u1a, u2a, u1b], "user", "user2") == [u2a];
    assert Bucket([u1a, u2a, u1b, u2b], "user", "user2") == [u2a, u2b];
  }

  /** user3's single event. */
  lemma SampleBucket3()
    ensures Bucket(sampleEvents, "user", "user3") == [u3]
  {
    SampleUsers();
    SamplePrefixes();
    assert Bucket([u1a], "user", "user3") == [];
    assert Bucket([u1a, u2a], "user", "user3") == [];
    assert Bucket([u1a, u2a, u1b], "user", "user3") == [];
    assert Bucket([u1a, u2a, u1b, u2b], "user", "user3") == [];
  }

  /** user1's two searches are within the window but qualify in neither metric. */
  lemma User1Part()
    ensures PartitionResult([u1a, u1b], sampleConfig) == Ok([])
  {
    SampleTimes();
    User1Distances();
    CutoffMatchesExactly("blah121", "blaxxxh11", 2);
    assert u1a["search"] == "blah121" && u1b["search"] == "blaxxxh11";
    assert Qualifies(u1a, u1b, sampleConfig) == Ok(false);
    TwoRecordPartition(u1a, u1b, 0, 3, sampleConfig);
  }

  /** user2's two searches are one substitution apart, which the Damerau threshold of 1
      reports. */
  lemma User2Part()
    ensures PartitionResult([u2a, u2b], sampleConfig) == Ok([u2a, u2b])
  {
    SampleTimes();
    User2Distances();
    CutoffMatchesExactly("blah22", "blah32", 2);
    assert u2a["search"] == "blah22" && u2b["search"] == "blah32";
    assert Qualifies(u2a, u2b, sampleConfig) == Ok(true);
    TwoRecordPartition(u2a, u2b, 2, 4, sampleConfig);
  }

  /** user3's lone search has no neighbour to be compared with. */
  lemma User3Part()
    ensures PartitionResult([u3], sampleConfig) == Ok([])
  {
    SampleTimes();
    OneRecordPartition(u3, 20, sampleConfig);
  }

  /** Three contributions of which only the middle one yields records. */
  lemma JoinMiddle(parts: seq<Result<seq<Record>>>, v: seq<Record>)
    requires parts == [Ok([]), Ok(v), Ok([])]
    ensures JoinAll(parts) == Ok(v)
  {
    var none: seq<Record> := [];
    var one, two := parts[..1], parts[..2];
    assert one[..0] == [] && two[..1] == one && parts[..2] == two;
    assert none + none == none && none + v == v;
    assert JoinAll(one) == Join(Ok(none), Ok(none)) == Ok(none);
    assert JoinAll(two) == Join(Ok(none), Ok(v)) == Ok(v);
    assert JoinAll(parts) == Join(Ok(v), Ok(none));
    assert v + none == v;
  }

  /** Three partitions, in the order their keys first appear, of which only the middle
      one yields records. */
  lemma ThreePartitions(rs: seq<Record>, cfg: Config, k1: string, k2: string, k3: string,
                        v: seq<Record>)
    requires AllKeyed(rs, cfg.partitionBy) && Keys(rs, cfg.partitionBy) == [k1, k2, k3]
    requires PartitionResult(Bucket(rs, cfg.partitionBy, k1), cfg) == Ok([])
    requires PartitionResult(Bucket(rs, cfg.partitionBy, k2), cfg) == Ok(v)
    requires PartitionResult(Bucket(rs, cfg.partitionBy, k3), cfg) == Ok([])
    ensures TypoOutput(rs, cfg) == Ok(v)
  {
    var parts := Contributions(rs, cfg, [k1, k2, k3]);
    assert parts == [Ok([]), Ok(v), Ok([])];
    JoinMiddle(parts, v);
  }

  /** Every sample event names its user. */
  lemma SampleKeyed()
    ensures AllKeyed(sampleEvents, "user")
  {
    SampleUsers();
  }

  /** What each user's partition of the sample contributes. */
  lemma SampleContributions()
    ensures PartitionResult(Bucket(sampleEvents, "user", "user1"), sampleConfig) == Ok([])
    ensures PartitionResult(Bucket(sampleEvents, "user", "user2"), sampleConfig) == Ok([u2a, u2b])
    ensures PartitionResult(Bucket(sampleEvents, "user", "user3"), sampleConfig) == Ok([])
  {
    SampleBucket1();
    User1Part();
    SampleBucket2();
    User2Part();
    SampleBucket3();
    User3Part();
  }

  /** The sample run reports exactly user2's two searches: user1's pair is within the
      window but too far apart in both metrics, and user3 has no neighbour. */
  lemma SampleOutput()
    ensures TypoOutput(sampleEvents, sampleConfig) == Ok([u2a, u2b])
  {
    SampleKeyed();
    SampleKeys();
    SampleContributions();
    ThreePartitions(sampleEvents, sampleConfig, "user1", "user2", "user3", [u2a, u2b]);
  }
}
