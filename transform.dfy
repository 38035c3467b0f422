/** The typo-pair transform: the records are grouped by the partition field, each group
    is sorted by time and scanned for neighbouring pairs whose compared values are at
    exactly the configured edit distance, and the pairs are collected group by group. */
module Typo {
  import opened Records
  import opened Partitioning
  import opened TimeOrder
  import opened WindowScan

  // ---------------------------------------------------------------------------
  // What the transform computes
  // ---------------------------------------------------------------------------

  /** What one partition contributes: its records sorted by time, then scanned. */
  function PartitionResult(bucket: seq<Record>, cfg: Config): Result<seq<Record>> {
    var sorted := SortPartition(bucket, cfg.timeField);
    if sorted.Err? then Err(sorted.error) else ScanAsWritten(sorted.value, |sorted.value|, cfg)
  }

  /** The records of partition `k`, sorted by time, in the order the scan sees them. */
  function SortedBucket(rs: seq<Record>, cfg: Config, k: string): Result<seq<Stamped>> {
    SortPartition(Bucket(rs, cfg.partitionBy, k), cfg.timeField)
  }

  /** What the partitions `ks` contribute, in that order. */
  function Contributions(rs: seq<Record>, cfg: Config, ks: seq<string>): seq<Result<seq<Record>>> {
    seq(|ks|, i requires 0 <= i < |ks| => PartitionResult(Bucket(rs, cfg.partitionBy, ks[i]), cfg))
  }

  /** The outputs `parts` one after the other; the first error wins. */
  function JoinAll(parts: seq<Result<seq<Record>>>): Result<seq<Record>> {
    if |parts| == 0 then Ok([]) else Join(JoinAll(parts[..|parts| - 1]), parts[|parts| - 1])
  }

  /** The records the transform yields for `rs`, or the error that stops it: first the
      grouping, then the partitions in the order their keys were first seen. */
  function TypoOutput(rs: seq<Record>, cfg: Config): Result<seq<Record>> {
    if !AllKeyed(rs, cfg.partitionBy) then Err(MissingField(cfg.partitionBy))
    else JoinAll(Contributions(rs, cfg, Keys(rs, cfg.partitionBy)))
  }

  /** Once a contribution has failed, the later ones leave the error as it is. */
  lemma {:induction false} JoinAllErrorStays(parts: seq<Result<seq<Record>>>, p: nat, q: nat)
    requires p <= q <= |parts| && JoinAll(parts[..p]).Err?
    ensures JoinAll(parts[..q]) == JoinAll(parts[..p])
  {
    if q > p {
      JoinAllErrorStays(parts, p, q - 1);
      assert parts[..q][..q - 1] == parts[..q - 1];
    }
  }

  // ---------------------------------------------------------------------------
  // The transform
  // ---------------------------------------------------------------------------

  /** Sorting and scanning one partition. */
  method ScanBucket(bucket: seq<Record>, cfg: Config) returns (res: Result<seq<Record>>)
    ensures res == PartitionResult(bucket, cfg)
  {
    var sortedRecords := SortPartition(bucket, cfg.timeField);
    if sortedRecords.Err? {
      return Err(sortedRecords.error);
    }
    res := ScanPartition(sortedRecords.value, cfg);
  }

  /** The transform: group the records by partition value, then sort and scan each
      partition in the order its key was first seen, appending what each one emits.
      The generator that hands the collected records back one by one is the sequence
      returned. */
  method Transform(records: seq<Record>, cfg: Config) returns (res: Result<seq<Record>>)
    ensures res == TypoOutput(records, cfg)
  {
    var recordsByUser := Partition(records, cfg.partitionBy);
    if recordsByUser.Err? {
      return Err(recordsByUser.error);
    }
    var keys := recordsByUser.value.keys;
    ghost var parts := Contributions(records, cfg, keys);
    var recordsToYield: seq<Record> := [];
    for p := 0 to |keys|
      invariant JoinAll(parts[..p]) == Ok(recordsToYield)
    {
      var partition := keys[p];
      var found := ScanBucket(recordsByUser.value.buckets[partition], cfg);
      JoinAllStep(parts, p, found);
      if found.Err? {
        JoinAllErrorStays(parts, p + 1, |parts|);
        assert parts[..|parts|] == parts;
        return found;
      }
      recordsToYield := recordsToYield + found.value;
    }
    assert parts[..|parts|] == parts;
    return Ok(recordsToYield);
  }

  /** Adding contribution `p` to the output of the ones before it. */
  lemma JoinAllStep(parts: seq<Result<seq<Record>>>, p: nat, found: Result<seq<Record>>)
    requires p < |parts| && parts[p] == found
    ensures JoinAll(parts[..p + 1]) == Join(JoinAll(parts[..p]), found)
  {
    assert parts[..p + 1][..p] == parts[..p];
  }

  // ---------------------------------------------------------------------------
  // Every emitted pair is a qualifying pair of neighbours of one partition
  // ---------------------------------------------------------------------------

  lemma PairAtPrefix(a: seq<Record>, b: seq<Record>, m: nat, s: seq<Stamped>, cfg: Config)
    requires 2 * m + 1 < |a| && PairAt(a, m, s, cfg)
    ensures PairAt(a + b, m, s, cfg)
  {
    var i :| 0 <= i < |s| && Emits(s, i, cfg) && a[2 * m] == s[i].record && a[2 * m + 1] == s[i + 1].record;
    assert (a + b)[2 * m] == a[2 * m] && (a + b)[2 * m + 1] == a[2 * m + 1];
  }

  lemma PairAtShift(a: seq<Record>, b: seq<Record>, m: nat, s: seq<Stamped>, cfg: Config)
    requires |a| % 2 == 0 && 2 * m + 1 < |b| && PairAt(b, m, s, cfg)
    ensures 2 * (|a| / 2 + m) + 1 < |a + b| && PairAt(a + b, |a| / 2 + m, s, cfg)
  {
    var i :| 0 <= i < |s| && Emits(s, i, cfg) && b[2 * m] == s[i].record && b[2 * m + 1] == s[i + 1].record;
    var n := |a| / 2 + m;
    assert 2 * n == |a| + 2 * m;
    assert (a + b)[2 * n] == b[2 * m] && (a + b)[2 * n + 1] == b[2 * m + 1];
  }

  /** Positions `2m` and `2m + 1` of `out` hold a qualifying pair of neighbours, within
      the window, of one of the sorted partitions `ss`. */
  predicate PairFromOneOf(out: seq<Record>, m: nat, ss: seq<seq<Stamped>>, cfg: Config)
    requires 2 * m + 1 < |out|
  {
    exists p :: 0 <= p < |ss| && PairAt(out, m, ss[p], cfg)
  }

  /** `out` consists of pairs, each a qualifying pair of neighbours of one of `ss`. */
  predicate PairsFromOneOf(out: seq<Record>, ss: seq<seq<Stamped>>, cfg: Config) {
    && |out| % 2 == 0
    && forall m: nat :: m < |out| && 2 * m + 1 < |out| ==> PairFromOneOf(out, m, ss, cfg)
  }

  lemma PairsFromOneOfAppend(a: seq<Record>, b: seq<Record>, ss: seq<seq<Stamped>>, cfg: Config)
    requires PairsFromOneOf(a, ss, cfg) && PairsFromOneOf(b, ss, cfg)
    ensures PairsFromOneOf(a + b, ss, cfg)
  {
    var r := a + b;
    forall m: nat | m < |r| && 2 * m + 1 < |r|
      ensures PairFromOneOf(r, m, ss, cfg)
    {
      if 2 * m < |a| {
        assert PairFromOneOf(a, m, ss, cfg);
        var p :| 0 <= p < |ss| && PairAt(a, m, ss[p], cfg);
        PairAtPrefix(a, b, m, ss[p], cfg);
      } else {
        var m': nat := m - |a| / 2;
        assert 2 * m == |a| + 2 * m' && 2 * m' + 1 < |b|;
        assert PairFromOneOf(b, m', ss, cfg);
        var p :| 0 <= p < |ss| && PairAt(b, m', ss[p], cfg);
        PairAtShift(a, b, m', ss[p], cfg);
      }
    }
  }

  lemma {:induction false} JoinAllPairs(parts: seq<Result<seq<Record>>>, out: seq<Record>, ss: seq<seq<Stamped>>, cfg: Config)
    requires JoinAll(parts) == Ok(out)
    requires forall i :: 0 <= i < |parts| && parts[i].Ok? ==> PairsFromOneOf(parts[i].value, ss, cfg)
    ensures PairsFromOneOf(out, ss, cfg)
  {
    if |parts| > 0 {
      var init := parts[..|parts| - 1];
      var prev := JoinAll(init);
      assert prev.Ok? && parts[|parts| - 1].Ok?;
      JoinAllPairs(init, prev.value, ss, cfg);
      PairsFromOneOfAppend(prev.value, parts[|parts| - 1].value, ss, cfg);
    }
  }

  /** In a partition sorted by time, the time of each record is the one its own time
      field gives, so equal records carry equal times. */
  lemma SortedBucketTimes(rs: seq<Record>, cfg: Config, k: string)
    requires SortedBucket(rs, cfg, k).Ok?
    ensures TimesFollowRecords(SortedBucket(rs, cfg, k).value)
  {
    SortPartitionSound(Bucket(rs, cfg.partitionBy, k), cfg.timeField);
    var s := SortedBucket(rs, cfg, k).value;
    forall i, j | 0 <= i < |s| && 0 <= j < |s| && s[i].record == s[j].record
      ensures s[i].time == s[j].time
    {
      assert s[i] in s && s[j] in s;
    }
  }

  /** The sorted partitions of the keys `ks`, a failed one as empty. */
  ghost function SortedAll(rs: seq<Record>, cfg: Config, ks: seq<string>): seq<seq<Stamped>> {
    seq(|ks|, i requires 0 <= i < |ks| => var r := SortedBucket(rs, cfg, ks[i]); if r.Ok? then r.value else [])
  }

  /** What one partition emits consists of qualifying pairs of its own neighbours. */
  lemma PartitionPairs(rs: seq<Record>, cfg: Config, ks: seq<string>, i: nat, v: seq<Record>)
    requires i < |ks| && PartitionResult(Bucket(rs, cfg.partitionBy, ks[i]), cfg) == Ok(v)
    ensures PairsFromOneOf(v, SortedAll(rs, cfg, ks), cfg)
  {
    var ss := SortedAll(rs, cfg, ks);
    var s := SortedBucket(rs, cfg, ks[i]).value;
    assert ss[i] == s;
    SortedBucketTimes(rs, cfg, ks[i]);
    AsWrittenEmitsOnlyPairs(s, |s|, cfg, v);
    forall m: nat | m < |v| && 2 * m + 1 < |v|
      ensures PairFromOneOf(v, m, ss, cfg)
    {
      assert PairAt(v, m, ss[i], cfg);
    }
  }

  /** Positions `2m` and `2m + 1` of `out` hold a qualifying pair of neighbours, within
      the window, of one of the partitions of `rs` sorted by time. */
  predicate PairFromPartition(out: seq<Record>, m: nat, rs: seq<Record>, cfg: Config)
    requires 2 * m + 1 < |out|
  {
    exists k :: k in Keys(rs, cfg.partitionBy) && SortedBucket(rs, cfg, k).Ok? && PairAt(out, m, SortedBucket(rs, cfg, k).value, cfg)
  }

  /** Soundness of the transform: the output consists of pairs, and each pair is two
      neighbours of one partition sorted by time, within the window, whose compared
      values are at exactly a configured distance. */
  lemma TransformEmitsOnlyNeighbours(rs: seq<Record>, cfg: Config, out: seq<Record>)
    requires TypoOutput(rs, cfg) == Ok(out)
    ensures |out| % 2 == 0
    ensures forall m: nat :: m < |out| && 2 * m + 1 < |out| ==> PairFromPartition(out, m, rs, cfg)
  {
    var ks := Keys(rs, cfg.partitionBy);
    var parts := Contributions(rs, cfg, ks);
    var ss := SortedAll(rs, cfg, ks);
    forall i | 0 <= i < |parts| && parts[i].Ok?
      ensures PairsFromOneOf(parts[i].value, ss, cfg)
    {
      PartitionPairs(rs, cfg, ks, i, parts[i].value);
    }
    JoinAllPairs(parts, out, ss, cfg);
    forall m: nat | m < |out| && 2 * m + 1 < |out|
      ensures PairFromPartition(out, m, rs, cfg)
    {
      assert PairFromOneOf(out, m, ss, cfg);
      var p :| 0 <= p < |ss| && PairAt(out, m, ss[p], cfg);
      assert ks[p] in ks;
    }
  }

  /** Each emitted pair, seen from the input: two records with the same partition value,
      in a partition of at least two records, the first not later than the second and
      at most the window earlier, whose compared values are at a configured distance. */
  lemma TransformPairFacts(rs: seq<Record>, cfg: Config, out: seq<Record>, m: nat)
    requires TypoOutput(rs, cfg) == Ok(out) && 2 * m + 1 < |out|
    ensures var x, y, pf, tf := out[2 * m], out[2 * m + 1], cfg.partitionBy, cfg.timeField;
      && x in rs && y in rs
      && pf in x && pf in y && x[pf] == y[pf]
      && |Bucket(rs, pf, x[pf])| >= 2
      && HasTime(x, tf) && HasTime(y, tf)
      && Time(x, tf) <= Time(y, tf) <= Time(x, tf) + cfg.windowTime
      && Qualifies(x, y, cfg) == Ok(true)
  {
    TransformEmitsOnlyNeighbours(rs, cfg, out);
    assert PairFromPartition(out, m, rs, cfg);
    var k :| k in Keys(rs, cfg.partitionBy) && SortedBucket(rs, cfg, k).Ok? && PairAt(out, m, SortedBucket(rs, cfg, k).value, cfg);
    var s := SortedBucket(rs, cfg, k).value;
    var i :| 0 <= i < |s| && Emits(s, i, cfg) && out[2 * m] == s[i].record && out[2 * m + 1] == s[i + 1].record;
    SortPartitionSound(Bucket(rs, cfg.partitionBy, k), cfg.timeField);
    BucketSound(rs, cfg.partitionBy, k);
    assert s[i] in s && s[i + 1] in s;
  }

  /** Every emitted record is one of the input records, unchanged, and the output has
      even length; a record alone in its partition is never emitted. */
  lemma TransformOutputFromInput(rs: seq<Record>, cfg: Config, out: seq<Record>)
    requires TypoOutput(rs, cfg) == Ok(out)
    ensures |out| % 2 == 0
    ensures forall j :: 0 <= j < |out| ==>
      out[j] in rs && cfg.partitionBy in out[j] && |Bucket(rs, cfg.partitionBy, out[j][cfg.partitionBy])| >= 2
  {
    TransformEmitsOnlyNeighbours(rs, cfg, out);
    forall j | 0 <= j < |out|
      ensures out[j] in rs && cfg.partitionBy in out[j] && |Bucket(rs, cfg.partitionBy, out[j][cfg.partitionBy])| >= 2
    {
      var m: nat := j / 2;
      assert j == 2 * m || j == 2 * m + 1;
      TransformPairFacts(rs, cfg, out, m);
    }
  }

  /** A partition of at most one record emits nothing. */
  lemma LonePartitionIsSilent(bucket: seq<Record>, cfg: Config)
    requires |bucket| <= 1
    ensures PartitionResult(bucket, cfg).Ok? ==> PartitionResult(bucket, cfg).value == []
  {
    SortPartitionSound(bucket, cfg.timeField);
    var sorted := SortPartition(bucket, cfg.timeField);
    if sorted.Ok? && |sorted.value| == 1 {
      var none: seq<Record> := [];
      assert FirstIndex(sorted.value, 0) == 0 && AsWrittenStep(sorted.value, 0, cfg) == Ok(none);
      assert none + none == none;
      assert ScanAsWritten(sorted.value, 1, cfg) == Ok(none);
    }
  }

  lemma {:induction false} JoinAllEmpty(parts: seq<Result<seq<Record>>>)
    requires forall i :: 0 <= i < |parts| && parts[i].Ok? ==> parts[i].value == []
    ensures JoinAll(parts).Ok? ==> JoinAll(parts).value == []
  {
    if |parts| > 0 {
      JoinAllEmpty(parts[..|parts| - 1]);
    }
  }

  /** With both thresholds at 0 the transform emits nothing, whatever the input; it can
      still fail on a missing partition field or a bad time. */
  lemma DisabledTransformIsSilent(rs: seq<Record>, cfg: Config)
    requires cfg.levDist <= 0 && cfg.damDist <= 0
    ensures TypoOutput(rs, cfg).Ok? ==> TypoOutput(rs, cfg).value == []
  {
    var parts := Contributions(rs, cfg, Keys(rs, cfg.partitionBy));
    forall i | 0 <= i < |parts| && parts[i].Ok?
      ensures parts[i].value == []
    {
      var sorted := SortPartition(Bucket(rs, cfg.partitionBy, Keys(rs, cfg.partitionBy)[i]), cfg.timeField);
      DisabledScanIsSilent(sorted.value, |sorted.value|, cfg);
    }
    JoinAllEmpty(parts);
  }

  // ---------------------------------------------------------------------------
  // The output is grouped by partition, in the order the keys were first seen
  // ---------------------------------------------------------------------------

  /** Each record a partition emits carries that partition's value. */
  lemma PartitionOwnKey(rs: seq<Record>, cfg: Config, k: string, v: seq<Record>)
    requires PartitionResult(Bucket(rs, cfg.partitionBy, k), cfg) == Ok(v)
    ensures forall r :: r in v ==> cfg.partitionBy in r && r[cfg.partitionBy] == k
  {
    var s := SortedBucket(rs, cfg, k).value;
    SortedBucketTimes(rs, cfg, k);
    AsWrittenEmitsOnlyPairs(s, |s|, cfg, v);
    PairsOfRecords(v, s, cfg);
    SortPartitionSound(Bucket(rs, cfg.partitionBy, k), cfg.timeField);
    BucketSound(rs, cfg.partitionBy, k);
    forall r | r in v
      ensures cfg.partitionBy in r && r[cfg.partitionBy] == k
    {
      var j :| 0 <= j < |v| && v[j] == r;
      assert RecordOf(v[j], s);
      var i :| 0 <= i < |s| && s[i].record == v[j];
      assert s[i] in s;
    }
  }

  /** Every record of `out` carries one of the values `ks`. */
  predicate KeysAmong(out: seq<Record>, pf: string, ks: seq<string>) {
    forall a :: 0 <= a < |out| ==> pf in out[a] && out[a][pf] in ks
  }

  /** A record of `out` never comes after one whose value is later in `ks`. */
  predicate GroupedBy(out: seq<Record>, pf: string, ks: seq<string>) {
    forall a, b, i, j ::
      && 0 <= a < b < |out| && 0 <= i < |ks| && 0 <= j < |ks|
      && pf in out[a] && pf in out[b] && out[a][pf] == ks[i] && out[b][pf] == ks[j]
      ==> i <= j
  }

  lemma GroupedAppend(u: seq<Record>, v: seq<Record>, pf: string, ks: seq<string>, n: nat)
    requires 0 < n <= |ks| && NoDuplicates(ks)
    requires KeysAmong(u, pf, ks[..n - 1]) && GroupedBy(u, pf, ks)
    requires forall r :: r in v ==> pf in r && r[pf] == ks[n - 1]
    ensures KeysAmong(u + v, pf, ks[..n]) && GroupedBy(u + v, pf, ks)
  {
    var out := u + v;
    forall a | 0 <= a < |out|
      ensures pf in out[a] && out[a][pf] in ks[..n]
    {
      if a < |u| {
        assert out[a] == u[a];
        var i :| 0 <= i < n - 1 && ks[..n - 1][i] == u[a][pf];
        assert ks[..n][i] == ks[i];
      } else {
        assert out[a] == v[a - |u|] && ks[..n][n - 1] == ks[n - 1];
      }
    }
    forall a, b, i, j |
      && 0 <= a < b < |out| && 0 <= i < |ks| && 0 <= j < |ks|
      && pf in out[a] && pf in out[b] && out[a][pf] == ks[i] && out[b][pf] == ks[j]
      ensures i <= j
    {
      if b < |u| {
        assert out[a] == u[a] && out[b] == u[b];
      } else if a >= |u| {
        assert out[a] == v[a - |u|] && out[b] == v[b - |u|];
        assert ks[i] == ks[n - 1] && ks[j] == ks[n - 1];
      } else {
        assert out[a] == u[a] && out[b] == v[b - |u|];
        var i' :| 0 <= i' < n - 1 && ks[..n - 1][i'] == u[a][pf];
        assert ks[i'] == ks[i] && ks[j] == ks[n - 1];
      }
    }
  }

  lemma {:induction false} JoinAllGrouped(parts: seq<Result<seq<Record>>>, out: seq<Record>, pf: string, ks: seq<string>)
    requires |parts| <= |ks| && NoDuplicates(ks) && JoinAll(parts) == Ok(out)
    requires forall i :: 0 <= i < |parts| && parts[i].Ok? ==> forall r :: r in parts[i].value ==> pf in r && r[pf] == ks[i]
    ensures KeysAmong(out, pf, ks[..|parts|]) && GroupedBy(out, pf, ks)
  {
    if |parts| > 0 {
      var n := |parts|;
      var init := parts[..n - 1];
      var prev := JoinAll(init);
      assert prev.Ok? && parts[n - 1].Ok?;
      JoinAllGrouped(init, prev.value, pf, ks);
      GroupedAppend(prev.value, parts[n - 1].value, pf, ks, n);
    }
  }

  /** The output lists the pairs of one partition after another, in the order in which
      the partition values first appeared in the input. */
  lemma TransformGroupedByKey(rs: seq<Record>, cfg: Config, out: seq<Record>)
    requires TypoOutput(rs, cfg) == Ok(out)
    ensures KeysAmong(out, cfg.partitionBy, Keys(rs, cfg.partitionBy))
    ensures GroupedBy(out, cfg.partitionBy, Keys(rs, cfg.partitionBy))
  {
    var ks := Keys(rs, cfg.partitionBy);
    var parts := Contributions(rs, cfg, ks);
    forall i | 0 <= i < |parts| && parts[i].Ok?
      ensures forall r :: r in parts[i].value ==> cfg.partitionBy in r && r[cfg.partitionBy] == ks[i]
    {
      PartitionOwnKey(rs, cfg, ks[i], parts[i].value);
    }
    JoinAllGrouped(parts, out, cfg.partitionBy, ks);
    assert ks[..|parts|] == ks;
  }

  // ---------------------------------------------------------------------------
  // Without repeated records, every qualifying pair of neighbours is emitted
  // ---------------------------------------------------------------------------

  /** The output of the first `p` contributions starts the whole output. */
  lemma {:induction false} JoinAllPrefix(parts: seq<Result<seq<Record>>>, p: nat)
    requires p <= |parts| && JoinAll(parts).Ok?
    ensures JoinAll(parts[..p]).Ok? && JoinAll(parts[..p]).value <= JoinAll(parts).value
  {
    if p < |parts| {
      var init := parts[..|parts| - 1];
      assert parts[..p] == init[..p];
      JoinAllPrefix(init, p);
    } else {
      assert parts[..p] == parts;
    }
  }

  lemma {:induction false} JoinAllEven(parts: seq<Result<seq<Record>>>)
    requires forall p :: 0 <= p < |parts| && parts[p].Ok? ==> |parts[p].value| % 2 == 0
    ensures JoinAll(parts).Ok? ==> |JoinAll(parts).value| % 2 == 0
  {
    if |parts| > 0 {
      JoinAllEven(parts[..|parts| - 1]);
    }
  }

  /** The contribution `i` sits in the output after an even number of records. */
  lemma JoinAllSegment(parts: seq<Result<seq<Record>>>, i: nat)
    requires i < |parts| && JoinAll(parts).Ok?
    requires forall p :: 0 <= p < |parts| && parts[p].Ok? ==> |parts[p].value| % 2 == 0
    ensures JoinAll(parts[..i]).Ok? && parts[i].Ok?
    ensures |JoinAll(parts[..i]).value| % 2 == 0
    ensures JoinAll(parts[..i]).value + parts[i].value <= JoinAll(parts).value
  {
    JoinAllPrefix(parts, i + 1);
    assert parts[..i + 1][..i] == parts[..i] && parts[..i + 1][i] == parts[i];
    JoinAllEven(parts[..i]);
  }

  /** Records that arrive once each appear once each in their sorted partition. */
  lemma PartitionDistinct(rs: seq<Record>, cfg: Config, k: string)
    requires NoDuplicates(rs) && SortedBucket(rs, cfg, k).Ok?
    ensures DistinctRecords(SortedBucket(rs, cfg, k).value)
  {
    var bucket := Bucket(rs, cfg.partitionBy, k);
    BucketNoDuplicates(rs, cfg.partitionBy, k);
    SortPartitionPermutes(bucket, cfg.timeField);
    var s := SortedBucket(rs, cfg, k).value;
    forall a, b | 0 <= a < b < |s|
      ensures s[a].record != s[b].record
    {
      assert Unstamped(s)[a] == s[a].record && Unstamped(s)[b] == s[b].record;
    }
  }

  /** Completeness for one partition without repeated records: each qualifying pair of
      neighbours within the window is among the pairs the partition emits. */
  lemma PartitionEmitsEveryPair(rs: seq<Record>, cfg: Config, k: string, s: seq<Stamped>, v: seq<Record>, j: nat)
    requires NoDuplicates(rs) && SortedBucket(rs, cfg, k) == Ok(s) && Emits(s, j, cfg)
    requires PartitionResult(Bucket(rs, cfg.partitionBy, k), cfg) == Ok(v)
    ensures exists m :: 0 <= m && 2 * m + 1 < |v| && v[2 * m] == s[j].record && v[2 * m + 1] == s[j + 1].record
  {
    assert v == ScanAsWritten(s, |s|, cfg).value;
    PartitionDistinct(rs, cfg, k);
    AsWrittenIsAdjacentWhenDistinct(s, |s|, cfg);
    ScanAdjacentEmitsEveryPair(s, cfg, v, j);
  }

  /** A pair at position `m` of a segment that starts after an even number of records
      of `out` is a pair of `out` too. */
  lemma PairInSegment(pre: seq<Record>, v: seq<Record>, out: seq<Record>, m: nat, x: Record, y: Record)
    requires pre + v <= out && |pre| % 2 == 0
    requires 2 * m + 1 < |v| && v[2 * m] == x && v[2 * m + 1] == y
    ensures exists n :: 0 <= n && 2 * n + 1 < |out| && out[2 * n] == x && out[2 * n + 1] == y
  {
    var n := |pre| / 2 + m;
    assert 2 * n == |pre| + 2 * m;
    assert out[2 * n] == (pre + v)[2 * n] == v[2 * m];
    assert out[2 * n + 1] == (pre + v)[2 * n + 1] == v[2 * m + 1];
  }

  /** Completeness of the transform when no record arrives twice: every pair of
      neighbours in a sorted partition that lies within the window and qualifies is
      emitted, as a pair, somewhere in the output. */
  lemma TransformEmitsEveryNeighbourPair(rs: seq<Record>, cfg: Config, out: seq<Record>, k: string, s: seq<Stamped>, j: nat)
    requires TypoOutput(rs, cfg) == Ok(out) && NoDuplicates(rs)
    requires k in Keys(rs, cfg.partitionBy) && SortedBucket(rs, cfg, k) == Ok(s) && Emits(s, j, cfg)
    ensures exists m :: 0 <= m && 2 * m + 1 < |out| && out[2 * m] == s[j].record && out[2 * m + 1] == s[j + 1].record
  {
    var ks := Keys(rs, cfg.partitionBy);
    var parts := Contributions(rs, cfg, ks);
    var i :| 0 <= i < |ks| && ks[i] == k;
    forall p | 0 <= p < |parts| && parts[p].Ok?
      ensures |parts[p].value| % 2 == 0
    {
      PartitionPairs(rs, cfg, ks, p, parts[p].value);
    }
    JoinAllSegment(parts, i);
    var pre, v := JoinAll(parts[..i]).value, parts[i].value;
    PartitionEmitsEveryPair(rs, cfg, k, s, v, j);
    var m :| 0 <= m && 2 * m + 1 < |v| && v[2 * m] == s[j].record && v[2 * m + 1] == s[j + 1].record;
    PairInSegment(pre, v, out, m, s[j].record, s[j + 1].record);
  }

  // ---------------------------------------------------------------------------
  // When and how the transform fails
  // ---------------------------------------------------------------------------

  /** The joined outputs fail exactly when one of the contributions fails. */
  lemma {:induction false} JoinAllOkIff(parts: seq<Result<seq<Record>>>)
    ensures JoinAll(parts).Ok? <==> forall p :: 0 <= p < |parts| ==> parts[p].Ok?
  {
    if |parts| > 0 {
      var init := parts[..|parts| - 1];
      JoinAllOkIff(init);
      assert forall p :: 0 <= p < |init| ==> init[p] == parts[p];
    }
  }

  /** `e` is the error of the first of `parts` that failed. */
  predicate FirstError(parts: seq<Result<seq<Record>>>, e: Error) {
    exists p :: 0 <= p < |parts| && parts[p] == Err(e) && forall q :: 0 <= q < p ==> parts[q].Ok?
  }

  /** The error of the joined outputs is the error of the first contribution that
      failed. */
  lemma {:induction false} JoinAllFirstError(parts: seq<Result<seq<Record>>>)
    requires JoinAll(parts).Err?
    ensures FirstError(parts, JoinAll(parts).error)
  {
    var init := parts[..|parts| - 1];
    assert forall p :: 0 <= p < |init| ==> init[p] == parts[p];
    if JoinAll(init).Err? {
      JoinAllFirstError(init);
      var p :| 0 <= p < |init| && init[p] == JoinAll(init) && forall q :: 0 <= q < p ==> init[q].Ok?;
      assert parts[p] == JoinAll(parts);
    } else {
      JoinAllOkIff(init);
      assert parts[|parts| - 1] == JoinAll(parts);
    }
  }

  /** Why one partition fails: when every record has an integer time, because a record
      compared while a metric is enabled lacks the compared field; otherwise with the
      error of the first record, in arrival order, whose time does not parse. */
  lemma PartitionFailure(bucket: seq<Record>, cfg: Config)
    requires PartitionResult(bucket, cfg).Err?
    ensures var e := PartitionResult(bucket, cfg).error;
      if AllTimed(bucket, cfg.timeField) then
        && e == MissingField(cfg.compField) && (cfg.levDist > 0 || cfg.damDist > 0)
        && exists r :: r in bucket && cfg.compField !in r
      else FirstTimeError(bucket, cfg.timeField, e)
  {
    SortPartitionSound(bucket, cfg.timeField);
    var sorted := SortPartition(bucket, cfg.timeField);
    if sorted.Ok? {
      var s := sorted.value;
      ScanFailureHasCause(s, |s|, cfg);
      var j :| 0 <= j < |s| && FailsAt(s, j, cfg);
      var i := FirstIndex(s, j);
      assert s[j] in s && s[i + 1] in s;
    }
  }

  /** Why the transform fails: a record without the partition field stops it before any
      partition is scanned; otherwise the error is that of the first partition, in key
      order, that fails, all earlier ones having succeeded. */
  lemma TransformFailure(rs: seq<Record>, cfg: Config)
    requires TypoOutput(rs, cfg).Err?
    ensures !AllKeyed(rs, cfg.partitionBy) ==> TypoOutput(rs, cfg).error == MissingField(cfg.partitionBy)
    ensures AllKeyed(rs, cfg.partitionBy) ==>
      FirstError(Contributions(rs, cfg, Keys(rs, cfg.partitionBy)), TypoOutput(rs, cfg).error)
  {
    if AllKeyed(rs, cfg.partitionBy) {
      JoinAllFirstError(Contributions(rs, cfg, Keys(rs, cfg.partitionBy)));
    }
  }

  /** The only errors the transform reports: a missing partition, compared or time field,
      or the text of a time field that is not an integer. */
  lemma TransformErrorKinds(rs: seq<Record>, cfg: Config)
    requires TypoOutput(rs, cfg).Err?
    ensures var e := TypoOutput(rs, cfg).error;
      || e == MissingField(cfg.partitionBy)
      || e == MissingField(cfg.compField)
      || e == MissingField(cfg.timeField)
      || exists r :: r in rs && cfg.timeField in r && e == InvalidTimestamp(r[cfg.timeField])
  {
    TransformFailure(rs, cfg);
    var e, ks := TypoOutput(rs, cfg).error, Keys(rs, cfg.partitionBy);
    if AllKeyed(rs, cfg.partitionBy) {
      var parts := Contributions(rs, cfg, ks);
      var p :| 0 <= p < |parts| && parts[p] == Err(e);
      var bucket := Bucket(rs, cfg.partitionBy, ks[p]);
      BucketSound(rs, cfg.partitionBy, ks[p]);
      assert PartitionResult(bucket, cfg) == Err(e);
      PartitionFailure(bucket, cfg);
      if !AllTimed(bucket, cfg.timeField) {
        var i :| 0 <= i < |bucket| && TimeOf(bucket[i], cfg.timeField) == Err(e) && AllTimed(bucket[..i], cfg.timeField);
        assert bucket[i] in bucket;
      }
    }
  }

  /** The transform succeeds when every record has the partition field and an integer
      time, and either no metric is enabled or every record has the compared field. */
  lemma TransformSucceeds(rs: seq<Record>, cfg: Config)
    requires AllKeyed(rs, cfg.partitionBy) && AllTimed(rs, cfg.timeField)
    requires (cfg.levDist <= 0 && cfg.damDist <= 0) || forall r :: r in rs ==> cfg.compField in r
    ensures TypoOutput(rs, cfg).Ok?
  {
    var ks := Keys(rs, cfg.partitionBy);
    var parts := Contributions(rs, cfg, ks);
    forall p | 0 <= p < |parts|
      ensures parts[p].Ok?
    {
      var bucket := Bucket(rs, cfg.partitionBy, ks[p]);
      BucketSound(rs, cfg.partitionBy, ks[p]);
      SortPartitionSound(bucket, cfg.timeField);
      forall i | 0 <= i < |bucket|
        ensures HasTime(bucket[i], cfg.timeField)
      {
        assert bucket[i] in bucket;
        var n :| 0 <= n < |rs| && rs[n] == bucket[i];
      }
      var s := SortPartition(bucket, cfg.timeField).value;
      forall i | 0 <= i < |s|
        ensures (cfg.levDist <= 0 && cfg.damDist <= 0) || cfg.compField in s[i].record
      {
        assert s[i] in s;
      }
      ScanSucceedsWithField(s, |s|, cfg);
    }
    JoinAllOkIff(parts);
  }
}
