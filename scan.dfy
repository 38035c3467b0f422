/** The scan of one sorted partition: every record is compared with the record that
    follows it, when the two are close enough in time, and the pairs whose compared
    field values are at exactly the configured distance are collected. */
module WindowScan {
  import opened Records
  import opened EditDistance
  import opened TimeOrder

  // ---------------------------------------------------------------------------
  // Comparing two records
  // ---------------------------------------------------------------------------

  /** The decision for a pair already known to be within the window. The compared field
      is read only when at least one metric is enabled; a metric that is disabled
      counts as distance 0, and a pair qualifies when an enabled metric equals its
      threshold exactly. */
  function Qualifies(x: Record, y: Record, cfg: Config): Result<bool> {
    if cfg.levDist <= 0 && cfg.damDist <= 0 then Ok(false)
    else if cfg.compField !in x || cfg.compField !in y then Err(MissingField(cfg.compField))
    else
      var a, b := x[cfg.compField], y[cfg.compField];
      var lev := if cfg.levDist > 0 then LevCutoff(a, b, cfg.levDist) else 0;
      var dam := if cfg.damDist > 0 then Dam(a, b) else 0;
      Ok((lev == cfg.levDist && lev > 0) || (dam == cfg.damDist && dam > 0))
  }

  /** A pair qualifies exactly when an enabled metric puts its values at precisely the
      threshold; the cut-off of the Levenshtein computation never changes the verdict. */
  lemma QualifiesExactly(x: Record, y: Record, cfg: Config)
    ensures Qualifies(x, y, cfg) == Ok(true) <==>
      && cfg.compField in x && cfg.compField in y
      && ((cfg.levDist > 0 && Lev(x[cfg.compField], y[cfg.compField]) == cfg.levDist) ||
          (cfg.damDist > 0 && Dam(x[cfg.compField], y[cfg.compField]) == cfg.damDist))
  {
    if cfg.compField in x && cfg.compField in y {
      CutoffMatchesExactly(x[cfg.compField], y[cfg.compField], cfg.levDist);
    }
  }

  /** The comparison fails only when a metric is enabled and one of the two records
      lacks the compared field, and then it names that field. */
  lemma QualifiesFails(x: Record, y: Record, cfg: Config)
    ensures Qualifies(x, y, cfg).Err? <==>
      (cfg.levDist > 0 || cfg.damDist > 0) && (cfg.compField !in x || cfg.compField !in y)
    ensures Qualifies(x, y, cfg).Err? ==> Qualifies(x, y, cfg).error == MissingField(cfg.compField)
  {
  }

  /** Identical compared values never qualify: both distances are then 0. */
  lemma {:induction false} IdenticalNeverQualifies(x: Record, y: Record, cfg: Config)
    requires cfg.compField in x && cfg.compField in y && x[cfg.compField] == y[cfg.compField]
    ensures Qualifies(x, y, cfg) == Ok(false)
  {
    var a := x[cfg.compField];
    LevZeroIff(a, a);
    DamZeroIff(a, a);
  }

  /** Both metrics are symmetric, so the order of the two records does not matter. */
  lemma QualifiesSymmetric(x: Record, y: Record, cfg: Config)
    ensures Qualifies(x, y, cfg) == Qualifies(y, x, cfg)
  {
    if cfg.compField in x && cfg.compField in y {
      LevSymmetric(x[cfg.compField], y[cfg.compField]);
      DamSymmetric(x[cfg.compField], y[cfg.compField]);
    }
  }

  // ---------------------------------------------------------------------------
  // Scanning a sorted partition
  // ---------------------------------------------------------------------------

  /** Comparing the record `x` with the record `y` that follows it: nothing when `y` is
      more than the window later than `x`, otherwise both records when they qualify. */
  function Compare(x: Stamped, y: Stamped, cfg: Config): Result<seq<Record>> {
    if y.time - x.time <= cfg.windowTime then
      match Qualifies(x.record, y.record, cfg)
      case Err(e) => Err(e)
      case Ok(q) => Ok(if q then [x.record, y.record] else [])
    else Ok([])
  }

  /** Appending the output of a later step; the first error stops everything. */
  function Join(a: Result<seq<Record>>, b: Result<seq<Record>>): Result<seq<Record>> {
    match a
    case Err(_) => a
    case Ok(u) =>
      match b
      case Err(_) => b
      case Ok(v) => Ok(u + v)
  }

  /** The position of the first record of `s` equal to the one at position `j`, which
      is what looking a record up by value in a list returns. */
  function FirstIndex(s: seq<Stamped>, j: nat): (i: nat)
    requires j < |s|
    ensures i <= j
  {
    if s[0].record == s[j].record then 0 else FirstIndex(s[1..], j - 1) + 1
  }

  /** The lookup finds a position not after `j` holding the same record, and no earlier
      position holds it. */
  lemma {:induction false} FirstIndexSound(s: seq<Stamped>, j: nat)
    requires j < |s|
    ensures var i := FirstIndex(s, j);
      s[i].record == s[j].record && forall k :: 0 <= k < i ==> s[k].record != s[j].record
  {
    if s[0].record != s[j].record {
      FirstIndexSound(s[1..], j - 1);
      var i := FirstIndex(s[1..], j - 1);
      assert forall k :: 0 < k <= i + 1 ==> s[k] == s[1..][k - 1];
    }
  }

  /** The step of the loop for the record at position `j`, as the code is written: the
      record's position is looked up by value, and the record is compared with the one
      after the position found. */
  function AsWrittenStep(s: seq<Stamped>, j: nat, cfg: Config): Result<seq<Record>>
    requires j < |s|
  {
    var i := FirstIndex(s, j);
    if i + 1 < |s| then Compare(s[j], s[i + 1], cfg) else Ok([])
  }

  /** The loop over the first `n` records of a sorted partition, as the code is written. */
  function ScanAsWritten(s: seq<Stamped>, n: nat, cfg: Config): Result<seq<Record>>
    requires n <= |s|
  {
    if n == 0 then Ok([]) else Join(ScanAsWritten(s, n - 1, cfg), AsWrittenStep(s, n - 1, cfg))
  }

  /** The step for position `j` when every record is compared with its own successor. */
  function AdjacentStep(s: seq<Stamped>, j: nat, cfg: Config): Result<seq<Record>>
    requires j < |s|
  {
    if j + 1 < |s| then Compare(s[j], s[j + 1], cfg) else Ok([])
  }

  /** The loop over the first `n` records, comparing every record with its successor. */
  function ScanAdjacent(s: seq<Stamped>, n: nat, cfg: Config): Result<seq<Record>>
    requires n <= |s|
  {
    if n == 0 then Ok([]) else Join(ScanAdjacent(s, n - 1, cfg), AdjacentStep(s, n - 1, cfg))
  }

  // ---------------------------------------------------------------------------
  // What the scan of every adjacent pair emits
  // ---------------------------------------------------------------------------

  /** The pair at positions `j` and `j + 1` is within the window and qualifies. */
  predicate Emits(s: seq<Stamped>, j: int, cfg: Config) {
    && 0 <= j && j + 1 < |s|
    && s[j + 1].time - s[j].time <= cfg.windowTime
    && Qualifies(s[j].record, s[j + 1].record, cfg) == Ok(true)
  }

  /** The positions below `n` at which a qualifying pair starts, in increasing order. */
  function EmittingPositions(s: seq<Stamped>, n: nat, cfg: Config): seq<nat>
    requires n <= |s|
  {
    if n == 0 then []
    else EmittingPositions(s, n - 1, cfg) + (if Emits(s, n - 1, cfg) then [n - 1] else [])
  }

  /** The positions found are exactly the emitting ones below `n`, in increasing order. */
  lemma {:induction false} EmittingPositionsSound(s: seq<Stamped>, n: nat, cfg: Config)
    requires n <= |s|
    ensures var e := EmittingPositions(s, n, cfg);
      && (forall k :: 0 <= k < |e| ==> e[k] < n && Emits(s, e[k], cfg))
      && (forall j :: 0 <= j < n && Emits(s, j, cfg) ==> j in e)
      && (forall k, l :: 0 <= k < l < |e| ==> e[k] < e[l])
  {
    if n > 0 {
      EmittingPositionsSound(s, n - 1, cfg);
    }
  }

  /** What one comparison contributes when it does not fail. */
  lemma CompareOk(s: seq<Stamped>, j: nat, cfg: Config, out: seq<Record>)
    requires j + 1 < |s| && Compare(s[j], s[j + 1], cfg) == Ok(out)
    ensures Emits(s, j, cfg) ==> out == [s[j].record, s[j + 1].record]
    ensures !Emits(s, j, cfg) ==> out == []
  {
  }

  /** `out` lists, two by two, the pairs starting at the positions `e`. */
  predicate PairsAt(out: seq<Record>, s: seq<Stamped>, e: seq<nat>) {
    && |out| == 2 * |e|
    && forall m :: 0 <= m < |e| ==> e[m] + 1 < |s| && out[2 * m] == s[e[m]].record && out[2 * m + 1] == s[e[m] + 1].record
  }

  lemma PairsAtSnoc(out: seq<Record>, s: seq<Stamped>, e: seq<nat>, j: nat)
    requires PairsAt(out, s, e) && j + 1 < |s|
    ensures PairsAt(out + [s[j].record, s[j + 1].record], s, e + [j])
  {
    var r, e' := out + [s[j].record, s[j + 1].record], e + [j];
    forall m | 0 <= m < |e'|
      ensures e'[m] + 1 < |s| && r[2 * m] == s[e'[m]].record && r[2 * m + 1] == s[e'[m] + 1].record
    {
      if m < |e| {
        assert e'[m] == e[m] && r[2 * m] == out[2 * m] && r[2 * m + 1] == out[2 * m + 1];
      }
    }
  }

  /** Comparing every record with its successor emits exactly the qualifying adjacent
      pairs within the window, each once, in the order of their first record. */
  lemma {:induction false} ScanAdjacentEmitsExactly(s: seq<Stamped>, n: nat, cfg: Config, out: seq<Record>)
    requires n <= |s| && ScanAdjacent(s, n, cfg) == Ok(out)
    ensures PairsAt(out, s, EmittingPositions(s, n, cfg))
  {
    if n > 0 {
      var prev := ScanAdjacent(s, n - 1, cfg);
      var step := AdjacentStep(s, n - 1, cfg);
      assert prev.Ok? && step.Ok? && out == prev.value + step.value;
      ScanAdjacentEmitsExactly(s, n - 1, cfg, prev.value);
      var e' := EmittingPositions(s, n - 1, cfg);
      if n < |s| {
        CompareOk(s, n - 1, cfg, step.value);
      }
      if Emits(s, n - 1, cfg) {
        PairsAtSnoc(prev.value, s, e', n - 1);
      } else {
        assert step.value == [] && out == prev.value;
      }
    }
  }

  /** Completeness: every qualifying adjacent pair within the window is emitted, however
      far apart other neighbours are, including a pair exactly the window apart. */
  lemma ScanAdjacentEmitsEveryPair(s: seq<Stamped>, cfg: Config, out: seq<Record>, j: nat)
    requires ScanAdjacent(s, |s|, cfg) == Ok(out) && Emits(s, j, cfg)
    ensures exists m :: 0 <= m && 2 * m + 1 < |out| && out[2 * m] == s[j].record && out[2 * m + 1] == s[j + 1].record
  {
    ScanAdjacentEmitsExactly(s, |s|, cfg, out);
    EmittingPositionsSound(s, |s|, cfg);
    var e := EmittingPositions(s, |s|, cfg);
    var m :| 0 <= m < |e| && e[m] == j;
    assert out[2 * m] == s[j].record && out[2 * m + 1] == s[j + 1].record;
  }

  /** In a strictly increasing sequence, consecutive values sit at consecutive places. */
  lemma ConsecutivePositions(e: seq<nat>, k: nat, l: nat)
    requires forall a, b :: 0 <= a < b < |e| ==> e[a] < e[b]
    requires k < |e| && l < |e| && e[l] == e[k] + 1
    ensures l == k + 1
  {
    assert k < l;
    assert e[k] < e[k + 1] <= e[l];
  }

  /** Pairs listed at consecutive places that start at consecutive positions share the
      middle record, so it appears twice in a row. */
  lemma PairsAtConsecutive(out: seq<Record>, s: seq<Stamped>, e: seq<nat>, k: nat)
    requires PairsAt(out, s, e) && k + 1 < |e| && e[k + 1] == e[k] + 1
    ensures 2 * k + 3 < |out|
    ensures out[2 * k] == s[e[k]].record && out[2 * k + 1] == s[e[k] + 1].record
    ensures out[2 * k + 2] == s[e[k] + 1].record && out[2 * k + 3] == s[e[k] + 2].record
  {
    assert out[2 * (k + 1)] == s[e[k + 1]].record && out[2 * (k + 1) + 1] == s[e[k + 1] + 1].record;
  }

  /** When `out` lists the pairs starting at the increasing positions `e`, and both `j`
      and `j + 1` are among them, the record at `j + 1` is listed twice in a row. */
  lemma PairsAtRun(out: seq<Record>, s: seq<Stamped>, e: seq<nat>, j: nat)
    requires PairsAt(out, s, e) && forall a, b :: 0 <= a < b < |e| ==> e[a] < e[b]
    requires j in e && j + 1 in e && j + 2 < |s|
    ensures exists m :: 0 <= m && 2 * m + 3 < |out| && RunOfFour(out, m, s[j].record, s[j + 1].record, s[j + 2].record)
  {
    var k :| 0 <= k < |e| && e[k] == j;
    var l :| 0 <= l < |e| && e[l] == j + 1;
    ConsecutivePositions(e, k, l);
    PairsAtConsecutive(out, s, e, k);
    assert RunOfFour(out, k, s[j].record, s[j + 1].record, s[j + 2].record);
  }

  /** A record that qualifies with both its neighbours is emitted twice in a row: as the
      second record of the earlier pair and as the first of the later one. */
  lemma MiddleRecordTwice(s: seq<Stamped>, cfg: Config, out: seq<Record>, j: nat)
    requires ScanAdjacent(s, |s|, cfg) == Ok(out) && Emits(s, j, cfg) && Emits(s, j + 1, cfg)
    ensures exists m :: 0 <= m && 2 * m + 3 < |out| && RunOfFour(out, m, s[j].record, s[j + 1].record, s[j + 2].record)
  {
    ScanAdjacentEmitsExactly(s, |s|, cfg, out);
    EmittingPositionsSound(s, |s|, cfg);
    PairsAtRun(out, s, EmittingPositions(s, |s|, cfg), j);
  }

  /** Places `2m` to `2m + 3` of `out` hold `x`, `y`, `y`, `z`. */
  predicate RunOfFour(out: seq<Record>, m: nat, x: Record, y: Record, z: Record)
    requires 2 * m + 3 < |out|
  {
    out[2 * m] == x && out[2 * m + 1] == y && out[2 * m + 2] == y && out[2 * m + 3] == z
  }

  // ---------------------------------------------------------------------------
  // The scan as written
  // ---------------------------------------------------------------------------

  /** No record occurs twice in the partition. */
  predicate DistinctRecords(s: seq<Stamped>) {
    forall i, j :: 0 <= i < j < |s| ==> s[i].record != s[j].record
  }

  /** Without duplicate records the lookup by value finds each record's own position, so
      the loop as written compares every record with its successor. */
  lemma {:induction false} AsWrittenIsAdjacentWhenDistinct(s: seq<Stamped>, n: nat, cfg: Config)
    requires n <= |s| && DistinctRecords(s)
    ensures ScanAsWritten(s, n, cfg) == ScanAdjacent(s, n, cfg)
  {
    if n > 0 {
      AsWrittenIsAdjacentWhenDistinct(s, n - 1, cfg);
      FirstIndexSound(s, n - 1);
      var i := FirstIndex(s, n - 1);
      assert i == n - 1;
    }
  }

  /** The time stored with a record depends on the record alone, as it does when every
      time is parsed from the record's own time field. */
  predicate TimesFollowRecords(s: seq<Stamped>) {
    forall i, j :: 0 <= i < |s| && 0 <= j < |s| && s[i].record == s[j].record ==> s[i].time == s[j].time
  }

  /** The out-of-place comparison still emits the record found first and its successor:
      the step for position `j` emits nothing or the qualifying pair at the first
      occurrence of the record at `j`. */
  lemma AsWrittenStepEmits(s: seq<Stamped>, j: nat, cfg: Config, out: seq<Record>)
    requires j < |s| && TimesFollowRecords(s) && AsWrittenStep(s, j, cfg) == Ok(out)
    ensures var i := FirstIndex(s, j);
      out == [] || (Emits(s, i, cfg) && out == [s[i].record, s[i + 1].record])
  {
    FirstIndexSound(s, j);
  }

  /** The `m`-th pair of `out` is a qualifying adjacent pair of `s` within the window. */
  predicate PairAt(out: seq<Record>, m: nat, s: seq<Stamped>, cfg: Config)
    requires 2 * m + 1 < |out|
  {
    exists i :: 0 <= i < |s| && Emits(s, i, cfg) && out[2 * m] == s[i].record && out[2 * m + 1] == s[i + 1].record
  }

  /** The pairs of `out` are all qualifying adjacent pairs of `s` within the window. */
  predicate PairsOf(out: seq<Record>, s: seq<Stamped>, cfg: Config) {
    && |out| % 2 == 0
    && forall m: nat :: m < |out| && 2 * m + 1 < |out| ==> PairAt(out, m, s, cfg)
  }

  lemma PairsOfAppend(out: seq<Record>, step: seq<Record>, s: seq<Stamped>, cfg: Config)
    requires PairsOf(out, s, cfg) && PairsOf(step, s, cfg)
    ensures PairsOf(out + step, s, cfg)
  {
    var r := out + step;
    forall m: nat | m < |r| && 2 * m + 1 < |r|
      ensures PairAt(r, m, s, cfg)
    {
      if 2 * m < |out| {
        assert PairAt(out, m, s, cfg);
        var i :| 0 <= i < |s| && Emits(s, i, cfg) && out[2 * m] == s[i].record && out[2 * m + 1] == s[i + 1].record;
        assert r[2 * m] == out[2 * m] && r[2 * m + 1] == out[2 * m + 1];
      } else {
        var m': nat := m - |out| / 2;
        assert 2 * m == |out| + 2 * m' && 2 * m' + 1 < |step|;
        assert PairAt(step, m', s, cfg);
        var i :| 0 <= i < |s| && Emits(s, i, cfg) && step[2 * m'] == s[i].record && step[2 * m' + 1] == s[i + 1].record;
        assert r[2 * m] == step[2 * m'] && r[2 * m + 1] == step[2 * m' + 1];
      }
    }
  }

  /** `r` is the record at some position of `s`. */
  predicate RecordOf(r: Record, s: seq<Stamped>) {
    exists i :: 0 <= i < |s| && s[i].record == r
  }

  lemma PairRecords(out: seq<Record>, m: nat, s: seq<Stamped>, cfg: Config)
    requires 2 * m + 1 < |out| && PairAt(out, m, s, cfg)
    ensures RecordOf(out[2 * m], s) && RecordOf(out[2 * m + 1], s)
  {
    var i :| 0 <= i < |s| && Emits(s, i, cfg) && out[2 * m] == s[i].record && out[2 * m + 1] == s[i + 1].record;
    assert s[i + 1].record == out[2 * m + 1];
  }

  /** Every record of a sequence of pairs of `s` is a record of `s`. */
  lemma PairsOfRecords(out: seq<Record>, s: seq<Stamped>, cfg: Config)
    requires PairsOf(out, s, cfg)
    ensures forall j :: 0 <= j < |out| ==> RecordOf(out[j], s)
  {
    forall j | 0 <= j < |out|
      ensures RecordOf(out[j], s)
    {
      var m: nat := j / 2;
      assert j == 2 * m || j == 2 * m + 1;
      PairRecords(out, m, s, cfg);
    }
  }

  /** Soundness of the loop as written: whatever it emits comes in pairs, and each pair
      is a qualifying adjacent pair of the partition within the window. */
  lemma {:induction false} AsWrittenEmitsOnlyPairs(s: seq<Stamped>, n: nat, cfg: Config, out: seq<Record>)
    requires n <= |s| && TimesFollowRecords(s) && ScanAsWritten(s, n, cfg) == Ok(out)
    ensures PairsOf(out, s, cfg)
  {
    if n > 0 {
      var prev := ScanAsWritten(s, n - 1, cfg);
      var step := AsWrittenStep(s, n - 1, cfg);
      assert prev.Ok? && step.Ok? && out == prev.value + step.value;
      AsWrittenEmitsOnlyPairs(s, n - 1, cfg, prev.value);
      AsWrittenStepEmits(s, n - 1, cfg, step.value);
      if step.value != [] {
        var i := FirstIndex(s, n - 1);
        assert step.value[0] == s[i].record && step.value[1] == s[i + 1].record;
      }
      PairsOfAppend(prev.value, step.value, s, cfg);
    }
  }

  /** With times tied to records, the step of a repeated record repeats the step of the
      record's first occurrence: the lookup by value sends it to that position's successor. */
  lemma AsWrittenRepeatsFirstOccurrence(s: seq<Stamped>, j: nat, cfg: Config)
    requires j < |s| && TimesFollowRecords(s)
    ensures AsWrittenStep(s, j, cfg) == AdjacentStep(s, FirstIndex(s, j), cfg)
  {
    FirstIndexSound(s, j);
    var i := FirstIndex(s, j);
    assert s[i] == s[j];
  }

  /** Two one-character strings that differ are at Levenshtein distance 1. */
  lemma OneApart(a: string, b: string)
    requires |a| == 1 && |b| == 1 && a != b
    ensures Lev(a, b) == 1
  {
    LevZeroIff(a, b);
    LevAtMostMismatches(a, b);
    assert Mismatches(a, b, 1) == 1;
  }

  /** In the partition `[d, d, x]` the later `d` is looked up at position 0 and compared
      with itself, so the qualifying pair `(d, x)` is never emitted; comparing index by
      index emits it. */
  lemma DuplicateHidesNextPair(a: string, b: string, t: int)
    requires |a| == 1 && |b| == 1 && a != b
    ensures
      var d, x := Stamped(t, map["q" := a]), Stamped(t, map["q" := b]);
      var cfg := Config("q", "t", "u", 0, 1, 0);
      && ScanAsWritten([d, d, x], 3, cfg) == Ok([])
      && ScanAdjacent([d, d, x], 3, cfg) == Ok([d.record, x.record])
  {
    var d, x := Stamped(t, map["q" := a]), Stamped(t, map["q" := b]);
    var cfg := Config("q", "t", "u", 0, 1, 0);
    var s := [d, d, x];
    IdenticalNeverQualifies(d.record, d.record, cfg);
    OneApart(a, b);
    QualifiesExactly(d.record, x.record, cfg);
    assert FirstIndex(s[2..], 0) == 0 && FirstIndex(s[1..], 1) == 1;
    assert FirstIndex(s, 1) == 0 && FirstIndex(s, 2) == 2;
    assert AsWrittenStep(s, 0, cfg) == Ok([]) && AsWrittenStep(s, 1, cfg) == Ok([]) && AsWrittenStep(s, 2, cfg) == Ok([]);
    assert AdjacentStep(s, 0, cfg) == Ok([]) && AdjacentStep(s, 1, cfg) == Ok([d.record, x.record]) && AdjacentStep(s, 2, cfg) == Ok([]);
    var none, pair: seq<Record> := [], [d.record, x.record];
    assert none + none == none && none + pair == pair && pair + none == pair;
    assert ScanAsWritten(s, 1, cfg) == Join(Ok(none), AsWrittenStep(s, 0, cfg)) == Ok(none);
    assert ScanAsWritten(s, 2, cfg) == Join(Ok(none), AsWrittenStep(s, 1, cfg)) == Ok(none);
    assert ScanAsWritten(s, 3, cfg) == Join(Ok(none), AsWrittenStep(s, 2, cfg)) == Ok(none);
    assert ScanAdjacent(s, 1, cfg) == Join(Ok(none), AdjacentStep(s, 0, cfg)) == Ok(none);
    assert ScanAdjacent(s, 2, cfg) == Join(Ok(none), AdjacentStep(s, 1, cfg)) == Ok(pair);
    assert ScanAdjacent(s, 3, cfg) == Join(Ok(pair), AdjacentStep(s, 2, cfg)) == Ok(pair);
  }

  /** A record that comes back later re-emits the pair of its first occurrence. */
  lemma ReturningRecordRepeatsPair(a: string, b: string, t: int)
    requires |a| == 1 && |b| == 1 && a != b
    ensures
      var d, x := Stamped(t, map["q" := a]), Stamped(t, map["q" := b]);
      var cfg := Config("q", "t", "u", 0, 1, 0);
      && ScanAsWritten([d, x, d], 3, cfg) == Ok([d.record, x.record, x.record, d.record, d.record, x.record])
      && ScanAdjacent([d, x, d], 3, cfg) == Ok([d.record, x.record, x.record, d.record])
  {
    var d, x := Stamped(t, map["q" := a]), Stamped(t, map["q" := b]);
    var cfg := Config("q", "t", "u", 0, 1, 0);
    var s := [d, x, d];
    OneApart(a, b);
    QualifiesExactly(d.record, x.record, cfg);
    QualifiesSymmetric(d.record, x.record, cfg);
    assert FirstIndex(s, 1) == 1 && FirstIndex(s, 2) == 0;
    assert AsWrittenStep(s, 0, cfg) == Ok([d.record, x.record]) && AsWrittenStep(s, 1, cfg) == Ok([x.record, d.record]);
    assert AsWrittenStep(s, 2, cfg) == Ok([d.record, x.record]);
    assert AdjacentStep(s, 2, cfg) == Ok([]);
    var none, there, back: seq<Record> := [], [d.record, x.record], [x.record, d.record];
    assert none + there == there && there + back + none == there + back;
    assert ScanAsWritten(s, 1, cfg) == Join(Ok(none), AsWrittenStep(s, 0, cfg)) == Ok(there);
    assert ScanAsWritten(s, 2, cfg) == Join(Ok(there), AsWrittenStep(s, 1, cfg)) == Ok(there + back);
    assert ScanAsWritten(s, 3, cfg) == Join(Ok(there + back), AsWrittenStep(s, 2, cfg)) == Ok(there + back + there);
    assert ScanAdjacent(s, 1, cfg) == Join(Ok(none), AdjacentStep(s, 0, cfg)) == Ok(there);
    assert ScanAdjacent(s, 2, cfg) == Join(Ok(there), AdjacentStep(s, 1, cfg)) == Ok(there + back);
    assert ScanAdjacent(s, 3, cfg) == Join(Ok(there + back), AdjacentStep(s, 2, cfg)) == Ok(there + back + none);
    assert there + back + there == [d.record, x.record, x.record, d.record, d.record, x.record];
    assert there + back == [d.record, x.record, x.record, d.record];
  }

  // ---------------------------------------------------------------------------
  // Errors of the scan
  // ---------------------------------------------------------------------------

  /** The step for position `j` reads the compared field of a record that lacks it. */
  predicate FailsAt(s: seq<Stamped>, j: nat, cfg: Config)
    requires j < |s|
  {
    var i := FirstIndex(s, j);
    && i + 1 < |s|
    && s[i + 1].time - s[j].time <= cfg.windowTime
    && (cfg.levDist > 0 || cfg.damDist > 0)
    && (cfg.compField !in s[j].record || cfg.compField !in s[i + 1].record)
  }

  /** One step fails exactly when it reads a missing compared field, naming that field. */
  lemma StepFailsIff(s: seq<Stamped>, j: nat, cfg: Config)
    requires j < |s|
    ensures AsWrittenStep(s, j, cfg).Err? <==> FailsAt(s, j, cfg)
    ensures AsWrittenStep(s, j, cfg).Err? ==> AsWrittenStep(s, j, cfg).error == MissingField(cfg.compField)
  {
    var i := FirstIndex(s, j);
    if i + 1 < |s| {
      QualifiesFails(s[j].record, s[i + 1].record, cfg);
    }
  }

  /** A step that reads a missing compared field makes the whole scan fail. */
  lemma {:induction false} ScanFailsAt(s: seq<Stamped>, n: nat, cfg: Config, j: nat)
    requires j < n <= |s| && FailsAt(s, j, cfg)
    ensures ScanAsWritten(s, n, cfg).Err?
  {
    if j < n - 1 {
      ScanFailsAt(s, n - 1, cfg, j);
    } else {
      StepFailsIff(s, j, cfg);
    }
  }

  /** A failed scan has a step that read a missing compared field, and its error names
      that field. */
  lemma {:induction false} ScanFailureHasCause(s: seq<Stamped>, n: nat, cfg: Config)
    requires n <= |s| && ScanAsWritten(s, n, cfg).Err?
    ensures exists j :: 0 <= j < n && FailsAt(s, j, cfg)
    ensures ScanAsWritten(s, n, cfg).error == MissingField(cfg.compField)
  {
    StepFailsIff(s, n - 1, cfg);
    if ScanAsWritten(s, n - 1, cfg).Err? {
      ScanFailureHasCause(s, n - 1, cfg);
    }
  }

  /** The scan fails exactly when one of its steps reads a missing compared field. */
  lemma ScanFailsIff(s: seq<Stamped>, n: nat, cfg: Config)
    requires n <= |s|
    ensures ScanAsWritten(s, n, cfg).Err? <==> exists j :: 0 <= j < n && FailsAt(s, j, cfg)
  {
    if ScanAsWritten(s, n, cfg).Err? {
      ScanFailureHasCause(s, n, cfg);
    }
    forall j | 0 <= j < n && FailsAt(s, j, cfg)
      ensures ScanAsWritten(s, n, cfg).Err?
    {
      ScanFailsAt(s, n, cfg, j);
    }
  }

  /** A scan with no metric enabled, or over records that all carry the compared field,
      cannot fail. */
  lemma {:induction false} ScanSucceedsWithField(s: seq<Stamped>, n: nat, cfg: Config)
    requires n <= |s|
    requires (cfg.levDist <= 0 && cfg.damDist <= 0) || forall i :: 0 <= i < |s| ==> cfg.compField in s[i].record
    ensures ScanAsWritten(s, n, cfg).Ok?
  {
    if n > 0 {
      ScanSucceedsWithField(s, n - 1, cfg);
      StepFailsIff(s, n - 1, cfg);
      var i := FirstIndex(s, n - 1);
      if i + 1 < |s| {
        assert (cfg.levDist <= 0 && cfg.damDist <= 0) || (cfg.compField in s[i + 1].record && cfg.compField in s[n - 1].record);
      }
    }
  }

  /** Once the scan has failed, later steps leave the error as it is. */
  lemma {:induction false} ScanErrorStays(s: seq<Stamped>, j: nat, n: nat, cfg: Config)
    requires j <= n <= |s| && ScanAsWritten(s, j, cfg).Err?
    ensures ScanAsWritten(s, n, cfg) == ScanAsWritten(s, j, cfg)
  {
    if n > j {
      ScanErrorStays(s, j, n - 1, cfg);
    }
  }

  /** With both metrics disabled no step emits anything or fails. */
  lemma DisabledStepIsSilent(s: seq<Stamped>, j: nat, cfg: Config)
    requires j < |s| && cfg.levDist <= 0 && cfg.damDist <= 0
    ensures AsWrittenStep(s, j, cfg) == Ok([])
  {
  }

  /** With both metrics disabled nothing is ever emitted and nothing can fail. */
  lemma {:induction false} DisabledScanIsSilent(s: seq<Stamped>, n: nat, cfg: Config)
    requires n <= |s| && cfg.levDist <= 0 && cfg.damDist <= 0
    ensures ScanAsWritten(s, n, cfg) == Ok([])
  {
    if n > 0 {
      DisabledScanIsSilent(s, n - 1, cfg);
      DisabledStepIsSilent(s, n - 1, cfg);
      var none: seq<Record> := [];
      assert none + none == none;
    }
  }

  // ---------------------------------------------------------------------------
  // The loop
  // ---------------------------------------------------------------------------

  /** The step for position `j` in terms of the two distances the loop computes, when the
      record after the one found is within the window and the needed fields are there. */
  lemma StepByDistances(s: seq<Stamped>, j: nat, cfg: Config, levdist: int, damdist: int)
    requires j < |s| && FirstIndex(s, j) + 1 < |s|
    requires var x, y := s[j], s[FirstIndex(s, j) + 1];
      && y.time - x.time <= cfg.windowTime
      && ((cfg.levDist > 0 || cfg.damDist > 0) ==> cfg.compField in x.record && cfg.compField in y.record)
      && levdist == (if cfg.levDist > 0 then LevCutoff(x.record[cfg.compField], y.record[cfg.compField], cfg.levDist) else 0)
      && damdist == (if cfg.damDist > 0 then Dam(x.record[cfg.compField], y.record[cfg.compField]) else 0)
    ensures var x, y := s[j], s[FirstIndex(s, j) + 1];
      var q := (levdist == cfg.levDist && levdist > 0) || (damdist == cfg.damDist && damdist > 0);
      AsWrittenStep(s, j, cfg) == Ok(if q then [x.record, y.record] else [])
  {
  }

  /** The body of the loop for the record at position `j` of a sorted partition: the
      record is looked up by value, and compared with the record after the position
      found when that record is within the window. A threshold above 0 enables its
      metric; reading the compared field of a record that lacks it aborts. */
  method CompareNext(sorted: seq<Stamped>, j: nat, cfg: Config) returns (step: Result<seq<Record>>)
    requires j < |sorted|
    ensures step == AsWrittenStep(sorted, j, cfg)
  {
    var record := sorted[j];
    var index := FirstIndex(sorted, j);
    if index + 1 < |sorted| {
      var next := sorted[index + 1];
      if next.time - record.time <= cfg.windowTime {
        var levdist, damdist := 0, 0;
        if cfg.levDist > 0 {
          if cfg.compField !in record.record || cfg.compField !in next.record {
            StepFailsIff(sorted, j, cfg);
            return Err(MissingField(cfg.compField));
          }
          levdist := LevenshteinWithCutoff(record.record[cfg.compField], next.record[cfg.compField], cfg.levDist);
        }
        if cfg.damDist > 0 {
          if cfg.compField !in record.record || cfg.compField !in next.record {
            StepFailsIff(sorted, j, cfg);
            return Err(MissingField(cfg.compField));
          }
          damdist := DamerauLevenshtein(record.record[cfg.compField], next.record[cfg.compField]);
        }
        StepByDistances(sorted, j, cfg, levdist, damdist);
        if (levdist == cfg.levDist && levdist > 0) || (damdist == cfg.damDist && damdist > 0) {
          return Ok([record.record, next.record]);
        }
      }
    }
    return Ok([]);
  }

  /** The loop over a sorted partition, which stops at the first error. */
  method ScanPartition(sorted: seq<Stamped>, cfg: Config) returns (res: Result<seq<Record>>)
    ensures res == ScanAsWritten(sorted, |sorted|, cfg)
  {
    var out: seq<Record> := [];
    for j := 0 to |sorted|
      invariant ScanAsWritten(sorted, j, cfg) == Ok(out)
    {
      var step := CompareNext(sorted, j, cfg);
      if step.Err? {
        ScanErrorStays(sorted, j + 1, |sorted|, cfg);
        return step;
      }
      out := out + step.value;
    }
    return Ok(out);
  }
}
