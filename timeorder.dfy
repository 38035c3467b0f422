/** Ordering one partition by timestamp with a stable sort. A sort with a key function
    first computes every record's key, front to back, and then orders the records by
    their keys; the model keeps each key beside its record. */
module TimeOrder {
  import opened Records
  import opened Partitioning

  /** A record together with the integer its time field parsed to. */
  datatype Stamped = Stamped(time: int, record: Record)

  /** The key computation of the sort: the records in their order with their times, or
      the error of the first record whose time field is missing or not an integer. */
  function Stamp(s: seq<Record>, tf: string): Result<seq<Stamped>> {
    if |s| == 0 then Ok([])
    else
      match TimeOf(s[0], tf)
      case Err(e) => Err(e)
      case Ok(t) =>
        match Stamp(s[1..], tf)
        case Err(e) => Err(e)
        case Ok(rest) => Ok([Stamped(t, s[0])] + rest)
  }

  /** The key computation succeeds exactly when every record has an integer time, and
      then pairs each record with its time; otherwise it reports the first failure. */
  lemma {:induction false} StampSound(s: seq<Record>, tf: string)
    ensures Stamp(s, tf).Ok? <==> AllTimed(s, tf)
    ensures Stamp(s, tf).Ok? ==> StampsOf(Stamp(s, tf).value, s, tf)
    ensures Stamp(s, tf).Err? ==> FirstTimeError(s, tf, Stamp(s, tf).error)
  {
    if |s| > 0 {
      match TimeOf(s[0], tf)
      case Err(e) =>
        assert s[..0] == [];
      case Ok(t) =>
        StampSound(s[1..], tf);
        match Stamp(s[1..], tf)
        case Err(e) =>
          StampErrTail(s, tf, e);
        case Ok(rest) =>
          StampCons(s, tf, t, rest);
    }
  }

  /** `ks` pairs every record of `s`, in order, with the time it parses to. */
  predicate StampsOf(ks: seq<Stamped>, s: seq<Record>, tf: string) {
    |ks| == |s| && forall i :: 0 <= i < |s| ==> ks[i].record == s[i] && TimeOf(s[i], tf) == Ok(ks[i].time)
  }

  /** `e` is the error of the first record of `s` whose time does not parse. */
  predicate FirstTimeError(s: seq<Record>, tf: string, e: Error) {
    exists i :: 0 <= i < |s| && TimeOf(s[i], tf) == Err(e) && AllTimed(s[..i], tf)
  }

  lemma StampCons(s: seq<Record>, tf: string, t: int, ks: seq<Stamped>)
    requires |s| > 0 && TimeOf(s[0], tf) == Ok(t) && StampsOf(ks, s[1..], tf)
    ensures StampsOf([Stamped(t, s[0])] + ks, s, tf) && AllTimed(s, tf)
  {
    var r := [Stamped(t, s[0])] + ks;
    forall i | 0 < i < |s|
      ensures r[i].record == s[i] && TimeOf(s[i], tf) == Ok(r[i].time)
    {
      assert s[i] == s[1..][i - 1] && r[i] == ks[i - 1];
    }
  }

  lemma StampErrTail(s: seq<Record>, tf: string, e: Error)
    requires |s| > 0 && HasTime(s[0], tf) && FirstTimeError(s[1..], tf, e)
    ensures FirstTimeError(s, tf, e) && !AllTimed(s, tf)
  {
    var i :| 0 <= i < |s[1..]| && TimeOf(s[1..][i], tf) == Err(e) && AllTimed(s[1..][..i], tf);
    assert s[i + 1] == s[1..][i];
    assert s[..i + 1] == [s[0]] + s[1..][..i];
  }

  /** The records of a stamped sequence, keys dropped. */
  function Unstamped(s: seq<Stamped>): (rs: seq<Record>)
    ensures |rs| == |s| && forall i :: 0 <= i < |s| ==> rs[i] == s[i].record
  {
    if |s| == 0 then [] else [s[0].record] + Unstamped(s[1..])
  }

  predicate SortedByTime(s: seq<Stamped>) {
    forall i, j :: 0 <= i < j < |s| ==> s[i].time <= s[j].time
  }

  /** The number of leading records of `s` whose time is not later than `t`. */
  function InsertPosition(s: seq<Stamped>, t: int): (p: nat)
    ensures p <= |s|
    ensures forall i :: 0 <= i < p ==> s[i].time <= t
    ensures p < |s| ==> s[p].time > t
  {
    if |s| == 0 || s[0].time > t then 0 else 1 + InsertPosition(s[1..], t)
  }

  /** Placing `x` after the records not later than it keeps a sequence sorted. */
  lemma SpliceSorted(s: seq<Stamped>, p: nat, x: Stamped)
    requires SortedByTime(s) && p <= |s|
    requires forall i :: 0 <= i < p ==> s[i].time <= x.time
    requires p < |s| ==> s[p].time > x.time
    ensures SortedByTime(s[..p] + [x] + s[p..])
  {
    var r := s[..p] + [x] + s[p..];
    forall i, j | 0 <= i < j < |r|
      ensures r[i].time <= r[j].time
    {
      if j < p {
        assert r[i] == s[i] && r[j] == s[j];
      } else if j == p {
        assert r[i] == s[i] && r[j] == x;
      } else if i < p {
        assert r[i] == s[i] && r[j] == s[j - 1];
      } else if i == p {
        assert r[i] == x && r[j] == s[j - 1] && s[p].time <= s[j - 1].time;
      } else {
        assert r[i] == s[i - 1] && r[j] == s[j - 1];
      }
    }
  }

  /** `x` placed after every record of `s` whose time is not later than its own, and
      before the first later one. */
  function Insert(s: seq<Stamped>, x: Stamped): seq<Stamped> {
    var p := InsertPosition(s, x.time);
    s[..p] + [x] + s[p..]
  }

  /** Inserting into a sorted sequence keeps it sorted and adds exactly `x`. */
  lemma InsertSound(s: seq<Stamped>, x: Stamped)
    requires SortedByTime(s)
    ensures SortedByTime(Insert(s, x))
    ensures multiset(Insert(s, x)) == multiset(s) + multiset{x}
  {
    var p := InsertPosition(s, x.time);
    SpliceSorted(s, p, x);
    assert s == s[..p] + s[p..];
  }

  /** Insertion sort, the last record inserted last: the reference stable sort by time. */
  function SortByTime(s: seq<Stamped>): seq<Stamped> {
    if |s| == 0 then [] else Insert(SortByTime(s[..|s| - 1]), s[|s| - 1])
  }

  /** The sort orders by time and neither loses nor adds a record. */
  lemma {:induction false} SortByTimeSound(s: seq<Stamped>)
    ensures SortedByTime(SortByTime(s))
    ensures multiset(SortByTime(s)) == multiset(s)
  {
    if |s| > 0 {
      var init := s[..|s| - 1];
      assert s == init + [s[|s| - 1]];
      SortByTimeSound(init);
      InsertSound(SortByTime(init), s[|s| - 1]);
    }
  }

  /** The records of `s` carrying time `t`, in their order in `s`. */
  function WithTime(s: seq<Stamped>, t: int): seq<Stamped>
  {
    if |s| == 0 then []
    else WithTime(s[..|s| - 1], t) + (if s[|s| - 1].time == t then [s[|s| - 1]] else [])
  }

  lemma {:induction false} WithTimeMember(s: seq<Stamped>, t: int, x: Stamped)
    ensures x in WithTime(s, t) <==> x in s && x.time == t
  {
    if |s| > 0 {
      var init := s[..|s| - 1];
      WithTimeMember(init, t, x);
      assert s == init + [s[|s| - 1]];
    }
  }

  lemma {:induction false} WithTimeConcat(a: seq<Stamped>, b: seq<Stamped>, t: int)
    ensures WithTime(a + b, t) == WithTime(a, t) + WithTime(b, t)
  {
    if |b| > 0 {
      var init, last := b[..|b| - 1], b[|b| - 1];
      var l := if last.time == t then [last] else [];
      assert (a + b)[..|a + b| - 1] == a + init;
      assert (a + b)[|a + b| - 1] == last;
      assert WithTime(a + b, t) == WithTime(a + init, t) + l;
      WithTimeConcat(a, init, t);
      assert WithTime(b, t) == WithTime(init, t) + l;
    } else {
      assert a + b == a;
    }
  }

  /** No record of time `t` in `s` means nothing to select. */
  lemma WithTimeNone(s: seq<Stamped>, t: int)
    requires forall x :: x in s ==> x.time != t
    ensures WithTime(s, t) == []
  {
    if WithTime(s, t) != [] {
      var w := WithTime(s, t);
      WithTimeMember(s, t, w[0]);
    }
  }

  lemma WithTimeSingle(x: Stamped, t: int)
    ensures WithTime([x], t) == if x.time == t then [x] else []
  {
    assert [x][..0] == [];
  }

  /** In a sorted sequence the records from the insert position on are all later. */
  lemma AfterInsertPosition(s: seq<Stamped>, t: int)
    requires SortedByTime(s)
    ensures forall i :: InsertPosition(s, t) <= i < |s| ==> s[i].time > t
  {
    var p := InsertPosition(s, t);
    forall i | p <= i < |s|
      ensures s[i].time > t
    {
      assert s[p].time <= s[i].time;
    }
  }

  /** Putting `x` at position `p`, in front of records that are all later than it, adds
      it right after the records of its own time. */
  lemma SpliceStable(s: seq<Stamped>, p: nat, x: Stamped, t: int)
    requires p <= |s| && forall i :: p <= i < |s| ==> s[i].time > x.time
    ensures WithTime(s[..p] + [x] + s[p..], t) == WithTime(s, t) + (if x.time == t then [x] else [])
  {
    var before, after := s[..p], s[p..];
    assert s == before + after;
    var wb, wa, wx := WithTime(before, t), WithTime(after, t), WithTime([x], t);
    WithTimeConcat(before + [x], after, t);
    WithTimeConcat(before, [x], t);
    WithTimeConcat(before, after, t);
    WithTimeSingle(x, t);
    if x.time == t {
      assert forall y :: y in after ==> y.time != t;
      WithTimeNone(after, t);
      assert wa == [];
      assert WithTime(before + [x] + after, t) == wb + [x];
    } else {
      assert wx == [];
      assert WithTime(before + [x] + after, t) == wb + wa;
    }
  }

  /** Inserting `x` only adds it after the records of its own time already there. */
  lemma InsertStable(s: seq<Stamped>, x: Stamped, t: int)
    requires SortedByTime(s)
    ensures WithTime(Insert(s, x), t) == WithTime(s, t) + (if x.time == t then [x] else [])
  {
    AfterInsertPosition(s, x.time);
    SpliceStable(s, InsertPosition(s, x.time), x, t);
  }

  /** Stability: among records of equal time the sorted order is the arrival order. */
  lemma {:induction false} SortStable(s: seq<Stamped>, t: int)
    ensures WithTime(SortByTime(s), t) == WithTime(s, t)
  {
    if |s| > 0 {
      var init, last := s[..|s| - 1], s[|s| - 1];
      SortStable(init, t);
      SortByTimeSound(init);
      InsertStable(SortByTime(init), last, t);
    }
  }

  /** The last record of `s` is the last one selected for its own time. */
  lemma WithTimeLast(s: seq<Stamped>)
    requires |s| > 0
    ensures var w := WithTime(s, s[|s| - 1].time); |w| > 0 && w[|w| - 1] == s[|s| - 1]
  {
  }

  /** Whatever is selected from a sorted sequence is not later than its last record. */
  lemma WithTimeBounded(s: seq<Stamped>, t: int)
    requires SortedByTime(s) && |s| > 0 && WithTime(s, t) != []
    ensures t <= s[|s| - 1].time
  {
    var w := WithTime(s, t);
    WithTimeMember(s, t, w[0]);
    var k :| 0 <= k < |s| && s[k] == w[0];
    if k < |s| - 1 {
      assert s[k].time <= s[|s| - 1].time;
    }
  }

  /** Two time-sorted non-empty sequences that agree on the records of every time end
      with the same record. */
  lemma LastTimesAgree(u: seq<Stamped>, v: seq<Stamped>)
    requires SortedByTime(u) && SortedByTime(v) && |u| > 0 && |v| > 0
    requires forall t :: WithTime(u, t) == WithTime(v, t)
    ensures u[|u| - 1] == v[|v| - 1]
  {
    var x, y := u[|u| - 1], v[|v| - 1];
    WithTimeLast(u);
    WithTimeLast(v);
    assert WithTime(u, x.time) == WithTime(v, x.time);
    assert WithTime(u, y.time) == WithTime(v, y.time);
    WithTimeBounded(v, x.time);
    WithTimeBounded(u, y.time);
  }

  /** Two time-sorted sequences that agree on the records of every time are equal. */
  lemma {:induction false} SortedEqualByTimes(u: seq<Stamped>, v: seq<Stamped>)
    requires SortedByTime(u) && SortedByTime(v)
    requires forall t :: WithTime(u, t) == WithTime(v, t)
    ensures u == v
    decreases |u| + |v|
  {
    if |u| == 0 && |v| > 0 {
      assert WithTime(u, v[|v| - 1].time) == [];
      WithTimeLast(v);
    } else if |v| == 0 && |u| > 0 {
      assert WithTime(v, u[|u| - 1].time) == [];
      WithTimeLast(u);
    } else if |u| > 0 && |v| > 0 {
      LastTimesAgree(u, v);
      var u', v', l := u[..|u| - 1], v[..|v| - 1], u[|u| - 1];
      forall t
        ensures WithTime(u', t) == WithTime(v', t)
      {
        var wu, wv := WithTime(u, t), WithTime(v, t);
        assert wu == wv;
        var tail := if l.time == t then [l] else [];
        assert wu == WithTime(u', t) + tail;
        assert wv == WithTime(v', t) + tail;
        assert WithTime(u', t) == wu[..|wu| - |tail|];
        assert WithTime(v', t) == wv[..|wv| - |tail|];
      }
      assert SortedByTime(u') && SortedByTime(v');
      SortedEqualByTimes(u', v');
      assert u == u' + [l] && v == v' + [l];
    }
  }

  /** The sort is the only stable sort by time: any sequence ordered by time that keeps
      the arrival order among records of equal time is the sorted partition. */
  lemma StableSortIsUnique(s: seq<Stamped>, u: seq<Stamped>)
    requires SortedByTime(u) && forall t :: WithTime(u, t) == WithTime(s, t)
    ensures u == SortByTime(s)
  {
    var r := SortByTime(s);
    SortByTimeSound(s);
    forall t
      ensures WithTime(u, t) == WithTime(r, t)
    {
      SortStable(s, t);
    }
    SortedEqualByTimes(u, r);
  }

  /** Sorting one partition by its time field: the keys are computed first, and a
      record whose time is missing or not an integer aborts the sort. */
  function SortPartition(s: seq<Record>, tf: string): Result<seq<Stamped>>
  {
    match Stamp(s, tf)
    case Err(e) => Err(e)
    case Ok(keyed) => Ok(SortByTime(keyed))
  }

  /** Sorting a partition fails exactly when some record has no integer time, with the
      error of the first such record; otherwise it delivers every record once, sorted,
      each carrying the time parsed from its own time field. */
  lemma SortPartitionSound(s: seq<Record>, tf: string)
    ensures SortPartition(s, tf).Ok? <==> AllTimed(s, tf)
    ensures SortPartition(s, tf).Err? ==> FirstTimeError(s, tf, SortPartition(s, tf).error)
    ensures SortPartition(s, tf).Ok? ==>
      var v := SortPartition(s, tf).value;
      && SortedByTime(v) && |v| == |s|
      && (forall x :: x in v ==> x.record in s && TimeOf(x.record, tf) == Ok(x.time))
  {
    StampSound(s, tf);
    if Stamp(s, tf).Ok? {
      var keyed := Stamp(s, tf).value;
      var v := SortByTime(keyed);
      SortByTimeSound(keyed);
      assert |v| == |multiset(v)| == |multiset(keyed)| == |keyed|;
      forall x | x in v
        ensures x.record in s && TimeOf(x.record, tf) == Ok(x.time)
      {
        assert x in multiset(v);
        var i :| 0 <= i < |keyed| && keyed[i] == x;
      }
    }
  }

  lemma UnstampedConcat(a: seq<Stamped>, b: seq<Stamped>)
    ensures Unstamped(a + b) == Unstamped(a) + Unstamped(b)
  {
    var l, r := Unstamped(a + b), Unstamped(a) + Unstamped(b);
    forall i | 0 <= i < |l|
      ensures l[i] == r[i]
    {
      if i < |a| {
        assert (a + b)[i] == a[i];
      } else {
        assert (a + b)[i] == b[i - |a|];
      }
    }
  }

  lemma InsertKeepsRecords(u: seq<Stamped>, x: Stamped)
    ensures multiset(Unstamped(Insert(u, x))) == multiset(Unstamped(u)) + multiset{x.record}
  {
    var p := InsertPosition(u, x.time);
    var a, b := u[..p], u[p..];
    assert u == a + b;
    UnstampedConcat(a, b);
    UnstampedConcat(a + [x], b);
    UnstampedConcat(a, [x]);
    assert Unstamped([x]) == [x.record];
  }

  /** The sort by time rearranges the records and nothing else. */
  lemma {:induction false} SortByTimeKeepsRecords(s: seq<Stamped>)
    ensures multiset(Unstamped(SortByTime(s))) == multiset(Unstamped(s))
  {
    if |s| > 0 {
      var init, x := s[..|s| - 1], s[|s| - 1];
      assert s == init + [x];
      SortByTimeKeepsRecords(init);
      var u := SortByTime(init);
      assert SortByTime(s) == Insert(u, x);
      InsertKeepsRecords(u, x);
      UnstampedConcat(init, [x]);
      assert Unstamped([x]) == [x.record];
    }
  }

  /** A sorted partition holds exactly the records of the partition, each as often as
      it arrived; in particular it repeats a record exactly when the partition does. */
  lemma SortPartitionPermutes(s: seq<Record>, tf: string)
    requires SortPartition(s, tf).Ok?
    ensures multiset(Unstamped(SortPartition(s, tf).value)) == multiset(s)
    ensures NoDuplicates(Unstamped(SortPartition(s, tf).value)) <==> NoDuplicates(s)
  {
    StampSound(s, tf);
    var keyed := Stamp(s, tf).value;
    SortByTimeKeepsRecords(keyed);
    assert Unstamped(keyed) == s;
    NoDuplicatesIffCounts(s);
    NoDuplicatesIffCounts(Unstamped(SortPartition(s, tf).value));
  }
}
