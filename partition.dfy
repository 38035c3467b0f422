/** Grouping the incoming records by the value of the partition field, in a dictionary
    whose keys keep the order in which they were first seen. */
module Partitioning {
  import opened Records

  /** Every record carries the partition field. */
  predicate AllKeyed(rs: seq<Record>, pf: string) {
    forall r :: r in rs ==> pf in r
  }

  predicate NoDuplicates<T(==)>(s: seq<T>) {
    forall i, j :: 0 <= i < j < |s| ==> s[i] != s[j]
  }

  /** Two equal elements at different positions make that element occur twice. */
  lemma TwoCopies<T>(v: seq<T>, i: nat, j: nat)
    requires i < j < |v| && v[i] == v[j]
    ensures multiset(v)[v[i]] >= 2
  {
    assert v == v[..j] + [v[j]] + v[j + 1..];
    assert v[i] in v[..j];
  }

  /** A sequence has no repeated element exactly when no element occurs twice in it. */
  lemma {:induction false} NoDuplicatesIffCounts<T>(v: seq<T>)
    ensures NoDuplicates(v) <==> forall x :: multiset(v)[x] <= 1
  {
    if |v| > 0 {
      var init, y := v[..|v| - 1], v[|v| - 1];
      assert v == init + [y];
      NoDuplicatesIffCounts(init);
      if NoDuplicates(v) {
        assert forall i :: 0 <= i < |init| ==> init[i] == v[i];
        assert y !in init;
      } else {
        var i, j :| 0 <= i < j < |v| && v[i] == v[j];
        TwoCopies(v, i, j);
      }
    }
  }

  /** The partition values of `rs`, each once, in order of first appearance. */
  function Keys(rs: seq<Record>, pf: string): (ks: seq<string>)
    ensures NoDuplicates(ks)
  {
    if |rs| == 0 then []
    else
      var ks := Keys(rs[..|rs| - 1], pf);
      var r := rs[|rs| - 1];
      if pf !in r || r[pf] in ks then ks else ks + [r[pf]]
  }

  /** The keys are exactly the partition values that occur. */
  lemma {:induction false} KeysAreValuesSeen(rs: seq<Record>, pf: string, k: string)
    ensures k in Keys(rs, pf) <==> exists i :: 0 <= i < |rs| && pf in rs[i] && rs[i][pf] == k
  {
    if |rs| > 0 {
      var init := rs[..|rs| - 1];
      KeysAreValuesSeen(init, pf, k);
      assert forall i :: 0 <= i < |init| ==> init[i] == rs[i];
    }
  }

  /** The records of `rs` whose partition value is `k`, in arrival order. */
  function Bucket(rs: seq<Record>, pf: string, k: string): (b: seq<Record>)
    ensures |b| <= |rs|
  {
    if |rs| == 0 then []
    else
      var r := rs[|rs| - 1];
      Bucket(rs[..|rs| - 1], pf, k) + (if pf in r && r[pf] == k then [r] else [])
  }

  /** A bucket holds input records with its own partition value, and only those. */
  lemma {:induction false} BucketSound(rs: seq<Record>, pf: string, k: string)
    ensures forall r :: r in Bucket(rs, pf, k) ==> r in rs && pf in r && r[pf] == k
  {
    if |rs| > 0 {
      var prev := rs[..|rs| - 1];
      BucketSound(prev, pf, k);
      forall r | r in prev
        ensures r in rs
      {
        var i :| 0 <= i < |prev| && prev[i] == r;
        assert rs[i] == r;
      }
    }
  }

  /** A partition value that was never seen has an empty bucket, and one that was seen
      has a non-empty one. */
  lemma {:induction false} BucketNonEmptyIff(rs: seq<Record>, pf: string, k: string)
    ensures |Bucket(rs, pf, k)| > 0 <==> k in Keys(rs, pf)
  {
    if |rs| > 0 {
      BucketNonEmptyIff(rs[..|rs| - 1], pf, k);
    }
  }

  /** Records that arrive once each land in their bucket once each. */
  lemma {:induction false} BucketNoDuplicates(rs: seq<Record>, pf: string, k: string)
    requires NoDuplicates(rs)
    ensures NoDuplicates(Bucket(rs, pf, k))
  {
    if |rs| > 0 {
      var init, r := rs[..|rs| - 1], rs[|rs| - 1];
      assert forall i :: 0 <= i < |init| ==> init[i] == rs[i];
      BucketNoDuplicates(init, pf, k);
      BucketSound(init, pf, k);
      assert r !in init;
      var b, prev := Bucket(rs, pf, k), Bucket(init, pf, k);
      assert r !in prev;
      forall i, j | 0 <= i < j < |b|
        ensures b[i] != b[j]
      {
        if j < |prev| {
          assert b[i] == prev[i] && b[j] == prev[j];
        } else {
          assert b[i] == prev[i] && prev[i] in prev;
        }
      }
    }
  }

  /** The dictionary of lists, as its keys in insertion order and the lists they map to. */
  datatype Partitions = Partitions(keys: seq<string>, buckets: map<string, seq<Record>>)

  /** The partition loop: a record without the partition field aborts with that field's
      name, otherwise each record is appended to the list for its value. */
  method Partition(rs: seq<Record>, pf: string) returns (res: Result<Partitions>)
    ensures res.Err? <==> !AllKeyed(rs, pf)
    ensures res.Err? ==> res.error == MissingField(pf)
    ensures res.Ok? ==> res.value.keys == Keys(rs, pf)
    ensures res.Ok? ==> forall k :: k in res.value.buckets <==> k in Keys(rs, pf)
    ensures res.Ok? ==> forall k :: k in res.value.buckets ==> res.value.buckets[k] == Bucket(rs, pf, k)
  {
    var keys: seq<string> := [];
    var byKey: map<string, seq<Record>> := map[];
    for i := 0 to |rs|
      invariant AllKeyed(rs[..i], pf)
      invariant keys == Keys(rs[..i], pf)
      invariant forall k :: k in byKey <==> k in keys
      invariant forall k :: k in byKey ==> byKey[k] == Bucket(rs[..i], pf, k)
    {
      var record := rs[i];
      if pf !in record {
        return Err(MissingField(pf));
      }
      var k := record[pf];
      assert rs[..i + 1][..i] == rs[..i];
      if k !in byKey {
        BucketNonEmptyIff(rs[..i], pf, k);
        byKey := byKey[k := []];
        keys := keys + [k];
      }
      byKey := byKey[k := byKey[k] + [record]];
    }
    assert rs[..|rs|] == rs;
    return Ok(Partitions(keys, byKey));
  }

  // ---------------------------------------------------------------------------
  // The buckets partition the input
  // ---------------------------------------------------------------------------

  /** The lists of the given keys, one after the other. */
  function Flattened(rs: seq<Record>, pf: string, ks: seq<string>): seq<Record>
  {
    if |ks| == 0 then [] else Flattened(rs, pf, ks[..|ks| - 1]) + Bucket(rs, pf, ks[|ks| - 1])
  }

  lemma FlattenedSnoc(rs: seq<Record>, pf: string, ks: seq<string>, k: string)
    ensures Flattened(rs, pf, ks + [k]) == Flattened(rs, pf, ks) + Bucket(rs, pf, k)
  {
    assert (ks + [k])[..|ks|] == ks;
  }

  lemma FlattenedSplit(rs: seq<Record>, pf: string, ks: seq<string>)
    requires |ks| > 0
    ensures multiset(Flattened(rs, pf, ks)) ==
      multiset(Flattened(rs, pf, ks[..|ks| - 1])) + multiset(Bucket(rs, pf, ks[|ks| - 1]))
  {
  }

  lemma BucketSplit(rs: seq<Record>, pf: string, k: string)
    requires |rs| > 0
    ensures var r := rs[|rs| - 1];
      multiset(Bucket(rs, pf, k)) ==
      multiset(Bucket(rs[..|rs| - 1], pf, k)) + (if pf in r && r[pf] == k then multiset{r} else multiset{})
  {
  }

  /** Dropping the last key keeps the keys distinct, and the last key is not among the
      others. */
  lemma NoDuplicatesSplit(ks: seq<string>)
    requires |ks| > 0 && NoDuplicates(ks)
    ensures NoDuplicates(ks[..|ks| - 1]) && ks[|ks| - 1] !in ks[..|ks| - 1]
  {
  }

  /** The last record lands in exactly one list among keys `ks` if its value is one of
      them, and in none otherwise. */
  lemma {:induction false} FlattenedLast(rs: seq<Record>, pf: string, ks: seq<string>)
    requires |rs| > 0 && NoDuplicates(ks)
    ensures var r := rs[|rs| - 1];
      multiset(Flattened(rs, pf, ks)) ==
      multiset(Flattened(rs[..|rs| - 1], pf, ks)) + Landing(r, pf, ks)
  {
    var r, prev := rs[|rs| - 1], rs[..|rs| - 1];
    if |ks| > 0 {
      var init, last := ks[..|ks| - 1], ks[|ks| - 1];
      NoDuplicatesSplit(ks);
      FlattenedLast(rs, pf, init);
      FlattenedSplit(rs, pf, ks);
      FlattenedSplit(prev, pf, ks);
      BucketSplit(rs, pf, last);
      KeyAmongSplit(r, pf, ks);
    }
  }

  /** The multiset a record adds when its partition value is one of `ks`. */
  function Landing(r: Record, pf: string, ks: seq<string>): multiset<Record> {
    if pf in r && r[pf] in ks then multiset{r} else multiset{}
  }

  /** A record whose value is among distinct keys lands under exactly one of them. */
  lemma KeyAmongSplit(r: Record, pf: string, ks: seq<string>)
    requires |ks| > 0 && ks[|ks| - 1] !in ks[..|ks| - 1]
    ensures Landing(r, pf, ks) ==
      Landing(r, pf, ks[..|ks| - 1]) + (if pf in r && r[pf] == ks[|ks| - 1] then multiset{r} else multiset{})
  {
    assert ks == ks[..|ks| - 1] + [ks[|ks| - 1]];
  }

  /** Concatenating the lists in key order yields exactly the input records, each as
      often as it arrived: nothing is lost, duplicated or invented. */
  lemma {:induction false} PartitionIsPermutation(rs: seq<Record>, pf: string)
    requires AllKeyed(rs, pf)
    ensures multiset(Flattened(rs, pf, Keys(rs, pf))) == multiset(rs)
  {
    if |rs| > 0 {
      var init, r := rs[..|rs| - 1], rs[|rs| - 1];
      assert rs == init + [r];
      var ks := Keys(init, pf);
      FlattenedLast(rs, pf, ks);
      PartitionIsPermutation(init, pf);
      if r[pf] !in ks {
        BucketNonEmptyIff(init, pf, r[pf]);
        assert Bucket(rs, pf, r[pf]) == [r];
        FlattenedSnoc(rs, pf, ks, r[pf]);
      }
    }
  }
}
