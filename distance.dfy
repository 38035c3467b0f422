/** The two string metrics the engine compares values with. Both are defined on prefixes,
    so that the recurrences below are literally the cells of the dynamic-programming
    tables the methods at the end of this module fill. */
module EditDistance {

  function Min(x: nat, y: nat): nat {
    if x <= y then x else y
  }

  function Min3(x: nat, y: nat, z: nat): nat {
    Min(x, Min(y, z))
  }

  /** Cost of aligning two characters: free when equal, one substitution otherwise. */
  function Cost(x: char, y: char): nat {
    if x == y then 0 else 1
  }

  /** Levenshtein distance between the first `i` characters of `a` and the first `j` of
      `b`: fewest single-character insertions, deletions and substitutions turning one
      into the other. */
  function LevPrefix(a: string, b: string, i: nat, j: nat): nat
    requires i <= |a| && j <= |b|
    decreases i + j, 1
  {
    if i == 0 then j
    else if j == 0 then i
    else LevInner(a, b, i, j)
  }

  /** An inner cell of the Levenshtein table. */
  function LevInner(a: string, b: string, i: nat, j: nat): nat
    requires 0 < i <= |a| && 0 < j <= |b|
    decreases i + j, 0
  {
    LevCell(a, b, i, j, LevPrefix(a, b, i - 1, j), LevPrefix(a, b, i, j - 1), LevPrefix(a, b, i - 1, j - 1))
  }

  /** A cell of the Levenshtein table from the cells above, to the left and diagonally
      above-left of it: delete, insert, or substitute (free for equal characters). */
  function LevCell(a: string, b: string, i: nat, j: nat, up: nat, left: nat, diag: nat): nat
    requires 0 < i <= |a| && 0 < j <= |b|
  {
    Min3(up + 1, left + 1, diag + Cost(a[i - 1], b[j - 1]))
  }

  function Lev(a: string, b: string): nat {
    LevPrefix(a, b, |a|, |b|)
  }

  /** The Levenshtein distance as a call with a score cutoff reports it: exact up to
      `cutoff`, and `cutoff + 1` for every distance beyond it. */
  function LevCutoff(a: string, b: string, cutoff: int): int {
    if Lev(a, b) <= cutoff then Lev(a, b) else cutoff + 1
  }

  /** Characters `i - 2` and `i - 1` of `a` are characters `j - 1` and `j - 2` of `b`. */
  predicate Swapped(a: string, b: string, i: nat, j: nat)
    requires i <= |a| && j <= |b|
  {
    i >= 2 && j >= 2 && a[i - 1] == b[j - 2] && a[i - 2] == b[j - 1]
  }

  /** Damerau-Levenshtein distance between prefixes, in its optimal-string-alignment
      form: Levenshtein distance where swapping two adjacent characters is also one
      operation. */
  function DamPrefix(a: string, b: string, i: nat, j: nat): nat
    requires i <= |a| && j <= |b|
    decreases i + j, 1
  {
    if i == 0 then j
    else if j == 0 then i
    else DamInner(a, b, i, j)
  }

  /** An inner cell of the optimal-string-alignment table. */
  function DamInner(a: string, b: string, i: nat, j: nat): nat
    requires 0 < i <= |a| && 0 < j <= |b|
    decreases i + j, 0
  {
    DamCell(a, b, i, j, DamPrefix(a, b, i - 1, j), DamPrefix(a, b, i, j - 1), DamPrefix(a, b, i - 1, j - 1),
            if Swapped(a, b, i, j) then DamPrefix(a, b, i - 2, j - 2) else 0)
  }

  /** A cell of the optimal-string-alignment table: the Levenshtein choices, plus a
      transposition from two cells back diagonally when the last two characters swap. */
  function DamCell(a: string, b: string, i: nat, j: nat, up: nat, left: nat, diag: nat, diag2: nat): nat
    requires 0 < i <= |a| && 0 < j <= |b|
  {
    var m := LevCell(a, b, i, j, up, left, diag);
    if Swapped(a, b, i, j) then Min(m, diag2 + 1) else m
  }

  function Dam(a: string, b: string): nat {
    DamPrefix(a, b, |a|, |b|)
  }

  // ---------------------------------------------------------------------------
  // Properties of the metrics
  // ---------------------------------------------------------------------------

  lemma PrefixExtend(a: string, i: nat)
    requires 0 < i <= |a|
    ensures a[..i] == a[..i - 1] + [a[i - 1]]
  {
  }

  /** Two prefixes are at Levenshtein distance zero exactly when they are equal. */
  lemma {:induction false} LevPrefixZeroIff(a: string, b: string, i: nat, j: nat)
    requires i <= |a| && j <= |b|
    ensures LevPrefix(a, b, i, j) == 0 <==> a[..i] == b[..j]
    decreases i + j
  {
    if i > 0 && j > 0 {
      LevPrefixZeroIff(a, b, i - 1, j - 1);
      PrefixExtend(a, i);
      PrefixExtend(b, j);
      if a[..i] == b[..j] {
        assert a[..i - 1] == b[..j - 1] && a[i - 1] == b[j - 1];
      }
    }
  }

  /** A string is at Levenshtein distance zero from exactly itself. */
  lemma LevZeroIff(a: string, b: string)
    ensures Lev(a, b) == 0 <==> a == b
  {
    LevPrefixZeroIff(a, b, |a|, |b|);
    assert a[..|a|] == a && b[..|b|] == b;
  }

  lemma {:induction false} DamPrefixZeroIff(a: string, b: string, i: nat, j: nat)
    requires i <= |a| && j <= |b|
    ensures DamPrefix(a, b, i, j) == 0 <==> a[..i] == b[..j]
    decreases i + j
  {
    if i > 0 && j > 0 {
      DamPrefixZeroIff(a, b, i - 1, j - 1);
      PrefixExtend(a, i);
      PrefixExtend(b, j);
      if a[..i] == b[..j] {
        assert a[..i - 1] == b[..j - 1] && a[i - 1] == b[j - 1];
      }
    }
  }

  /** A string is at Damerau-Levenshtein distance zero from exactly itself. */
  lemma DamZeroIff(a: string, b: string)
    ensures Dam(a, b) == 0 <==> a == b
  {
    DamPrefixZeroIff(a, b, |a|, |b|);
    assert a[..|a|] == a && b[..|b|] == b;
  }

  lemma {:induction false} LevPrefixSymmetric(a: string, b: string, i: nat, j: nat)
    requires i <= |a| && j <= |b|
    ensures LevPrefix(a, b, i, j) == LevPrefix(b, a, j, i)
    decreases i + j
  {
    if i > 0 && j > 0 {
      LevPrefixSymmetric(a, b, i - 1, j);
      LevPrefixSymmetric(a, b, i, j - 1);
      LevPrefixSymmetric(a, b, i - 1, j - 1);
    }
  }

  /** The Levenshtein distance does not depend on the order of its arguments. */
  lemma LevSymmetric(a: string, b: string)
    ensures Lev(a, b) == Lev(b, a)
  {
    LevPrefixSymmetric(a, b, |a|, |b|);
  }

  /** The step functions treat their two strings alike. */
  lemma StepSymmetric(a: string, b: string, i: nat, j: nat, up: nat, left: nat, diag: nat, diag2: nat)
    requires 0 < i <= |a| && 0 < j <= |b|
    ensures LevCell(a, b, i, j, up, left, diag) == LevCell(b, a, j, i, left, up, diag)
    ensures Swapped(a, b, i, j) == Swapped(b, a, j, i)
    ensures DamCell(a, b, i, j, up, left, diag, diag2) == DamCell(b, a, j, i, left, up, diag, diag2)
  {
  }

  lemma {:induction false} DamPrefixSymmetric(a: string, b: string, i: nat, j: nat)
    requires i <= |a| && j <= |b|
    ensures DamPrefix(a, b, i, j) == DamPrefix(b, a, j, i)
    decreases i + j
  {
    if i > 0 && j > 0 {
      DamPrefixSymmetric(a, b, i - 1, j);
      DamPrefixSymmetric(a, b, i, j - 1);
      DamPrefixSymmetric(a, b, i - 1, j - 1);
      var d2 := 0;
      if Swapped(a, b, i, j) {
        DamPrefixSymmetric(a, b, i - 2, j - 2);
        d2 := DamPrefix(a, b, i - 2, j - 2);
      }
      StepSymmetric(a, b, i, j, DamPrefix(a, b, i - 1, j), DamPrefix(a, b, i, j - 1), DamPrefix(a, b, i - 1, j - 1), d2);
    }
  }

  /** The Damerau-Levenshtein distance does not depend on the order of its arguments. */
  lemma DamSymmetric(a: string, b: string)
    ensures Dam(a, b) == Dam(b, a)
  {
    DamPrefixSymmetric(a, b, |a|, |b|);
  }

  lemma {:induction false} DamPrefixAtMostLev(a: string, b: string, i: nat, j: nat)
    requires i <= |a| && j <= |b|
    ensures DamPrefix(a, b, i, j) <= LevPrefix(a, b, i, j)
    decreases i + j
  {
    if i > 0 && j > 0 {
      DamPrefixAtMostLev(a, b, i - 1, j);
      DamPrefixAtMostLev(a, b, i, j - 1);
      DamPrefixAtMostLev(a, b, i - 1, j - 1);
    }
  }

  /** Allowing transpositions never makes the distance larger. */
  lemma DamAtMostLev(a: string, b: string)
    ensures Dam(a, b) <= Lev(a, b)
  {
    DamPrefixAtMostLev(a, b, |a|, |b|);
  }

  lemma {:induction false} LevPrefixBounds(a: string, b: string, i: nat, j: nat)
    requires i <= |a| && j <= |b|
    ensures i - j <= LevPrefix(a, b, i, j) && j - i <= LevPrefix(a, b, i, j)
    ensures LevPrefix(a, b, i, j) <= if i <= j then j else i
    decreases i + j
  {
    if i > 0 && j > 0 {
      LevPrefixBounds(a, b, i - 1, j);
      LevPrefixBounds(a, b, i, j - 1);
      LevPrefixBounds(a, b, i - 1, j - 1);
    }
  }

  /** Each operation changes the length by at most one, and the longer string bounds the
      distance from above. */
  lemma LevLengthBounds(a: string, b: string)
    ensures |a| - |b| <= Lev(a, b) && |b| - |a| <= Lev(a, b)
    ensures Lev(a, b) <= if |a| <= |b| then |b| else |a|
  {
    LevPrefixBounds(a, b, |a|, |b|);
  }

  lemma {:induction false} DamPrefixLowerBound(a: string, b: string, i: nat, j: nat)
    requires i <= |a| && j <= |b|
    ensures i - j <= DamPrefix(a, b, i, j) && j - i <= DamPrefix(a, b, i, j)
    decreases i + j
  {
    if i > 0 && j > 0 {
      DamPrefixLowerBound(a, b, i - 1, j);
      DamPrefixLowerBound(a, b, i, j - 1);
      DamPrefixLowerBound(a, b, i - 1, j - 1);
      if Swapped(a, b, i, j) {
        DamPrefixLowerBound(a, b, i - 2, j - 2);
      }
    }
  }

  /** The length difference is also a lower bound with transpositions allowed. */
  lemma DamLengthBound(a: string, b: string)
    ensures |a| - |b| <= Dam(a, b) && |b| - |a| <= Dam(a, b)
  {
    DamPrefixLowerBound(a, b, |a|, |b|);
  }

  /** Occurrences of `c` among the first `n` characters of `s`. */
  function Occurrences(s: string, n: nat, c: char): nat
    requires n <= |s|
  {
    if n == 0 then 0 else Occurrences(s, n - 1, c) + (if s[n - 1] == c then 1 else 0)
  }

  /** Positions below `n` where `a` and `b` hold different characters. */
  function Mismatches(a: string, b: string, n: nat): nat
    requires n <= |a| && n <= |b|
  {
    if n == 0 then 0 else Mismatches(a, b, n - 1) + Cost(a[n - 1], b[n - 1])
  }

  /** Every edit operation adds at most one occurrence of a character, so the surplus of
      `c` in the target bounds the distance from below. */
  lemma {:induction false} LevPrefixOccurrences(a: string, b: string, i: nat, j: nat, c: char)
    requires i <= |a| && j <= |b|
    ensures Occurrences(b, j, c) - Occurrences(a, i, c) <= LevPrefix(a, b, i, j)
    decreases i + j
  {
    if i == 0 {
      OccurrencesAtMost(b, j, c);
    } else if j == 0 {
    } else {
      LevPrefixOccurrences(a, b, i - 1, j, c);
      LevPrefixOccurrences(a, b, i, j - 1, c);
      LevPrefixOccurrences(a, b, i - 1, j - 1, c);
    }
  }

  lemma {:induction false} OccurrencesAtMost(s: string, n: nat, c: char)
    requires n <= |s|
    ensures Occurrences(s, n, c) <= n
  {
    if n > 0 {
      OccurrencesAtMost(s, n - 1, c);
    }
  }

  /** A character `b` has more of than `a` needs at least that many edits. */
  lemma LevOccurrencesBound(a: string, b: string, c: char)
    ensures Occurrences(b, |b|, c) - Occurrences(a, |a|, c) <= Lev(a, b)
  {
    LevPrefixOccurrences(a, b, |a|, |b|, c);
  }

  /** Aligning equal-length strings position by position costs one substitution per
      mismatch, so the Hamming distance bounds the distance from above. */
  lemma {:induction false} LevPrefixAtMostMismatches(a: string, b: string, n: nat)
    requires n <= |a| && n <= |b|
    ensures LevPrefix(a, b, n, n) <= Mismatches(a, b, n)
  {
    if n > 0 {
      LevPrefixAtMostMismatches(a, b, n - 1);
    }
  }

  lemma LevAtMostMismatches(a: string, b: string)
    requires |a| == |b|
    ensures Lev(a, b) <= Mismatches(a, b, |a|)
  {
    LevPrefixAtMostMismatches(a, b, |a|);
  }

  /** The cutoff result equals a threshold `c` exactly when the true distance does, so
      testing the cutoff result against the cutoff itself tests the distance. */
  lemma CutoffMatchesExactly(a: string, b: string, c: int)
    ensures LevCutoff(a, b, c) == c <==> Lev(a, b) == c
    ensures LevCutoff(a, b, c) <= c ==> LevCutoff(a, b, c) == Lev(a, b)
  {
  }

  // ---------------------------------------------------------------------------
  // Dynamic-programming evaluation
  // ---------------------------------------------------------------------------

  /** Row `i + 1` of the Levenshtein table, given row `i`. */
  method LevRow(a: string, b: string, i: nat, prev: seq<nat>) returns (cur: seq<nat>)
    requires i < |a| && |prev| == |b| + 1
    requires forall k :: 0 <= k <= |b| ==> prev[k] == LevPrefix(a, b, i, k)
    ensures |cur| == |b| + 1
    ensures forall k :: 0 <= k <= |b| ==> cur[k] == LevPrefix(a, b, i + 1, k)
  {
    cur := [i + 1];
    var j := 1;
    while j <= |b|
      invariant 1 <= j <= |b| + 1 && |cur| == j
      invariant forall k :: 0 <= k < j ==> cur[k] == LevPrefix(a, b, i + 1, k)
    {
      cur := cur + [LevCell(a, b, i + 1, j, prev[j], cur[j - 1], prev[j - 1])];
      j := j + 1;
    }
  }

  /** Row-by-row Levenshtein table: after row `i`, `row[k]` is the distance between the
      first `i` characters of `a` and the first `k` of `b`. */
  method Levenshtein(a: string, b: string) returns (d: nat)
    ensures d == Lev(a, b)
  {
    var row: seq<nat> := [];
    var k := 0;
    while k <= |b|
      invariant 0 <= k <= |b| + 1 && |row| == k
      invariant forall q :: 0 <= q < k ==> row[q] == LevPrefix(a, b, 0, q)
    {
      row := row + [k];
      k := k + 1;
    }
    var i := 0;
    while i < |a|
      invariant 0 <= i <= |a| && |row| == |b| + 1
      invariant forall q :: 0 <= q <= |b| ==> row[q] == LevPrefix(a, b, i, q)
    {
      row := LevRow(a, b, i, row);
      i := i + 1;
    }
    d := row[|b|];
  }

  /** The distance as reported with a score cutoff. */
  method LevenshteinWithCutoff(a: string, b: string, cutoff: int) returns (d: int)
    ensures d == LevCutoff(a, b, cutoff)
  {
    d := Levenshtein(a, b);
    if d > cutoff {
      d := cutoff + 1;
    }
  }

  /** Row `i + 1` of the optimal-string-alignment table, given rows `i - 1` and `i`. */
  method DamRow(a: string, b: string, i: nat, older: seq<nat>, prev: seq<nat>) returns (cur: seq<nat>)
    requires i < |a| && |prev| == |b| + 1 && |older| == |b| + 1
    requires forall k :: 0 <= k <= |b| ==> prev[k] == DamPrefix(a, b, i, k)
    requires i > 0 ==> forall k :: 0 <= k <= |b| ==> older[k] == DamPrefix(a, b, i - 1, k)
    ensures |cur| == |b| + 1
    ensures forall k :: 0 <= k <= |b| ==> cur[k] == DamPrefix(a, b, i + 1, k)
  {
    cur := [i + 1];
    var j := 1;
    while j <= |b|
      invariant 1 <= j <= |b| + 1 && |cur| == j
      invariant forall k :: 0 <= k < j ==> cur[k] == DamPrefix(a, b, i + 1, k)
    {
      var diag2 := if Swapped(a, b, i + 1, j) then older[j - 2] else 0;
      assert diag2 == if Swapped(a, b, i + 1, j) then DamPrefix(a, b, i - 1, j - 2) else 0;
      cur := cur + [DamCell(a, b, i + 1, j, prev[j], cur[j - 1], prev[j - 1], diag2)];
      j := j + 1;
    }
  }

  /** Optimal-string-alignment table, keeping the two previous rows for transpositions. */
  method DamerauLevenshtein(a: string, b: string) returns (d: nat)
    ensures d == Dam(a, b)
  {
    var row: seq<nat> := [];
    var k := 0;
    while k <= |b|
      invariant 0 <= k <= |b| + 1 && |row| == k
      invariant forall q :: 0 <= q < k ==> row[q] == DamPrefix(a, b, 0, q)
    {
      row := row + [k];
      k := k + 1;
    }
    var older := row;
    var i := 0;
    while i < |a|
      invariant 0 <= i <= |a| && |row| == |b| + 1 && |older| == |b| + 1
      invariant forall q :: 0 <= q <= |b| ==> row[q] == DamPrefix(a, b, i, q)
      invariant i > 0 ==> forall q :: 0 <= q <= |b| ==> older[q] == DamPrefix(a, b, i - 1, q)
    {
      var next := DamRow(a, b, i, older, row);
      older, row := row, next;
      i := i + 1;
    }
    d := row[|b|];
  }
}
