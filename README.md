# Typo-pair detection, modelled in Dafny

This project models the `typo` search command's transform step (`Typo.transform`). The command
receives a batch of events, each a map from field name to string value. It groups the events by
the `partitionby` field. It sorts each group by the integer value of `timefield`, then walks
neighbouring events in that order. A neighbouring pair at most `windowtime` apart is a candidate.
A candidate pair is emitted, earlier event first, when the `compfield` values are at Levenshtein
distance exactly `levdist` (when `levdist > 0`) or at Damerau-Levenshtein distance exactly
`damdist` (when `damdist > 0`).

Modules, one per stage of the transform:

- `Records` (records.dfy): events as `map<string, string>`, the command options as `Config`,
  and the two ways the transform aborts: a missing field (a `KeyError`) and a time that is not an
  integer (a `ValueError`). It also holds `ParseInt`, a model of Python's `int(text)` on ASCII
  text: surrounding whitespace, an optional sign, and digits with single underscores.
- `Partitioning` (partition.dfy): the dictionary of lists. Keys keep the order in which they
  were first seen, and each list keeps arrival order.
- `EditDistance` (distance.dfy): both metrics as recursive definitions over prefixes. Levenshtein
  counts insert, delete and substitute at cost 1. The Damerau-Levenshtein metric is the
  optimal-string-alignment recurrence, which adds a swap of two adjacent characters at cost 1.
  The cutoff form `LevCutoff` is the exact distance up to the cutoff and `cutoff + 1` beyond it.
  The module also holds row-by-row dynamic-programming methods, each proved equal to its
  definition.
- `TimeOrder` (timeorder.dfy): the key computation of `sorted(..., key=...)`, then a stable sort
  by time. The sort is proved sorted, a permutation and stable. It is also proved to be the only
  sequence with those properties.
- `WindowScan` (scan.dfy): the loop over one sorted partition, as written. Each record's position
  is looked up by value with `list.index`, which returns the FIRST equal record. The record is
  then compared with the successor of the position found. `ScanAdjacent` is the direct
  index-by-index reading. The two are proved equal whenever no record of the partition repeats.
  In general, the step for a repeated record is the step of its first occurrence
  (`AsWrittenRepeatsFirstOccurrence`). Two concrete lemmas show what that changes. In the
  partition `[d, d, x]`, the later `d` is compared with itself, so the pair `(d, x)` is never
  emitted even when it qualifies (`DuplicateHidesNextPair`). A record that comes back later
  re-emits the pair of its first occurrence (`ReturningRecordRepeatsPair`).
- `Typo` (transform.dfy): the driver. It partitions, then sorts and scans each partition in
  first-seen key order and concatenates what each partition emits. The final loop that yields
  the list one record at a time is modelled as returning the completed list.
- `DocstringSample` (sample.dfy): the five sample events of the file's opening docstring, run
  with the options shown there. Only user2's two searches are reported.

Errors follow the order in which the code meets them. First, any record without the partition
field aborts during grouping. Then, partition by partition, a missing or non-integer time aborts
the sort. Last, a missing compared field aborts the scan. The compared field is read only when a
pair is within the window and at least one threshold is above 0, as in the code.

Three points of the code that the model keeps as they are:

- The code looks each record's position up by value with `list.index`
  (Levenshtein/bin/typo.py:91). `ScanAsWritten` and `Typo.Transform` model that. `ScanAdjacent`,
  the index-by-index reading, is proved equal to it when no record repeats.
- The code does not reject negative windows or thresholds. A threshold of 0 or below disables its
  metric, and a negative window admits no pair.
- The compared field is read only for pairs that are compared, so a record that is never
  compared may lack it.

## Model

| member | source | states |
|---|---|---|
| `Records.ParseDecimal` | Levenshtein/bin/typo.py:88 | `int(...)` parses the decimal rendering of any integer back to that integer |
| `Records.ParsePaddedDecimal` | Levenshtein/bin/typo.py:88 | surrounding whitespace does not change the value `int(...)` reads from a decimal time |
| `Partitioning.Partition` | Levenshtein/bin/typo.py:81-85 | the grouping loop fails with the partition field's name exactly when some record lacks that field; otherwise its keys are the values in first-seen order and each list is that value's records in arrival order |
| `Partitioning.Keys` | Levenshtein/bin/typo.py:83-84 | dictionary keys never repeat |
| `Partitioning.KeysAreValuesSeen` | Levenshtein/bin/typo.py:83-84 | a value is a key if and only if some record carries it |
| `Partitioning.BucketSound` | Levenshtein/bin/typo.py:83-85 | a list holds only input records whose partition value is its key |
| `Partitioning.BucketNonEmptyIff` | Levenshtein/bin/typo.py:83-85 | a list is non-empty if and only if its value was seen |
| `Partitioning.BucketNoDuplicates` | Levenshtein/bin/typo.py:85 | input without repeated records gives lists without repeated records |
| `Partitioning.PartitionIsPermutation` | Levenshtein/bin/typo.py:81-85 | the lists, concatenated in key order, are a permutation of the input: nothing is lost, duplicated or invented |
| `EditDistance.Levenshtein` | Levenshtein/bin/typo.py:98 | the dynamic-programming table computes the Levenshtein distance |
| `EditDistance.LevenshteinWithCutoff` | Levenshtein/bin/typo.py:98 | the distance with a score cutoff: exact up to the cutoff, `cutoff + 1` beyond it |
| `EditDistance.DamerauLevenshtein` | Levenshtein/bin/typo.py:100 | the three-row table computes the Damerau-Levenshtein (optimal string alignment) distance |
| `EditDistance.CutoffMatchesExactly` | Levenshtein/bin/typo.py:98-101 | the cutoff result equals the threshold if and only if the true distance does |
| `EditDistance.LevZeroIff` | Levenshtein/bin/typo.py:98 | Levenshtein distance is 0 if and only if the strings are equal |
| `EditDistance.DamZeroIff` | Levenshtein/bin/typo.py:100 | Damerau-Levenshtein distance is 0 if and only if the strings are equal |
| `EditDistance.LevSymmetric` | Levenshtein/bin/typo.py:98 | Levenshtein distance does not depend on argument order |
| `EditDistance.DamSymmetric` | Levenshtein/bin/typo.py:100 | Damerau-Levenshtein distance does not depend on argument order |
| `EditDistance.DamAtMostLev` | Levenshtein/bin/typo.py:98-100 | allowing transpositions never increases the distance |
| `EditDistance.LevLengthBounds` | Levenshtein/bin/typo.py:98 | the length difference bounds the Levenshtein distance from below, and the longer length bounds it from above |
| `EditDistance.DamLengthBound` | Levenshtein/bin/typo.py:100 | the length difference bounds the Damerau-Levenshtein distance from below |
| `EditDistance.LevOccurrencesBound` | Levenshtein/bin/typo.py:98 | the surplus of any character in one string bounds the Levenshtein distance from below |
| `EditDistance.LevAtMostMismatches` | Levenshtein/bin/typo.py:98 | for equal-length strings, the number of differing positions bounds the Levenshtein distance from above |
| `TimeOrder.StampSound` | Levenshtein/bin/typo.py:88 | computing the sort keys succeeds if and only if every record has an integer time, pairing each record with its own time; otherwise it reports the first failing record's error |
| `TimeOrder.SortByTimeSound` | Levenshtein/bin/typo.py:88 | the sort result is ordered by time and is a permutation of its input |
| `TimeOrder.SortStable` | Levenshtein/bin/typo.py:88 | records with equal times keep their input order |
| `TimeOrder.StableSortIsUnique` | Levenshtein/bin/typo.py:88 | any time-ordered sequence that keeps input order among equal times is the sort's result |
| `TimeOrder.SortPartitionSound` | Levenshtein/bin/typo.py:88 | sorting a partition fails if and only if some time is missing or not an integer, with the first such error; otherwise it yields every record once, sorted, with its parsed time |
| `TimeOrder.SortPartitionPermutes` | Levenshtein/bin/typo.py:88 | the sorted partition is a permutation of the partition and repeats a record if and only if the partition does |
| `WindowScan.QualifiesExactly` | Levenshtein/bin/typo.py:95-101 | a pair qualifies if and only if an enabled metric's true distance equals its threshold exactly; the cutoff never changes the verdict |
| `WindowScan.QualifiesFails` | Levenshtein/bin/typo.py:97-100 | the comparison fails if and only if a metric is enabled and a record lacks the compared field, and the error names that field |
| `WindowScan.IdenticalNeverQualifies` | Levenshtein/bin/typo.py:101 | equal compared values never qualify |
| `WindowScan.QualifiesSymmetric` | Levenshtein/bin/typo.py:95-101 | the decision does not depend on the order of the two records |
| `WindowScan.FirstIndexSound` | Levenshtein/bin/typo.py:91 | the lookup by value returns the first position that holds an equal record |
| `WindowScan.AsWrittenIsAdjacentWhenDistinct` | Levenshtein/bin/typo.py:90-92 | without repeated records, the lookup by value compares every record with its own successor |
| `WindowScan.AsWrittenRepeatsFirstOccurrence` | Levenshtein/bin/typo.py:91-94 | the step for a repeated record is the step of that record's first occurrence |
| `WindowScan.DuplicateHidesNextPair` | Levenshtein/bin/typo.py:90-103 | in the partition `[d, d, x]` the later `d` is compared with itself, so the qualifying pair `(d, x)` is never emitted, while the index-by-index reading emits it |
| `WindowScan.ReturningRecordRepeatsPair` | Levenshtein/bin/typo.py:90-103 | a record that comes back later re-emits its first occurrence's pair instead of being compared with its own successor |
| `WindowScan.ScanAdjacentEmitsExactly` | Levenshtein/bin/typo.py:90-105 | comparing each record with its successor emits exactly the qualifying in-window neighbour pairs, each once, in ascending position order |
| `WindowScan.ScanAdjacentEmitsEveryPair` | Levenshtein/bin/typo.py:92-105 | every qualifying neighbour pair whose gap is at most the window, equal included, is emitted; a larger gap elsewhere does not stop the scan |
| `WindowScan.MiddleRecordTwice` | Levenshtein/bin/typo.py:102-103 | a record that qualifies with both neighbours appears twice, adjacently |
| `WindowScan.AsWrittenStepEmits` | Levenshtein/bin/typo.py:91-103 | one step of the loop as written emits nothing or the qualifying pair at the first occurrence of its record |
| `WindowScan.AsWrittenEmitsOnlyPairs` | Levenshtein/bin/typo.py:90-103 | the loop as written emits pairs only, each a qualifying in-window neighbour pair of the partition |
| `WindowScan.ScanFailsIff` | Levenshtein/bin/typo.py:94-100 | the scan fails if and only if some step reads a missing compared field |
| `WindowScan.ScanFailureHasCause` | Levenshtein/bin/typo.py:98-100 | a failed scan has a step that read a missing compared field, and its error names that field |
| `WindowScan.ScanSucceedsWithField` | Levenshtein/bin/typo.py:95-100 | with no metric enabled, or with the compared field on every record, the scan does not fail |
| `WindowScan.DisabledScanIsSilent` | Levenshtein/bin/typo.py:95-101 | with both thresholds at or below 0, the scan emits nothing and cannot fail |
| `WindowScan.CompareNext` | Levenshtein/bin/typo.py:91-103 | the loop body, with the distances computed by the dynamic-programming methods, equals the step of the loop as written |
| `WindowScan.ScanPartition` | Levenshtein/bin/typo.py:89-106 | the loop over one sorted partition computes the scan as written, stopping at the first error |
| `Typo.ScanBucket` | Levenshtein/bin/typo.py:87-103 | sorting and scanning one partition gives that partition's contribution |
| `Typo.Transform` | Levenshtein/bin/typo.py:76-108 | the transform returns exactly `TypoOutput`: the grouping error, or the partitions' contributions in first-seen key order with the first error winning |
| `Typo.TransformEmitsOnlyNeighbours` | Levenshtein/bin/typo.py:86-103 | the output has even length, and each pair is a qualifying in-window neighbour pair of one time-sorted partition |
| `Typo.TransformPairFacts` | Levenshtein/bin/typo.py:83-103 | each emitted pair is two input records with the same partition value, in a partition of at least two records; the first is no later than the second and at most the window earlier, and the pair qualifies |
| `Typo.TransformOutputFromInput` | Levenshtein/bin/typo.py:82-103 | every emitted record is an unchanged input record from a partition of at least two records, and the output length is even |
| `Typo.LonePartitionIsSilent` | Levenshtein/bin/typo.py:92 | a partition of at most one record contributes nothing |
| `Typo.DisabledTransformIsSilent` | Levenshtein/bin/typo.py:77-78 | with both thresholds at or below 0, a successful transform emits nothing |
| `Typo.TransformGroupedByKey` | Levenshtein/bin/typo.py:81-86 | the output is grouped by partition value, in the order the values were first seen |
| `Typo.PartitionOwnKey` | Levenshtein/bin/typo.py:86-103 | each record a partition emits carries that partition's value |
| `Typo.TransformEmitsEveryNeighbourPair` | Levenshtein/bin/typo.py:86-105 | without repeated input records, every qualifying in-window neighbour pair of every partition appears in the output as a pair |
| `Typo.PartitionFailure` | Levenshtein/bin/typo.py:88-100 | a partition fails with the first bad time in arrival order, or, when all times parse, because a compared record lacks the compared field |
| `Typo.TransformFailure` | Levenshtein/bin/typo.py:81-88 | a missing partition field fails before any scan; otherwise the error is that of the first failing partition in key order |
| `Typo.TransformErrorKinds` | Levenshtein/bin/typo.py:83-100 | the only errors are a missing partition, compared or time field, or an input time text that is not an integer |
| `DocstringSample.User1Distances` | Levenshtein/bin/typo.py:17-33 | user1's two sample searches are at Levenshtein distance at least 3 and Damerau-Levenshtein distance at least 2 |
| `DocstringSample.User2Distances` | Levenshtein/bin/typo.py:17-33 | user2's two sample searches are one substitution apart in both metrics |
| `DocstringSample.SampleKeys` | Levenshtein/bin/typo.py:17-33 | the sample's users are grouped in the order user1, user2, user3 |
| `DocstringSample.SampleOutput` | Levenshtein/bin/typo.py:17-33 | on the docstring's sample with `windowtime=5 levdist=2 damdist=1`, the transform emits exactly user2's two searches; user1's pair qualifies in neither metric and user3's lone record is never compared |
| `Typo.TransformSucceeds` | Levenshtein/bin/typo.py:83-100 | with the partition field and an integer time on every record, and the compared field too when a metric is enabled, the transform succeeds |

## Left out

- The command plumbing is not modelled: `dispatch`, the `EventingCommand` base, the option
  declarations and their defaults (such as `timefield` defaulting to `_time`), and stdin/stdout.
  The options arrive as a `Config`.
- The option values `windowtime`, `levdist` and `damdist` are taken as already-converted
  integers. `int(...)` is modelled only on the time field.
- `Records.ParseInt` models `int(text)` on ASCII only. Python also accepts non-ASCII decimal
  digits and Unicode whitespace, and the model rejects those.
- `Records.ParseInt` accepts digit strings of any length. Python's `int(text)` raises
  `ValueError` for texts of more than 4300 digits, under its default limit on integer string
  conversion.
- The two distance libraries are external C extensions. Their algorithms are defined here
  directly. The Damerau-Levenshtein metric is taken to be the optimal-string-alignment form,
  in which no substring is edited twice. The float type of the library result is
  ignored.
- The generator that yields the collected records one at a time is modelled as returning the
  whole list. Its laziness is not modelled.
- The time of each record is parsed once, when the sort keys are computed. The code parses it
  again at each comparison and gets the same value.
- Typo.TransformEmitsEveryNeighbourPair: stated only for input without repeated records. With
  repeated records, the lookup by value can skip a qualifying pair (`DuplicateHidesNextPair`).
