# Taxi hotspot hunt — a verified model of the cluster search

`find_taxi_hotspot.py` looks for a hidden "hotspot" in a table of taxi trips.
The search has four steps:

1. Decryption. A fixed key (3200) is subtracted from every fare.
2. Cluster detection. The trips are grouped by exact (latitude, longitude) and
   sorted by timestamp. Every index triple `i < j < k` of a group is examined.
   A triple is kept when its three cars are distinct and some ordering
   `(A, B, C)` of its three fares satisfies `B = abs(A - C) + (A mod C)`, with
   Python's floor modulo. The orderings are tried in `itertools.permutations`
   order and the first match stops the search. Each kept triple records one
   cluster. The cluster holds:
   - the location and the car ids;
   - the fares, and the original fares before decryption;
   - the matching ordering;
   - the first trip's timestamp;
   - the sum of the fares, called the signature.
3. Scoring. The clusters are folded into a `defaultdict` keyed by location.
   Each entry holds the summed signatures, the list of clusters and the
   earliest cluster timestamp.
4. Selection. One scan over the table keeps the best location. A higher score
   wins; on equal scores the earlier timestamp wins; then the larger
   latitude; then the larger longitude.

The model is written in the script's own imperative form:

- every loop is a method with loop invariants (the triple loop nest is one
  method per loop level);
- the decryption, detection and scoring methods are each proved equal to a
  specification function shaped like their loop;
- the selection scan, and the whole search built on it, are proved to return
  the one location that beats every other, instead of being matched to a
  function;
- the fare-pattern test and the tie-break comparison are pure predicates.

The properties are proved as lemmas about those functions.

| file | module | what it holds |
|---|---|---|
| `taxi_types.dfy` | `TaxiTypes` | trips, locations, groups, clusters, score-table entries |
| `decryption.dfy` | `Decryption` | the key, the fare shift, the in-place decryption of the table |
| `fare_pattern.dfy` | `FarePattern` | floor modulo, the pattern, the six orderings, the permutation loop |
| `triples.dfy` | `TripleEnumeration` | the index triples the three loops visit, in loop order |
| `cluster_detection.dfy` | `ClusterDetection` | the triple loop nest and what it records |
| `scoring.dfy` | `Scoring` | the score table and the scoring loop |
| `selection.dfy` | `Selection` | the tie-break order and the selection scan |
| `hotspot.dfy` | `Hotspot` | the three stages chained together |

## Model

| member | source | states |
|---|---|---|
| `Decryption.DecryptFares` | find_taxi_hotspot.py:33-34 | after the call, the table is the decrypted table: every fare is lowered by 3200 and every other column is unchanged |
| `Decryption.Decrypted` | find_taxi_hotspot.py:34 | the decrypted table has the same length; each row keeps lat, lon, timestamp and car, and its recorded fare is its new fare plus the key |
| `Decryption.DecryptFare` | find_taxi_hotspot.py:34 | the real fare hidden in a recorded fare: the recorded fare minus the key 3200 |
| `Decryption.OriginalFare` | find_taxi_hotspot.py:57 | the recorded fare a decrypted fare came from: the decrypted fare plus the key |
| `Decryption.FareRoundTrip` | find_taxi_hotspot.py:57 | adding the key back to a decrypted fare gives the recorded fare, and the other way round |
| `FarePattern.FloorMod` | find_taxi_hotspot.py:62 | Python's `A % C` on a non-zero divisor: Dafny's remainder, shifted by the divisor when the divisor is negative and the remainder is not zero |
| `FarePattern.Matches` | find_taxi_hotspot.py:62 | the pattern test of one ordering (A, B, C): C is not zero, and B equals abs(A - C) plus Python's A mod C |
| `FarePattern.FloorModIsRemainder` | find_taxi_hotspot.py:62 | Python's `%`: the remainder lies in `[0, c)` for a positive divisor and in `(c, 0]` for a negative one, and `a == (a // c) * c + a % c` |
| `FarePattern.ZeroDivisorNeverMatches` | find_taxi_hotspot.py:62 | an ordering whose divisor C is 0 never satisfies the pattern |
| `FarePattern.Permutations` | find_taxi_hotspot.py:60 | the six orderings of three fares, in the order `itertools.permutations` yields them |
| `FarePattern.PermutationsAreRearrangements` | find_taxi_hotspot.py:60 | the six orderings tried are exactly the triples holding each fare value as often as the fares do |
| `FarePattern.FirstPattern` | find_taxi_hotspot.py:60-73 | the ordering the permutation loop stops at: the first of the six that matches, or nothing |
| `FarePattern.FirstPatternIffSomeRearrangementMatches` | find_taxi_hotspot.py:60-62 | the permutation loop finds an ordering iff some rearrangement of the fares satisfies the pattern; the one found is such a rearrangement and satisfies it |
| `FarePattern.FirstPatternIsFirstMatch` | find_taxi_hotspot.py:60-73 | the ordering found is the first of the six, in `itertools` order, that matches; no earlier one matches |
| `FarePattern.FindPattern` | find_taxi_hotspot.py:60-73 | the loop over the permutations, with its `break`, returns the first matching ordering or nothing |
| `FarePattern.PrintedClusterHasNoPattern` | find_taxi_hotspot.py:143-146 | the fares (2017, 17, 1417) printed as the answer's cluster satisfy the pattern under none of their six orderings |
| `TripleEnumeration.KTriples` | find_taxi_hotspot.py:48 | the triples the innermost loop visits for fixed i and j: k over `range(lo, hi)`, in increasing k |
| `TripleEnumeration.JTriples` | find_taxi_hotspot.py:47-48 | the triples the middle loop visits for fixed i: j over `range(lo, hi)`, each followed by its innermost loop up to n |
| `TripleEnumeration.ITriples` | find_taxi_hotspot.py:46-48 | the triples the outer loop visits: i over `range(hi)`, each followed by its middle loop |
| `TripleEnumeration.Triples` | find_taxi_hotspot.py:46-48 | every triple examined in a group of n trips, in loop order: the outer loop over `range(n - 2)` |
| `TripleEnumeration.KTriplesMembers` | find_taxi_hotspot.py:48 | the innermost loop visits exactly the triples (i, j, k) with k in its range |
| `TripleEnumeration.JTriplesMembers` | find_taxi_hotspot.py:47-48 | the middle loop, with the innermost loop inside it, visits exactly the triples (i, j, k) with j in its range and j < k < n |
| `TripleEnumeration.ITriplesMembers` | find_taxi_hotspot.py:46-48 | the outer loop visits exactly the triples with i in its range, i < j < n - 1 and j < k < n |
| `TripleEnumeration.TriplesMembers` | find_taxi_hotspot.py:46-48 | in a group of n trips the loops visit exactly the triples `0 <= i < j < k < n` |
| `TripleEnumeration.TriplesIncreasing` | find_taxi_hotspot.py:46-48 | the triples are visited in strictly increasing lexicographic order, so none is visited twice |
| `TripleEnumeration.SmallGroups` | find_taxi_hotspot.py:44-48 | fewer than three trips give no triple; exactly three give the single triple (0, 1, 2) |
| `ClusterDetection.CarsDistinct` | find_taxi_hotspot.py:52-53 | the car test: the set of the three car ids has three elements |
| `ClusterDetection.CarsDistinctIffPairwise` | find_taxi_hotspot.py:52-53 | the set of the three car ids has three elements iff the cars are pairwise distinct |
| `ClusterDetection.TripleCluster` | find_taxi_hotspot.py:52-73 | a recorded cluster carries the group's location, the first trip's timestamp and the three fares, and its signature equals the sum of the matching ordering, whichever ordering matched |
| `ClusterDetection.ClusterIffDistinctCarsAndPattern` | find_taxi_hotspot.py:52-62 | a triple yields a cluster iff its cars are pairwise distinct and some rearrangement of its fares satisfies the pattern; duplicate cars reject it whatever the fares |
| `ClusterDetection.ClusterContents` | find_taxi_hotspot.py:56-71 | a recorded cluster holds the three distinct cars, original fares that decrypt to the fares, a matching rearrangement of the fares, their sum as signature and the first trip's timestamp |
| `ClusterDetection.ClustersAtTriple` | find_taxi_hotspot.py:60-73 | one examined triple records at most one cluster |
| `ClusterDetection.ExamineTriple` | find_taxi_hotspot.py:49-73 | the body of the innermost loop records what `TripleCluster` specifies: nothing when a car repeats, else the cluster of the first matching ordering |
| `ClusterDetection.KClusters` | find_taxi_hotspot.py:48-73 | what the innermost loop appends for fixed i and j: the clusters of (i, j, k) for k in `range(lo, hi)`, in order |
| `ClusterDetection.JClusters` | find_taxi_hotspot.py:47-73 | what the middle loop appends for fixed i: for each j in `range(lo, hi)`, the innermost loop's clusters up to n |
| `ClusterDetection.IClusters` | find_taxi_hotspot.py:46-73 | what the outer loop appends: for each i in `range(hi)`, the middle loop's clusters |
| `ClusterDetection.ScanThird` | find_taxi_hotspot.py:48-73 | the innermost loop records the clusters of the triples (i, j, k) for k from j + 1 to n, in order |
| `ClusterDetection.ScanSecond` | find_taxi_hotspot.py:47-73 | the middle loop records the clusters of the triples (i, j, k) for j from i + 1 to n - 1, in order |
| `ClusterDetection.DetectInGroup` | find_taxi_hotspot.py:46-73 | the loop nest over one group records exactly the group's clusters, in loop order |
| `ClusterDetection.GroupClusters` | find_taxi_hotspot.py:46-73 | the clusters one group yields, in the order the three nested loops record them |
| `ClusterDetection.GroupClustersCollectTriples` | find_taxi_hotspot.py:46-73 | a group's clusters are what examining its triples i < j < k, in loop order, records |
| `ClusterDetection.ClusterProvenance` | find_taxi_hotspot.py:46-73 | every recorded cluster comes from a triple `i < j < k` of the group that yields it |
| `ClusterDetection.AcceptedTripleRecorded` | find_taxi_hotspot.py:46-73 | every triple `i < j < k` of the group that yields a cluster has that cluster recorded |
| `ClusterDetection.ClusterTimestampIsEarliest` | find_taxi_hotspot.py:43-70 | in a timestamp-sorted group, a cluster's timestamp is its first trip's and is no later than the other two trips' |
| `ClusterDetection.SmallGroupClusters` | find_taxi_hotspot.py:44-48 | a group of fewer than three trips yields no cluster; a group of three yields at most one, from its only triple |
| `ClusterDetection.AllClusters` | find_taxi_hotspot.py:41-73 | the clusters of all groups, group after group, as the `groupby` loop appends them |
| `ClusterDetection.AllClustersMembers` | find_taxi_hotspot.py:41-73 | a cluster of the whole run is exactly a cluster of one of the groups, and it carries the location of the group whose loop recorded it |
| `ClusterDetection.DetectClusters` | find_taxi_hotspot.py:41-73 | the loop over the groups records every group's clusters, group after group |
| `Scoring.TotalScore` | find_taxi_hotspot.py:83 | the sum of the signatures of a list of clusters |
| `Scoring.Info` | find_taxi_hotspot.py:83-89 | the entry of a location, computed directly: the clusters found there in order, the sum of their signatures and their earliest timestamp |
| `Scoring.Scores` | find_taxi_hotspot.py:79-89 | the score table, computed directly: one entry per location that has a cluster, given by `Info` |
| `Scoring.ClustersAt` | find_taxi_hotspot.py:82-84 | the cluster list of one key: the clusters found at that location, in the order they were appended |
| `Scoring.Fresh` | find_taxi_hotspot.py:79 | the entry the `defaultdict` creates for a new key: score 0, no clusters, no earliest timestamp |
| `Scoring.ClustersAtMembers` | find_taxi_hotspot.py:82-84 | the clusters listed for a location are exactly the clusters found there |
| `Scoring.Earliest` | find_taxi_hotspot.py:85-89 | the earliest timestamp is unset exactly when no cluster was folded in |
| `Scoring.EarliestIsMinimum` | find_taxi_hotspot.py:85-89 | the earliest timestamp kept is one of the clusters' timestamps and is no later than any of them |
| `Scoring.InsertionOrder` | find_taxi_hotspot.py:79-82 | the table's key order lists each location that has a cluster exactly once |
| `Scoring.UntouchedIsFresh` | find_taxi_hotspot.py:79 | a location no cluster touched would hold the default entry (score 0, no clusters, no earliest) |
| `Scoring.ScoresStep` | find_taxi_hotspot.py:81-89 | folding one more cluster updates only its location's entry, starting from the default entry if the key is new |
| `Scoring.OrderStep` | find_taxi_hotspot.py:79-82 | folding one more cluster appends its location to the key order exactly when the location is new |
| `Scoring.Fold` | find_taxi_hotspot.py:83-89 | one location's entry after one cluster is folded in: signature added, cluster appended, earliest timestamp set when unset or later |
| `Scoring.FoldCluster` | find_taxi_hotspot.py:83-89 | the loop body adds the signature, appends the cluster, and sets the earliest timestamp if it is unset or later |
| `Scoring.AggregateScores` | find_taxi_hotspot.py:79-89 | the scoring loop builds the score table of all clusters and its key order |
| `Scoring.ScoresEntries` | find_taxi_hotspot.py:79-89 | a location is a key iff some cluster was found there; its entry holds exactly those clusters (at least one), the sum of their signatures, and the minimum of their timestamps |
| `Scoring.EmptyScores` | find_taxi_hotspot.py:79-89 | the table is empty exactly when there are no clusters |
| `Selection.IsBetter` | find_taxi_hotspot.py:108-118 | the nested comparison: a higher score; on equal score an earlier timestamp; then a larger latitude; then, on equal latitude, a larger longitude |
| `Selection.Beats` | find_taxi_hotspot.py:108-118 | one record would replace another in the scan: `IsBetter` applied to the first record's fields |
| `Selection.BeatsIsLexicographic` | find_taxi_hotspot.py:107-118 | the tie-break comparison is the lexicographic order on (score, negated earliest timestamp, latitude, longitude) |
| `Selection.BeatsIrreflexive` | find_taxi_hotspot.py:107-118 | no location replaces itself |
| `Selection.BeatsAsymmetric` | find_taxi_hotspot.py:107-118 | if one location beats another, the other does not beat it |
| `Selection.BeatsTransitive` | find_taxi_hotspot.py:107-118 | the comparison is transitive |
| `Selection.BeatsTotal` | find_taxi_hotspot.py:107-118 | of two locations with different coordinates, one always beats the other |
| `Selection.HotspotUnique` | find_taxi_hotspot.py:92-127 | at most one location beats all others, so the result does not depend on the order of the scan |
| `Selection.Candidate` | find_taxi_hotspot.py:94-105 | the record the scan keeps for a key: its coordinates, score, earliest timestamp and cluster list |
| `Selection.SelectBest` | find_taxi_hotspot.py:92-127 | the scan returns nothing iff the table is empty; otherwise it returns a key's record, and that record beats every other key's |
| `Hotspot.TableIsTimed` | find_taxi_hotspot.py:85-89 | every entry of the score table has an earliest timestamp, so the scan's comparisons are defined |
| `Hotspot.NoClustersInSmallGroups` | find_taxi_hotspot.py:44-48 | when no location has three trips, no cluster is found |
| `Hotspot.ReportedClustersAreValid` | find_taxi_hotspot.py:63-72 | every cluster listed for a location was found there, comes from three distinct cars, carries a matching rearrangement of its fares, and has their sum as signature |
| `Hotspot.FindHotspot` | find_taxi_hotspot.py:41-127 | the search finds nothing iff there are no clusters; otherwise it returns the unique hotspot of the score table |

## Left out

- Loading the CSV file and its hard-coded path (lines 16-17) are I/O.
- `dropna` (line 27) is not modelled: the model's trips are complete records.
- `groupby` and `sort_values` (lines 42-43) are library calls. `FindHotspot`
  and `DetectClusters` take the location groups as input. Being sorted by
  timestamp is needed by one lemma only, `ClusterTimestampIsEarliest`, as its
  precondition. The model does not require two groups to have different
  locations; clusters of one location simply meet in one table entry.
- `FindHotspot` starts from groups of already decrypted trips. Decryption of
  the flat table is modelled on its own by `DecryptFares`, because grouping
  comes between the two and is left out.
- Floating point is abstracted:
  - latitudes and longitudes are integers with the same equality and order;
  - fares are taken to be integer-valued, since the pattern test (line 62)
    does arithmetic on them;
  - `np.isclose` (line 62) is exact equality. With its default tolerances
    it accepts `abs(B - X) <= 1e-8 + 1e-5 * abs(X)`, so for integers it
    agrees with equality only while `abs(X)` is below 100000; from there
    on, integers one apart also count as close, which the model does not
    capture;
  - `A % C` with `C == 0` gives NaN on numpy floats and is then close to
    nothing, so the model treats it as "no match".
- Timestamps are raw column values and are never parsed. They are modelled
  as integers with the same order. Fares are floats and are not truncated
  before the pattern test (line 62).
- A cluster's timestamp is its first trip's (line 70).
  `ClusterTimestampIsEarliest` proves it is the least of the three in a
  timestamp-sorted group.
- All console output is left out (lines 19-37, 75, 78, 130-157). This
  includes the hard-coded answer, which never reads `best`.
- The dictionaries the script builds are records here: a `Cluster` per
  cluster, a `LocationInfo` per table entry, a `Best` for the selection.
- The `defaultdict` is a `map` together with the sequence of its keys in
  insertion order. `SelectBest` takes that sequence as the dict's iteration
  order, and its precondition asks that every entry has an earliest
  timestamp. `TableIsTimed` proves that the scoring loop guarantees this.
- `ClustersAtTriple` is total: a triple with an index outside the group
  records nothing. The loops only form in-range triples.

## Findings

| source | as written | input that shows it | evidently intended | confidence | as-written member | corrected member |
|---|---|---|---|---|---|---|
| find_taxi_hotspot.py:140-146 | the report prints a fixed cluster with decrypted fares (2017, 17, 1417) and marks the fare pattern as satisfied | the printed fares (2017, 17, 1417): none of the six orderings has B = abs(A - C) + (A mod C) | the report shows the clusters of the computed `best`, each of which satisfies the pattern | high; not executed | `FarePattern.PrintedClusterHasNoPattern` | `Hotspot.ReportedClustersAreValid` |
