/** Cluster detection: within each location group, every index triple
    i < j < k whose three cars are distinct and whose fares satisfy the
    pattern in some order yields one cluster. */
module ClusterDetection {
  import opened TaxiTypes
  import opened Decryption
  import opened FarePattern
  import opened TripleEnumeration

  /** The set of the three car ids has three elements. */
  predicate CarsDistinct(a: Trip, b: Trip, c: Trip)
  {
    |{a.car, b.car, c.car}| == 3
  }

  /** The set test is the same as pairwise distinctness. */
  lemma CarsDistinctIffPairwise(a: Trip, b: Trip, c: Trip)
    ensures CarsDistinct(a, b, c) <==> a.car != b.car && a.car != c.car && b.car != c.car
  {
    if a.car != b.car && a.car != c.car && b.car != c.car {
      assert |{a.car, b.car}| == 2;
      assert {a.car, b.car, c.car} == {a.car, b.car} + {c.car};
    }
  }

  /** What the body of the innermost loop records for trips a, b, c of the
      group at `loc`: nothing, or one cluster built from the first matching
      ordering of their fares. */
  function TripleCluster(loc: Location, a: Trip, b: Trip, c: Trip): (r: Option<Cluster>)
    ensures r.Some? ==> r.value.loc == loc && r.value.ts == a.ts
    ensures r.Some? ==> r.value.fares == (a.fare, b.fare, c.fare)
    ensures r.Some? ==> r.value.signature == r.value.patternFares.0 + r.value.patternFares.1 + r.value.patternFares.2
  {
    if !CarsDistinct(a, b, c) then None
    else
      var fares := (a.fare, b.fare, c.fare);
      match FirstPattern(fares)
      case None => None
      case Some(p) =>
        Some(Cluster(loc, (a.car, b.car, c.car), fares,
                     (OriginalFare(a.fare), OriginalFare(b.fare), OriginalFare(c.fare)),
                     p, a.ts, a.fare + b.fare + c.fare))
  }

  /** A triple yields a cluster iff its cars are pairwise distinct and some
      ordering (A, B, C) of its fares has B = |A - C| + (A mod C); duplicate
      cars reject it whatever the fares. */
  lemma ClusterIffDistinctCarsAndPattern(loc: Location, a: Trip, b: Trip, c: Trip)
    ensures TripleCluster(loc, a, b, c).Some? <==>
      a.car != b.car && a.car != c.car && b.car != c.car &&
      exists p :: IsRearrangement(p, (a.fare, b.fare, c.fare)) && Matches(p)
  {
    CarsDistinctIffPairwise(a, b, c);
    FirstPatternIffSomeRearrangementMatches((a.fare, b.fare, c.fare));
  }

  /** What a recorded cluster holds: the three cars, the decrypted fares and
      their recorded originals, a matching ordering of those fares, their sum
      and the first trip's timestamp. */
  lemma ClusterContents(loc: Location, a: Trip, b: Trip, c: Trip)
    requires TripleCluster(loc, a, b, c).Some?
    ensures var cl := TripleCluster(loc, a, b, c).value;
      && cl.cars == (a.car, b.car, c.car)
      && cl.cars.0 != cl.cars.1 && cl.cars.0 != cl.cars.2 && cl.cars.1 != cl.cars.2
      && DecryptFare(cl.originalFares.0) == a.fare
      && DecryptFare(cl.originalFares.1) == b.fare
      && DecryptFare(cl.originalFares.2) == c.fare
      && IsRearrangement(cl.patternFares, cl.fares) && Matches(cl.patternFares)
      && cl.signature == a.fare + b.fare + c.fare
      && cl.ts == a.ts
  {
    CarsDistinctIffPairwise(a, b, c);
    FirstPatternIffSomeRearrangementMatches((a.fare, b.fare, c.fare));
  }

  /** The clusters recorded for one examined triple: none or one. */
  function ClustersAtTriple(g: Group, t: Triple): (r: seq<Cluster>)
    ensures |r| <= 1
  {
    if 0 <= t.0 < |g.trips| && 0 <= t.1 < |g.trips| && 0 <= t.2 < |g.trips| then
      match TripleCluster(g.loc, g.trips[t.0], g.trips[t.1], g.trips[t.2])
      case Some(cl) => [cl]
      case None => []
    else []
  }

  /** The clusters recorded while examining the triples `ts` in order. */
  function Collect(g: Group, ts: seq<Triple>): (r: seq<Cluster>)
    ensures |r| <= |ts|
  {
    if ts == [] then [] else Collect(g, ts[..|ts| - 1]) + ClustersAtTriple(g, ts[|ts| - 1])
  }

  lemma CollectSnoc(g: Group, ts: seq<Triple>, t: Triple)
    ensures Collect(g, ts + [t]) == Collect(g, ts) + ClustersAtTriple(g, t)
  {
    assert (ts + [t])[..|ts|] == ts;
  }

  /** Splitting off the last triple of `b`. Kept apart from `ConcatStep`:
      in a context that also holds the definition of `Collect`, these two
      sequence identities exhaust the solver. */
  lemma SplitLast(a: seq<Triple>, b: seq<Triple>)
    requires b != []
    ensures b == b[..|b| - 1] + [b[|b| - 1]]
    ensures a + b == (a + b[..|b| - 1]) + [b[|b| - 1]]
  {
  }

  lemma {:induction false} CollectConcat(g: Group, a: seq<Triple>, b: seq<Triple>)
    ensures Collect(g, a + b) == Collect(g, a) + Collect(g, b)
    decreases |b|
  {
    if b == [] {
      assert a + b == a;
    } else {
      CollectConcat(g, a, b[..|b| - 1]);
      ConcatStep(g, a, b);
    }
  }

  lemma ConcatStep(g: Group, a: seq<Triple>, b: seq<Triple>)
    requires b != []
    requires Collect(g, a + b[..|b| - 1]) == Collect(g, a) + Collect(g, b[..|b| - 1])
    ensures Collect(g, a + b) == Collect(g, a) + Collect(g, b)
  {
    var front, last := b[..|b| - 1], b[|b| - 1];
    SplitLast(a, b);
    CollectSnoc(g, front, last);
    CollectSnoc(g, a + front, last);
    Associative(Collect(g, a), Collect(g, front), ClustersAtTriple(g, last));
  }

  /** Regrouping a concatenation; kept apart from `ConcatStep` for the same
      reason as `SplitLast`. */
  lemma Associative(x: seq<Cluster>, y: seq<Cluster>, z: seq<Cluster>)
    ensures (x + y) + z == x + (y + z)
  {
  }

  lemma {:induction false} CollectMembers(g: Group, ts: seq<Triple>, cl: Cluster)
    ensures cl in Collect(g, ts) <==>
      exists t :: t in ts && cl in ClustersAtTriple(g, t)
  {
    if ts != [] {
      var front := ts[..|ts| - 1];
      CollectMembers(g, front, cl);
      if cl in Collect(g, front) {
        var t :| t in front && cl in ClustersAtTriple(g, t);
        assert t in ts;
      }
      forall t | t in ts && cl in ClustersAtTriple(g, t) ensures cl in Collect(g, ts) {
        if t != ts[|ts| - 1] {
          assert t in front;
        }
      }
    }
  }

  /** What the innermost loop records: triples (i, j, k) for k in [lo, hi). */
  function KClusters(g: Group, i: int, j: int, lo: int, hi: int): seq<Cluster>
    decreases hi - lo
  {
    if hi <= lo then [] else KClusters(g, i, j, lo, hi - 1) + ClustersAtTriple(g, (i, j, hi - 1))
  }

  /** What the middle loop records for j in [lo, hi). */
  function JClusters(g: Group, i: int, n: int, lo: int, hi: int): seq<Cluster>
    decreases hi - lo
  {
    if hi <= lo then [] else JClusters(g, i, n, lo, hi - 1) + KClusters(g, i, hi - 1, hi, n)
  }

  /** What the outer loop records for i in [0, hi). */
  function IClusters(g: Group, n: int, hi: int): seq<Cluster>
    decreases hi
  {
    if hi <= 0 then [] else IClusters(g, n, hi - 1) + JClusters(g, hi - 1, n, hi, n - 1)
  }

  /** Every cluster found in group `g`, in the order the loops record them. */
  function GroupClusters(g: Group): seq<Cluster>
  {
    IClusters(g, |g.trips|, |g.trips| - 2)
  }

  lemma {:induction false} KClustersCollect(g: Group, i: int, j: int, lo: int, hi: int)
    ensures KClusters(g, i, j, lo, hi) == Collect(g, KTriples(i, j, lo, hi))
    decreases hi - lo
  {
    if lo < hi {
      KClustersCollect(g, i, j, lo, hi - 1);
      var ts := KTriples(i, j, lo, hi);
      assert ts[..|ts| - 1] == KTriples(i, j, lo, hi - 1);
    }
  }

  lemma {:induction false} JClustersCollect(g: Group, i: int, n: int, lo: int, hi: int)
    ensures JClusters(g, i, n, lo, hi) == Collect(g, JTriples(i, n, lo, hi))
    decreases hi - lo
  {
    if lo < hi {
      JClustersCollect(g, i, n, lo, hi - 1);
      MiddleCollectStep(g, i, n, lo, hi);
    }
  }

  lemma MiddleCollectStep(g: Group, i: int, n: int, lo: int, hi: int)
    requires lo < hi
    requires JClusters(g, i, n, lo, hi - 1) == Collect(g, JTriples(i, n, lo, hi - 1))
    ensures JClusters(g, i, n, lo, hi) == Collect(g, JTriples(i, n, lo, hi))
  {
    var j := hi - 1;
    var front, back := JTriples(i, n, lo, j), KTriples(i, j, hi, n);
    KClustersCollect(g, i, j, hi, n);
    CollectConcat(g, front, back);
    assert JTriples(i, n, lo, hi) == front + back;
  }

  lemma {:induction false} IClustersCollect(g: Group, n: int, hi: int)
    ensures IClusters(g, n, hi) == Collect(g, ITriples(n, hi))
    decreases hi
  {
    if 0 < hi {
      var i := hi - 1;
      var front, back := ITriples(n, i), JTriples(i, n, hi, n - 1);
      IClustersCollect(g, n, i);
      JClustersCollect(g, i, n, hi, n - 1);
      CollectConcat(g, front, back);
      assert ITriples(n, hi) == front + back;
    }
  }

  /** The clusters of a group are what examining its triples i < j < k, in
      loop order, records: at most one cluster per triple. */
  lemma GroupClustersCollectTriples(g: Group)
    ensures GroupClusters(g) == Collect(g, Triples(|g.trips|))
  {
    IClustersCollect(g, |g.trips|, |g.trips| - 2);
  }

  lemma ExaminedTripleOf(g: Group, cl: Cluster) returns (t: Triple)
    requires cl in GroupClusters(g)
    ensures 0 <= t.0 < t.1 < t.2 < |g.trips| && cl in ClustersAtTriple(g, t)
  {
    var n := |g.trips|;
    GroupClustersCollectTriples(g);
    CollectMembers(g, Triples(n), cl);
    t :| t in Triples(n) && cl in ClustersAtTriple(g, t);
    TriplesMembers(n, t);
  }

  /** Every recorded cluster comes from a triple i < j < k of the group. */
  lemma ClusterProvenance(g: Group, cl: Cluster)
    requires cl in GroupClusters(g)
    ensures exists i, j, k ::
      && 0 <= i < j < k < |g.trips|
      && TripleCluster(g.loc, g.trips[i], g.trips[j], g.trips[k]) == Some(cl)
  {
    var t := ExaminedTripleOf(g, cl);
    assert TripleCluster(g.loc, g.trips[t.0], g.trips[t.1], g.trips[t.2]) == Some(cl);
  }

  /** Conversely, every accepted triple i < j < k of the group is recorded. */
  lemma AcceptedTripleRecorded(g: Group, i: int, j: int, k: int)
    requires 0 <= i < j < k < |g.trips|
    requires TripleCluster(g.loc, g.trips[i], g.trips[j], g.trips[k]).Some?
    ensures TripleCluster(g.loc, g.trips[i], g.trips[j], g.trips[k]).value in GroupClusters(g)
  {
    var n := |g.trips|;
    var cl := TripleCluster(g.loc, g.trips[i], g.trips[j], g.trips[k]).value;
    TriplesMembers(n, (i, j, k));
    assert cl in ClustersAtTriple(g, (i, j, k));
    GroupClustersCollectTriples(g);
    CollectMembers(g, Triples(n), cl);
  }

  /** In a timestamp-sorted group a cluster's timestamp, taken from its first
      trip, is the earliest of its three trips' timestamps. */
  lemma ClusterTimestampIsEarliest(g: Group, cl: Cluster)
    requires SortedByTime(g.trips)
    requires cl in GroupClusters(g)
    ensures exists i, j, k ::
      && 0 <= i < j < k < |g.trips|
      && TripleCluster(g.loc, g.trips[i], g.trips[j], g.trips[k]) == Some(cl)
      && cl.ts == g.trips[i].ts && cl.ts <= g.trips[j].ts && cl.ts <= g.trips[k].ts
  {
    var t := ExaminedTripleOf(g, cl);
    var a, b, c := g.trips[t.0], g.trips[t.1], g.trips[t.2];
    assert TripleCluster(g.loc, a, b, c) == Some(cl);
    assert a.ts <= b.ts && a.ts <= c.ts;
  }

  /** A group of fewer than three trips yields no cluster; a group of three
      yields at most one, from its only triple. */
  lemma SmallGroupClusters(g: Group)
    ensures |g.trips| < 3 ==> GroupClusters(g) == []
    ensures |g.trips| == 3 ==> GroupClusters(g) == ClustersAtTriple(g, (0, 1, 2))
  {
    GroupClustersCollectTriples(g);
    SmallGroups(|g.trips|);
    if |g.trips| == 3 {
      assert [(0, 1, 2)][..0] == [];
    }
  }

  /** The body of the innermost loop: skip the triple unless its three cars
      differ, then try the orderings of its fares and record a cluster for
      the first one that matches. */
  method ExamineTriple(loc: Location, a: Trip, b: Trip, c: Trip) returns (found: Option<Cluster>)
    ensures found == TripleCluster(loc, a, b, c)
  {
    found := None;
    if |{a.car, b.car, c.car}| < 3 {
      return;
    }
    var fares := (a.fare, b.fare, c.fare);
    var pattern := FindPattern(fares);
    if pattern.Some? {
      found := Some(Cluster(loc, (a.car, b.car, c.car), fares,
                            (OriginalFare(a.fare), OriginalFare(b.fare), OriginalFare(c.fare)),
                            pattern.value, a.ts, a.fare + b.fare + c.fare));
    }
  }

  /** The innermost loop: k over [j + 1, n) for fixed i and j. */
  method ScanThird(g: Group, i: int, j: int) returns (found: seq<Cluster>)
    requires 0 <= i < j < |g.trips|
    ensures found == KClusters(g, i, j, j + 1, |g.trips|)
  {
    found := [];
    var k := j + 1;
    while k < |g.trips|
      invariant j + 1 <= k <= |g.trips|
      invariant found == KClusters(g, i, j, j + 1, k)
    {
      var cl := ExamineTriple(g.loc, g.trips[i], g.trips[j], g.trips[k]);
      if cl.Some? {
        found := found + [cl.value];
      }
      k := k + 1;
    }
  }

  /** The middle loop: j over [i + 1, n - 1) for fixed i. */
  method ScanSecond(g: Group, i: int) returns (found: seq<Cluster>)
    requires 0 <= i < |g.trips| - 2
    ensures found == JClusters(g, i, |g.trips|, i + 1, |g.trips| - 1)
  {
    var n := |g.trips|;
    found := [];
    var j := i + 1;
    while j < n - 1
      invariant i + 1 <= j <= n - 1
      invariant found == JClusters(g, i, n, i + 1, j)
    {
      var more := ScanThird(g, i, j);
      assert JClusters(g, i, n, i + 1, j + 1) == found + more;
      found := found + more;
      j := j + 1;
    }
  }

  /** The outer loop over one group: i over [0, n - 2). */
  method DetectInGroup(g: Group) returns (clusters: seq<Cluster>)
    ensures clusters == GroupClusters(g)
  {
    var n := |g.trips|;
    clusters := [];
    var i := 0;
    while i < n - 2
      invariant 0 <= i && (i <= n - 2 || i == 0)
      invariant clusters == IClusters(g, n, i)
    {
      var more := ScanSecond(g, i);
      assert IClusters(g, n, i + 1) == clusters + more;
      clusters := clusters + more;
      i := i + 1;
    }
  }

  /** Every cluster of every group, group after group. */
  function AllClusters(groups: seq<Group>): seq<Cluster>
  {
    if groups == [] then []
    else AllClusters(groups[..|groups| - 1]) + GroupClusters(groups[|groups| - 1])
  }

  /** A cluster of the whole run is a cluster of one of the groups, and
      carries that group's location. */
  lemma {:induction false} AllClustersMembers(groups: seq<Group>, cl: Cluster)
    ensures cl in AllClusters(groups) <==> exists g :: g in groups && cl in GroupClusters(g)
    ensures forall g :: g in groups && cl in GroupClusters(g) ==> cl.loc == g.loc
  {
    forall g | g in groups && cl in GroupClusters(g) ensures cl.loc == g.loc {
      ClusterProvenance(g, cl);
    }
    if groups != [] {
      var front, last := groups[..|groups| - 1], groups[|groups| - 1];
      AllClustersMembers(front, cl);
      forall g | g in groups && cl in GroupClusters(g) ensures cl in AllClusters(groups) {
        if g != last {
          assert g in front;
        }
      }
    }
  }

  /** The loop over all location groups. */
  method DetectClusters(groups: seq<Group>) returns (clusters: seq<Cluster>)
    ensures clusters == AllClusters(groups)
  {
    clusters := [];
    for q := 0 to |groups|
      invariant clusters == AllClusters(groups[..q])
    {
      var found := DetectInGroup(groups[q]);
      assert groups[..q + 1][..q] == groups[..q];
      clusters := clusters + found;
    }
    assert groups[..|groups|] == groups;
  }
}
