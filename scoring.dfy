/** Scoring: the clusters are folded, one after another, into a table from
    location to its summed score, its clusters and its earliest timestamp. */
module Scoring {
  import opened TaxiTypes

  /** The clusters found at location `l`, in the order they were found. */
  function ClustersAt(cs: seq<Cluster>, l: Location): seq<Cluster>
  {
    if cs == [] then []
    else
      var last := cs[|cs| - 1];
      ClustersAt(cs[..|cs| - 1], l) + (if last.loc == l then [last] else [])
  }

  /** The clusters kept for `l` are exactly those of `cs` found at `l`. */
  lemma {:induction false} ClustersAtMembers(cs: seq<Cluster>, l: Location)
    ensures forall c :: c in ClustersAt(cs, l) <==> c in cs && c.loc == l
  {
    if cs != [] {
      var front, last := cs[..|cs| - 1], cs[|cs| - 1];
      ClustersAtMembers(front, l);
      assert cs == front + [last];
    }
  }

  /** The sum of the signatures of `cs`. */
  function TotalScore(cs: seq<Cluster>): int
  {
    if cs == [] then 0 else TotalScore(cs[..|cs| - 1]) + cs[|cs| - 1].signature
  }

  /** The earliest timestamp among `cs`, kept as the scoring loop keeps it:
      unset at first, then replaced by each strictly earlier timestamp. */
  function Earliest(cs: seq<Cluster>): (r: Option<int>)
    ensures r.None? <==> cs == []
  {
    if cs == [] then None
    else
      var last := cs[|cs| - 1];
      var e := Earliest(cs[..|cs| - 1]);
      if e.None? then Some(last.ts)
      else if last.ts < e.value then Some(last.ts)
      else e
  }

  /** The earliest timestamp is one of the clusters' and no later than any. */
  lemma {:induction false} EarliestIsMinimum(cs: seq<Cluster>)
    requires cs != []
    ensures exists c :: c in cs && c.ts == Earliest(cs).value
    ensures forall c :: c in cs ==> Earliest(cs).value <= c.ts
  {
    var front, last := cs[..|cs| - 1], cs[|cs| - 1];
    assert cs == front + [last];
    if front != [] {
      EarliestIsMinimum(front);
    }
  }

  /** The entry the table holds for `l` after folding `cs`. */
  function Info(cs: seq<Cluster>, l: Location): LocationInfo
  {
    var at := ClustersAt(cs, l);
    LocationInfo(TotalScore(at), at, Earliest(at))
  }

  /** The entry a location gets when it is first touched. */
  function Fresh(): LocationInfo
  {
    LocationInfo(0, [], None)
  }

  /** The locations that have at least one cluster. */
  function Locations(cs: seq<Cluster>): set<Location>
  {
    set c | c in cs :: c.loc
  }

  /** The table after folding `cs`. */
  function Scores(cs: seq<Cluster>): map<Location, LocationInfo>
  {
    map l | l in Locations(cs) :: Info(cs, l)
  }

  /** The keys of the table in insertion order: each location at its first cluster. */
  function InsertionOrder(cs: seq<Cluster>): (r: seq<Location>)
    ensures forall l :: l in r <==> l in Locations(cs)
    ensures forall p, q :: 0 <= p < q < |r| ==> r[p] != r[q]
  {
    if cs == [] then []
    else
      var last := cs[|cs| - 1];
      var front := InsertionOrder(cs[..|cs| - 1]);
      assert forall c :: c in cs ==> c in cs[..|cs| - 1] || c == last;
      if last.loc in front then front else front + [last.loc]
  }

  /** A location never touched by `cs` would get the fresh entry. */
  lemma {:induction false} UntouchedIsFresh(cs: seq<Cluster>, l: Location)
    requires l !in Locations(cs)
    ensures Info(cs, l) == Fresh()
  {
    if cs != [] {
      var front := cs[..|cs| - 1];
      assert Locations(front) <= Locations(cs);
      UntouchedIsFresh(front, l);
    }
  }

  lemma ClustersAtStep(cs: seq<Cluster>, cl: Cluster, l: Location)
    ensures ClustersAt(cs + [cl], l) == ClustersAt(cs, l) + (if cl.loc == l then [cl] else [])
  {
    assert (cs + [cl])[..|cs|] == cs;
  }

  lemma AppendStep(at: seq<Cluster>, cl: Cluster)
    ensures TotalScore(at + [cl]) == TotalScore(at) + cl.signature
    ensures Earliest(at + [cl]) == (if Earliest(at).None? || cl.ts < Earliest(at).value
                                    then Some(cl.ts) else Earliest(at))
  {
    assert (at + [cl])[..|at|] == at;
  }

  /** The entry of `info` after the loop body folds `cl` into it. */
  function Fold(info: LocationInfo, cl: Cluster): LocationInfo
  {
    LocationInfo(info.score + cl.signature, info.clusters + [cl],
                 if info.earliest.None? || cl.ts < info.earliest.value then Some(cl.ts) else info.earliest)
  }

  /** Folding one more cluster leaves the entry of every other location alone. */
  lemma InfoElsewhere(cs: seq<Cluster>, cl: Cluster, l: Location)
    requires l != cl.loc
    ensures Info(cs + [cl], l) == Info(cs, l)
  {
    ClustersAtStep(cs, cl, l);
    assert ClustersAt(cs, l) + [] == ClustersAt(cs, l);
  }

  /** Folding one more cluster updates its own location's entry as the loop
      body does: add the signature, append the cluster, lower the earliest
      timestamp if it is unset or later. */
  lemma InfoHere(cs: seq<Cluster>, cl: Cluster)
    ensures Info(cs + [cl], cl.loc) == Fold(Info(cs, cl.loc), cl)
  {
    ClustersAtStep(cs, cl, cl.loc);
    AppendStep(ClustersAt(cs, cl.loc), cl);
  }

  /** One more cluster adds its location to the keys. */
  lemma LocationsStep(cs: seq<Cluster>, cl: Cluster)
    ensures Locations(cs + [cl]) == Locations(cs) + {cl.loc}
  {
    assert forall c :: c in cs + [cl] <==> c in cs || c == cl;
  }

  /** A table that agrees with `before` everywhere except at `key`, where
      it holds `v`, and has one more key at most, is `before` updated at `key`. */
  lemma UpdatedAt(before: map<Location, LocationInfo>, after: map<Location, LocationInfo>,
                  key: Location, v: LocationInfo)
    requires after.Keys == before.Keys + {key}
    requires after[key] == v
    requires forall l :: l in before && l != key ==> after[l] == before[l]
    ensures after == before[key := v]
  {
  }

  /** The entry the loop body starts from, fresh for a missing key, is the
      location's entry after `cs`. */
  lemma CurrentEntry(cs: seq<Cluster>, l: Location)
    ensures (if l in Scores(cs) then Scores(cs)[l] else Fresh()) == Info(cs, l)
  {
    if l !in Locations(cs) {
      UntouchedIsFresh(cs, l);
    }
  }

  /** Folding one more cluster into the table updates its location's entry,
      created fresh if missing, and nothing else. */
  lemma ScoresStep(cs: seq<Cluster>, cl: Cluster)
    ensures Scores(cs + [cl]) ==
      Scores(cs)[cl.loc := Fold(if cl.loc in Scores(cs) then Scores(cs)[cl.loc] else Fresh(), cl)]
  {
    var key := cl.loc;
    var before, after := Scores(cs), Scores(cs + [cl]);
    var entry := if key in before then before[key] else Fresh();
    LocationsStep(cs, cl);
    assert after.Keys == before.Keys + {key};
    CurrentEntry(cs, key);
    InfoHere(cs, cl);
    assert after[key] == Fold(entry, cl);
    forall l | l in before && l != key ensures after[l] == before[l] {
      InfoElsewhere(cs, cl, l);
    }
    UpdatedAt(before, after, key, Fold(entry, cl));
  }

  /** Folding one more cluster appends its location to the insertion order
      exactly when the location is new. */
  lemma OrderStep(cs: seq<Cluster>, cl: Cluster)
    ensures InsertionOrder(cs + [cl]) ==
      (if cl.loc in Locations(cs) then InsertionOrder(cs) else InsertionOrder(cs) + [cl.loc])
  {
    assert (cs + [cl])[..|cs|] == cs;
  }

  /** A location is a key of the table exactly when some cluster was found
      there; its entry then holds exactly those clusters (at least one), the
      sum of their signatures, and the earliest of their timestamps. */
  lemma ScoresEntries(cs: seq<Cluster>, l: Location)
    ensures l in Scores(cs) <==> exists c :: c in cs && c.loc == l
    ensures l in Scores(cs) ==>
      var e := Scores(cs)[l];
      && e.clusters != []
      && (forall c :: c in e.clusters <==> c in cs && c.loc == l)
      && e.score == TotalScore(e.clusters)
      && e.earliest.Some?
      && (exists c :: c in e.clusters && c.ts == e.earliest.value)
      && (forall c :: c in e.clusters ==> e.earliest.value <= c.ts)
  {
    ClustersAtMembers(cs, l);
    if l in Scores(cs) {
      var c :| c in cs && c.loc == l;
      assert c in ClustersAt(cs, l);
      EarliestIsMinimum(ClustersAt(cs, l));
    }
  }

  /** The table is empty exactly when no cluster was found. */
  lemma EmptyScores(cs: seq<Cluster>)
    ensures Scores(cs) == map[] <==> cs == []
  {
    if cs != [] {
      assert cs[0].loc in Scores(cs);
    }
  }

  /** The body of the scoring loop for one location's entry: add the
      signature, append the cluster, and set the earliest timestamp if it is
      unset or later than the cluster's. */
  method FoldCluster(info: LocationInfo, cl: Cluster) returns (r: LocationInfo)
    ensures r == Fold(info, cl)
  {
    r := info;
    r := r.(score := r.score + cl.signature);
    r := r.(clusters := r.clusters + [cl]);
    if r.earliest.None? {
      r := r.(earliest := Some(cl.ts));
    } else if cl.ts < r.earliest.value {
      r := r.(earliest := Some(cl.ts));
    }
  }

  /** The scoring loop over all clusters (the table starts empty and a
      missing key is created with the fresh entry on first use). */
  method AggregateScores(clusters: seq<Cluster>) returns (scores: map<Location, LocationInfo>, order: seq<Location>)
    ensures scores == Scores(clusters)
    ensures order == InsertionOrder(clusters)
  {
    scores, order := map[], [];
    for q := 0 to |clusters|
      invariant scores == Scores(clusters[..q])
      invariant order == InsertionOrder(clusters[..q])
    {
      var cl := clusters[q];
      ghost var prefix := clusters[..q];
      assert clusters[..q + 1] == prefix + [cl];
      ScoresStep(prefix, cl);
      OrderStep(prefix, cl);
      var key := cl.loc;
      var info := Fresh();
      if key in scores {
        info := scores[key];
      } else {
        order := order + [key];
      }
      info := FoldCluster(info, cl);
      scores := scores[key := info];
    }
    assert clusters[..|clusters|] == clusters;
  }
}
