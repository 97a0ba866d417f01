/** The whole search: detect the clusters of every location group, fold them
    into the score table, and pick the best location from it. */
module Hotspot {
  import opened TaxiTypes
  import opened ClusterDetection
  import opened Scoring
  import opened Selection
  import opened FarePattern

  /** Every entry of the table built from any clusters has an earliest
      timestamp, so the selection scan can compare them. */
  lemma TableIsTimed(cs: seq<Cluster>)
    ensures AllTimed(Scores(cs))
  {
    forall l | l in Scores(cs) ensures Scores(cs)[l].earliest.Some? {
      ScoresEntries(cs, l);
    }
  }

  /** When no location has three trips, no cluster is found. */
  lemma {:induction false} NoClustersInSmallGroups(groups: seq<Group>)
    requires forall g :: g in groups ==> |g.trips| < 3
    ensures AllClusters(groups) == []
  {
    if groups != [] {
      var front, last := groups[..|groups| - 1], groups[|groups| - 1];
      assert forall g :: g in front ==> g in groups;
      NoClustersInSmallGroups(front);
      SmallGroupClusters(last);
    }
  }

  /** Every cluster the table lists for a location was found at that
      location, comes from three distinct cars, and carries an ordering of its
      fares that satisfies the pattern, with the fares' sum as signature. */
  lemma ReportedClustersAreValid(groups: seq<Group>, l: Location, cl: Cluster)
    ensures l in Scores(AllClusters(groups)) && cl in Scores(AllClusters(groups))[l].clusters ==>
      && cl.loc == l
      && cl.cars.0 != cl.cars.1 && cl.cars.0 != cl.cars.2 && cl.cars.1 != cl.cars.2
      && IsRearrangement(cl.patternFares, cl.fares) && Matches(cl.patternFares)
      && cl.signature == cl.fares.0 + cl.fares.1 + cl.fares.2
  {
    var cs := AllClusters(groups);
    ScoresEntries(cs, l);
    if l in Scores(cs) && cl in Scores(cs)[l].clusters {
      AllClustersMembers(groups, cl);
      var g :| g in groups && cl in GroupClusters(g);
      var t := ExaminedTripleOf(g, cl);
      ClusterContents(g.loc, g.trips[t.0], g.trips[t.1], g.trips[t.2]);
    }
  }

  /** The hotspot search from the location groups of the decrypted trips to
      the chosen location. */
  method FindHotspot(groups: seq<Group>) returns (best: Option<Best>)
    ensures best.None? <==> AllClusters(groups) == []
    ensures best.Some? ==>
      var l := Location(best.value.lat, best.value.lon);
      && AllTimed(Scores(AllClusters(groups)))
      && l in Scores(AllClusters(groups))
      && best.value == Candidate(Scores(AllClusters(groups)), l)
      && IsHotspot(Scores(AllClusters(groups)), l)
  {
    var clusters := DetectClusters(groups);
    var scores, order := AggregateScores(clusters);
    TableIsTimed(clusters);
    EmptyScores(clusters);
    best := SelectBest(scores, order);
  }
}
