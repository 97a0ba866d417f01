/** Selection: the score table is scanned once and the best location is kept,
    with ties broken by earliest timestamp, then larger latitude, then larger
    longitude. */
module Selection {
  import opened TaxiTypes

  /** The record the scan keeps for the best location so far. */
  datatype Best = Best(lat: int, lon: int, score: int, earliest: int, clusters: seq<Cluster>)

  /** Whether a location with this score, earliest timestamp and coordinates
      replaces `best`: a higher score wins; on equal scores an earlier
      timestamp wins; then a larger latitude; then, on equal latitude, a
      larger longitude. */
  predicate IsBetter(score: int, earliest: int, lat: int, lon: int, best: Best)
  {
    if score > best.score then true
    else if score == best.score then
      if earliest < best.earliest then true
      else if earliest == best.earliest then
        if lat > best.lat then true
        else lat == best.lat && lon > best.lon
      else false
    else false
  }

  /** `a` would replace `b` in the scan. */
  predicate Beats(a: Best, b: Best)
  {
    IsBetter(a.score, a.earliest, a.lat, a.lon, b)
  }

  /** Lexicographic "greater than" on integer sequences of equal length. */
  predicate LexGreater(x: seq<int>, y: seq<int>)
    requires |x| == |y|
  {
    |x| > 0 && (x[0] > y[0] || (x[0] == y[0] && LexGreater(x[1..], y[1..])))
  }

  /** The ranking key of a record: larger is better. */
  function RankKey(a: Best): (k: seq<int>)
    ensures |k| == 4
  {
    [a.score, -a.earliest, a.lat, a.lon]
  }

  /** The tie-break comparison is the lexicographic order on (score,
      negated earliest timestamp, latitude, longitude). */
  lemma BeatsIsLexicographic(a: Best, b: Best)
    ensures Beats(a, b) <==> LexGreater(RankKey(a), RankKey(b))
  {
    var x, y := RankKey(a), RankKey(b);
    var x1, y1 := x[1..], y[1..];
    var x2, y2 := x1[1..], y1[1..];
    var x3, y3 := x2[1..], y2[1..];
    assert x3 == [a.lon] && y3 == [b.lon];
    assert LexGreater(x3, y3) <==> a.lon > b.lon;
    assert LexGreater(x2, y2) <==> a.lat > b.lat || (a.lat == b.lat && a.lon > b.lon);
    assert LexGreater(x1, y1) <==> -a.earliest > -b.earliest || (a.earliest == b.earliest && LexGreater(x2, y2));
  }

  lemma {:induction false} LexIrreflexive(x: seq<int>)
    ensures !LexGreater(x, x)
  {
    if |x| > 0 {
      LexIrreflexive(x[1..]);
    }
  }

  lemma {:induction false} LexTransitive(x: seq<int>, y: seq<int>, z: seq<int>)
    requires |x| == |y| == |z|
    requires LexGreater(x, y) && LexGreater(y, z)
    ensures LexGreater(x, z)
  {
    if x[0] == y[0] == z[0] {
      LexTransitive(x[1..], y[1..], z[1..]);
    }
  }

  lemma {:induction false} LexTotal(x: seq<int>, y: seq<int>)
    requires |x| == |y|
    requires x != y
    ensures LexGreater(x, y) || LexGreater(y, x)
  {
    if x[0] == y[0] {
      assert x == [x[0]] + x[1..] && y == [y[0]] + y[1..];
      LexTotal(x[1..], y[1..]);
    }
  }

  /** No record beats itself. */
  lemma BeatsIrreflexive(a: Best)
    ensures !Beats(a, a)
  {
    BeatsIsLexicographic(a, a);
    LexIrreflexive(RankKey(a));
  }

  /** A record that beats another is not beaten by it. */
  lemma BeatsAsymmetric(a: Best, b: Best)
    requires Beats(a, b)
    ensures !Beats(b, a)
  {
    BeatsIsLexicographic(a, b);
    BeatsIsLexicographic(b, a);
    if Beats(b, a) {
      LexTransitive(RankKey(a), RankKey(b), RankKey(a));
      LexIrreflexive(RankKey(a));
    }
  }

  lemma BeatsTransitive(a: Best, b: Best, c: Best)
    requires Beats(a, b) && Beats(b, c)
    ensures Beats(a, c)
  {
    BeatsIsLexicographic(a, b);
    BeatsIsLexicographic(b, c);
    BeatsIsLexicographic(a, c);
    LexTransitive(RankKey(a), RankKey(b), RankKey(c));
  }

  /** Records at different coordinates are always ordered one way or the other. */
  lemma BeatsTotal(a: Best, b: Best)
    requires (a.lat, a.lon) != (b.lat, b.lon)
    ensures Beats(a, b) || Beats(b, a)
  {
    BeatsIsLexicographic(a, b);
    BeatsIsLexicographic(b, a);
    assert RankKey(a)[2..] != RankKey(b)[2..];
    LexTotal(RankKey(a), RankKey(b));
  }

  /** Every entry of the table has an earliest timestamp. */
  predicate AllTimed(scores: map<Location, LocationInfo>)
  {
    forall l :: l in scores ==> scores[l].earliest.Some?
  }

  /** The record the scan builds for location `l`. */
  function Candidate(scores: map<Location, LocationInfo>, l: Location): (b: Best)
    requires l in scores && scores[l].earliest.Some?
    ensures (b.lat, b.lon) == (l.lat, l.lon)
  {
    var info := scores[l];
    Best(l.lat, l.lon, info.score, info.earliest.value, info.clusters)
  }

  /** `l` is the hotspot: a key of the table whose record beats every other key's. */
  ghost predicate IsHotspot(scores: map<Location, LocationInfo>, l: Location)
    requires AllTimed(scores)
  {
    && l in scores
    && forall m :: m in scores && m != l ==> Beats(Candidate(scores, l), Candidate(scores, m))
  }

  /** At most one location is the hotspot, so the answer does not depend on
      the order in which the table is scanned. */
  lemma HotspotUnique(scores: map<Location, LocationInfo>, l: Location, m: Location)
    requires AllTimed(scores)
    requires IsHotspot(scores, l) && IsHotspot(scores, m)
    ensures l == m
  {
    if l != m {
      BeatsAsymmetric(Candidate(scores, l), Candidate(scores, m));
    }
  }

  /** The selection scan over the keys of the table in `order`. */
  method SelectBest(scores: map<Location, LocationInfo>, order: seq<Location>) returns (best: Option<Best>)
    requires AllTimed(scores)
    requires forall l :: l in order <==> l in scores
    ensures best.None? <==> scores == map[]
    ensures best.Some? ==>
      var l := Location(best.value.lat, best.value.lon);
      l in scores && best.value == Candidate(scores, l) && IsHotspot(scores, l)
  {
    best := None;
    for q := 0 to |order|
      invariant best.None? <==> q == 0
      invariant best.Some? ==>
        var l := Location(best.value.lat, best.value.lon);
        && l in order[..q]
        && best.value == Candidate(scores, l)
        && forall p :: 0 <= p < q && order[p] != l ==> Beats(best.value, Candidate(scores, order[p]))
    {
      var l := order[q];
      var info := scores[l];
      var score, earliest := info.score, info.earliest.value;
      if best.None? {
        best := Some(Best(l.lat, l.lon, score, earliest, info.clusters));
      } else {
        var current := best.value;
        ghost var prev := Location(current.lat, current.lon);
        ghost var challenger := Candidate(scores, l);
        if IsBetter(score, earliest, l.lat, l.lon, current) {
          best := Some(Best(l.lat, l.lon, score, earliest, info.clusters));
          forall p | 0 <= p < q + 1 && order[p] != l
            ensures Beats(challenger, Candidate(scores, order[p]))
          {
            if order[p] != prev {
              BeatsTransitive(challenger, current, Candidate(scores, order[p]));
            }
          }
        } else if l != prev {
          BeatsTotal(challenger, current);
        }
      }
    }
    assert order[..|order|] == order;
    if scores != map[] {
      var m :| m in scores;
      assert m in order;
    }
    if best.Some? {
      var l := Location(best.value.lat, best.value.lon);
      forall m | m in scores && m != l
        ensures Beats(best.value, Candidate(scores, m))
      {
        var p :| 0 <= p < |order| && order[p] == m;
      }
    }
  }
}
