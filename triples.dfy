/** The index triples the detector visits in a group of n trips, in the order
    of its three nested loops: i over [0, n-2), j over [i+1, n-1), k over [j+1, n). */
module TripleEnumeration {

  type Triple = (int, int, int)

  /** (i, j, k) for k in [lo, hi), in increasing k: the innermost loop. */
  function KTriples(i: int, j: int, lo: int, hi: int): seq<Triple>
    decreases hi - lo
  {
    if hi <= lo then [] else KTriples(i, j, lo, hi - 1) + [(i, j, hi - 1)]
  }

  /** The middle loop over j in [lo, hi), each followed by its innermost loop up to n. */
  function JTriples(i: int, n: int, lo: int, hi: int): seq<Triple>
    decreases hi - lo
  {
    if hi <= lo then [] else JTriples(i, n, lo, hi - 1) + KTriples(i, hi - 1, hi, n)
  }

  /** The outer loop over i in [0, hi). */
  function ITriples(n: int, hi: int): seq<Triple>
    decreases hi
  {
    if hi <= 0 then [] else ITriples(n, hi - 1) + JTriples(hi - 1, n, hi, n - 1)
  }

  /** Every triple examined in a group of n trips, in loop order. */
  function Triples(n: nat): seq<Triple>
  {
    ITriples(n, n - 2)
  }

  /** Lexicographic order on index triples: the order the loops visit them in. */
  predicate LexLess(s: Triple, t: Triple)
  {
    s.0 < t.0 || (s.0 == t.0 && (s.1 < t.1 || (s.1 == t.1 && s.2 < t.2)))
  }

  predicate StrictlyIncreasing(ts: seq<Triple>)
  {
    forall p, q :: 0 <= p < q < |ts| ==> LexLess(ts[p], ts[q])
  }

  lemma {:induction false} KTriplesMembers(i: int, j: int, lo: int, hi: int, t: Triple)
    ensures t in KTriples(i, j, lo, hi) <==> t.0 == i && t.1 == j && lo <= t.2 < hi
    decreases hi - lo
  {
    if lo < hi {
      var k := hi - 1;
      var front := KTriples(i, j, lo, k);
      assert KTriples(i, j, lo, hi) == front + [(i, j, k)];
      KTriplesMembers(i, j, lo, k, t);
      assert t in front + [(i, j, k)] <==> t in front || t == (i, j, k);
    }
  }

  lemma {:induction false} JTriplesMembers(i: int, n: int, lo: int, hi: int, t: Triple)
    ensures t in JTriples(i, n, lo, hi) <==> t.0 == i && lo <= t.1 < hi && t.1 < t.2 < n
    decreases hi - lo
  {
    if lo < hi {
      var j := hi - 1;
      var front, back := JTriples(i, n, lo, j), KTriples(i, j, hi, n);
      assert JTriples(i, n, lo, hi) == front + back;
      JTriplesMembers(i, n, lo, j, t);
      KTriplesMembers(i, j, hi, n, t);
      assert t in front + back <==> t in front || t in back;
    }
  }

  lemma {:induction false} ITriplesMembers(n: int, hi: int, t: Triple)
    ensures t in ITriples(n, hi) <==> 0 <= t.0 < hi && t.0 < t.1 < n - 1 && t.1 < t.2 < n
    decreases hi
  {
    if 0 < hi {
      ITriplesMembers(n, hi - 1, t);
      OuterStep(n, hi, t);
    }
  }

  /** One step of the outer loop: the triples with first index below hi are
      those with first index below hi - 1 and those the middle loop visits for hi - 1. */
  lemma OuterStep(n: int, hi: int, t: Triple)
    requires 0 < hi
    requires t in ITriples(n, hi - 1) <==> 0 <= t.0 < hi - 1 && t.0 < t.1 < n - 1 && t.1 < t.2 < n
    ensures t in ITriples(n, hi) <==> 0 <= t.0 < hi && t.0 < t.1 < n - 1 && t.1 < t.2 < n
  {
    JTriplesMembers(hi - 1, n, hi, n - 1, t);
  }

  /** Exactly the triples i < j < k of indices into the group are examined. */
  lemma TriplesMembers(n: nat, t: Triple)
    ensures t in Triples(n) <==> 0 <= t.0 < t.1 < t.2 < n
  {
    ITriplesMembers(n, n - 2, t);
  }

  lemma ConcatIncreasing(a: seq<Triple>, b: seq<Triple>)
    requires StrictlyIncreasing(a) && StrictlyIncreasing(b)
    requires forall s, t :: s in a && t in b ==> LexLess(s, t)
    ensures StrictlyIncreasing(a + b)
  {
    forall p, q | 0 <= p < q < |a + b| ensures LexLess((a + b)[p], (a + b)[q]) {
      if q < |a| {
      } else if p < |a| {
        assert (a + b)[p] in a && (a + b)[q] in b;
      } else {
        assert (a + b)[p] == b[p - |a|] && (a + b)[q] == b[q - |a|];
      }
    }
  }

  lemma {:induction false} KTriplesIncreasing(i: int, j: int, lo: int, hi: int)
    ensures StrictlyIncreasing(KTriples(i, j, lo, hi))
    decreases hi - lo
  {
    if lo < hi {
      var last := hi - 1;
      var front := KTriples(i, j, lo, last);
      KTriplesIncreasing(i, j, lo, last);
      forall s | s in front ensures LexLess(s, (i, j, last)) {
        KTriplesMembers(i, j, lo, last, s);
      }
      ConcatIncreasing(front, [(i, j, last)]);
    }
  }

  lemma {:induction false} JTriplesIncreasing(i: int, n: int, lo: int, hi: int)
    ensures StrictlyIncreasing(JTriples(i, n, lo, hi))
    decreases hi - lo
  {
    if lo < hi {
      var j := hi - 1;
      var front, back := JTriples(i, n, lo, j), KTriples(i, j, hi, n);
      JTriplesIncreasing(i, n, lo, j);
      KTriplesIncreasing(i, j, hi, n);
      forall s, t | s in front && t in back ensures LexLess(s, t) {
        JTriplesMembers(i, n, lo, j, s);
        KTriplesMembers(i, j, hi, n, t);
      }
      ConcatIncreasing(front, back);
    }
  }

  lemma {:induction false} ITriplesIncreasing(n: int, hi: int)
    ensures StrictlyIncreasing(ITriples(n, hi))
    decreases hi
  {
    if 0 < hi {
      var i := hi - 1;
      var front, back := ITriples(n, i), JTriples(i, n, hi, n - 1);
      ITriplesIncreasing(n, i);
      JTriplesIncreasing(i, n, hi, n - 1);
      forall s, t | s in front && t in back ensures LexLess(s, t) {
        ITriplesMembers(n, i, s);
        JTriplesMembers(i, n, hi, n - 1, t);
      }
      ConcatIncreasing(front, back);
    }
  }

  /** The loops visit the triples in strictly increasing lexicographic order,
      so no triple is examined twice. */
  lemma TriplesIncreasing(n: nat)
    ensures StrictlyIncreasing(Triples(n))
    ensures forall p, q :: 0 <= p < q < |Triples(n)| ==> Triples(n)[p] != Triples(n)[q]
  {
    ITriplesIncreasing(n, n - 2);
  }

  /** A group of fewer than three trips has no triple to examine; a group of
      exactly three has one. */
  lemma SmallGroups(n: nat)
    ensures n < 3 ==> Triples(n) == []
    ensures n == 3 ==> Triples(n) == [(0, 1, 2)]
  {
    if n == 3 {
      assert JTriples(0, 3, 1, 2) == KTriples(0, 1, 2, 3);
    }
  }
}
