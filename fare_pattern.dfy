/** The fare-pattern test applied to three decrypted fares: some ordering
    (A, B, C) of them has B = |A - C| + (A mod C), with Python's modulo. */
module FarePattern {
  import opened TaxiTypes

  function Abs(x: int): int
  {
    if x < 0 then -x else x
  }

  /** Python's `//`: the quotient rounded towards minus infinity. */
  function FloorDiv(a: int, c: int): int
    requires c != 0
  {
    if 0 < c || a % c == 0 then a / c else a / c - 1
  }

  /** Python's `%`: the remainder has the sign of the divisor (floor division),
      unlike Dafny's `%`, whose remainder is never negative. */
  function FloorMod(a: int, c: int): int
    requires c != 0
  {
    if 0 < c || a % c == 0 then a % c else a % c + c
  }

  /** The remainder lies between zero and the divisor, on the divisor's side,
      and completes the floor quotient to the dividend. */
  lemma FloorModIsRemainder(a: int, c: int)
    requires c != 0
    ensures 0 < c ==> 0 <= FloorMod(a, c) < c
    ensures c < 0 ==> c < FloorMod(a, c) <= 0
    ensures a == FloorDiv(a, c) * c + FloorMod(a, c)
  {
    var q := a / c;
    assert a == q * c + a % c;
    if !(0 < c || a % c == 0) {
      assert (q - 1) * c == q * c - c;
    }
  }

  /** The pattern B = |A - C| + (A mod C). A zero divisor C makes the
      remainder undefined (NaN on floats), and NaN is close to nothing. */
  predicate Matches(p: FareTriple)
  {
    p.2 != 0 && p.1 == Abs(p.0 - p.2) + FloorMod(p.0, p.2)
  }

  lemma ZeroDivisorNeverMatches(a: int, b: int)
    ensures !Matches((a, b, 0))
  {
  }

  /** How many of the three fares equal `v`. */
  function Count(p: FareTriple, v: int): nat
  {
    (if p.0 == v then 1 else 0) + (if p.1 == v then 1 else 0) + (if p.2 == v then 1 else 0)
  }

  /** `p` holds the same three fares as `f`, in some order: every value occurs
      in both equally often. */
  ghost predicate IsRearrangement(p: FareTriple, f: FareTriple)
  {
    forall v :: Count(p, v) == Count(f, v)
  }

  /** The orderings of `f` in the order `itertools.permutations` yields them. */
  function Permutations(f: FareTriple): seq<FareTriple>
  {
    [(f.0, f.1, f.2), (f.0, f.2, f.1), (f.1, f.0, f.2),
     (f.1, f.2, f.0), (f.2, f.0, f.1), (f.2, f.1, f.0)]
  }

  /** A rearrangement that starts with the same fare as `f` keeps or swaps the other two. */
  lemma SameFirst(f: FareTriple, p: FareTriple)
    requires IsRearrangement(p, f) && p.0 == f.0
    ensures p == (f.0, f.1, f.2) || p == (f.0, f.2, f.1)
  {
    assert Count(p, p.1) == Count(f, p.1);
    assert Count(p, p.2) == Count(f, p.2);
    assert Count(p, f.1) == Count(f, f.1);
    assert Count(p, f.2) == Count(f, f.2);
  }

  lemma RearrangementIsPermutation(f: FareTriple, p: FareTriple)
    requires IsRearrangement(p, f)
    ensures p in Permutations(f)
  {
    assert Count(p, p.0) == Count(f, p.0);
    if p.0 == f.0 {
      SameFirst(f, p);
    } else if p.0 == f.1 {
      var g := (f.1, f.0, f.2);
      assert forall v :: Count(g, v) == Count(f, v);
      SameFirst(g, p);
    } else {
      var g := (f.2, f.0, f.1);
      assert forall v :: Count(g, v) == Count(f, v);
      SameFirst(g, p);
    }
  }

  lemma PermutationIsRearrangement(f: FareTriple, q: int)
    requires 0 <= q < 6
    ensures IsRearrangement(Permutations(f)[q], f)
  {
    var p := Permutations(f)[q];
    forall v ensures Count(p, v) == Count(f, v) {
    }
  }

  /** The six permutations are exactly the rearrangements of the three fares. */
  lemma PermutationsAreRearrangements(f: FareTriple, p: FareTriple)
    ensures p in Permutations(f) <==> IsRearrangement(p, f)
  {
    if IsRearrangement(p, f) {
      RearrangementIsPermutation(f, p);
    } else if p in Permutations(f) {
      var q :| 0 <= q < 6 && Permutations(f)[q] == p;
      PermutationIsRearrangement(f, q);
    }
  }

  /** The ordering the permutation loop stops at: the first of the six, in
      `itertools` order, that matches, if any. */
  function FirstPattern(f: FareTriple): Option<FareTriple>
  {
    var ps := Permutations(f);
    if Matches(ps[0]) then Some(ps[0])
    else if Matches(ps[1]) then Some(ps[1])
    else if Matches(ps[2]) then Some(ps[2])
    else if Matches(ps[3]) then Some(ps[3])
    else if Matches(ps[4]) then Some(ps[4])
    else if Matches(ps[5]) then Some(ps[5])
    else None
  }

  /** A pattern is found iff some rearrangement of the fares matches; the one
      found is such a rearrangement, and no ordering tried before it matches. */
  lemma FirstPatternIffSomeRearrangementMatches(f: FareTriple)
    ensures FirstPattern(f).Some? <==> exists p :: IsRearrangement(p, f) && Matches(p)
    ensures FirstPattern(f).Some? ==>
      IsRearrangement(FirstPattern(f).value, f) && Matches(FirstPattern(f).value)
  {
    if FirstPattern(f).Some? {
      PermutationsAreRearrangements(f, FirstPattern(f).value);
    } else {
      forall p | IsRearrangement(p, f) ensures !Matches(p) {
        PermutationsAreRearrangements(f, p);
      }
    }
  }

  /** The ordering found is the first of the six, in `itertools` order, that matches. */
  lemma FirstPatternIsFirstMatch(f: FareTriple)
    requires FirstPattern(f).Some?
    ensures exists q ::
      && 0 <= q < 6
      && Permutations(f)[q] == FirstPattern(f).value
      && forall e :: 0 <= e < q ==> !Matches(Permutations(f)[e])
  {
  }

  /** The permutation loop: try the orderings in turn and stop at the first match. */
  method FindPattern(f: FareTriple) returns (pattern: Option<FareTriple>)
    ensures pattern == FirstPattern(f)
  {
    var perms := Permutations(f);
    var q := 0;
    pattern := None;
    while q < |perms|
      invariant 0 <= q <= |perms|
      invariant forall e :: 0 <= e < q ==> !Matches(perms[e])
      invariant pattern == None
    {
      if Matches(perms[q]) {
        pattern := Some(perms[q]);
        break;
      }
      q := q + 1;
    }
  }

  /** The fares (2017, 17, 1417) printed as the answer's cluster satisfy the
      pattern under none of their six orderings. */
  lemma PrintedClusterHasNoPattern()
    ensures FirstPattern((2017, 17, 1417)) == None
  {
  }
}
