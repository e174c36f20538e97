/**
 The residual evaluator of a consensus ADMM iteration: the primal residual
 r = sqrt(sum over workers i and keys k of x_i of (x_i[k] - xbar[k])^2) and
 the dual residual s = rho * sqrt(sum of (xbar[k] - xbarold[k])^2 over the
 same pairs), computed by loops over the workers and over each worker's keys.
 Every read of `xbar[k]` and `xbarold[k]` goes through a `defaultdict`, so the
 loops also insert the keys they visit into both mappings.
 */
module Residuals {
  import opened SparseMaps
  import opened Sums

  function Sq(v: real): real
  {
    v * v
  }

  /** `np.sqrt` over the reals: the non-negative square root of every
      non-negative argument. */
  ghost predicate IsSqrt(sqrt: real -> real)
  {
    forall v :: 0.0 <= v ==> 0.0 <= sqrt(v) && Sq(sqrt(v)) == v
  }

  /** The squared local-versus-consensus difference at each key of one local solution. */
  ghost function PrimalTerms(x: SparseMap, xbar: SparseMap): (t: SparseMap)
    ensures t.Keys == x.Keys
  {
    map k | k in x :: Sq(x[k] - Get(xbar, k))
  }

  /** The squared movement of the consensus at each key of one local solution. */
  ghost function DualTerms(x: SparseMap, xbar: SparseMap, xbarold: SparseMap): (t: SparseMap)
    ensures t.Keys == x.Keys
  {
    map k | k in x :: Sq(Get(xbar, k) - Get(xbarold, k))
  }

  ghost function PrimalTermsOf(xs: seq<SparseMap>, xbar: SparseMap): (ts: seq<SparseMap>)
    ensures |ts| == |xs|
  {
    seq(|xs|, i requires 0 <= i < |xs| => PrimalTerms(xs[i], xbar))
  }

  ghost function DualTermsOf(xs: seq<SparseMap>, xbar: SparseMap, xbarold: SparseMap): (ts: seq<SparseMap>)
    ensures |ts| == |xs|
  {
    seq(|xs|, i requires 0 <= i < |xs| => DualTerms(xs[i], xbar, xbarold))
  }

  /** The square of the primal residual. */
  ghost function PrimalSq(xs: seq<SparseMap>, xbar: SparseMap): real
  {
    Total(PrimalTermsOf(xs, xbar))
  }

  /** The square of the dual residual before scaling by rho. */
  ghost function DualSq(xs: seq<SparseMap>, xbar: SparseMap, xbarold: SparseMap): real
  {
    Total(DualTermsOf(xs, xbar, xbarold))
  }

  /** Every worker's value equals the consensus value at every key it returned. */
  ghost predicate Consensus(xs: seq<SparseMap>, xbar: SparseMap)
  {
    forall i, k :: 0 <= i < |xs| && k in xs[i] ==> xs[i][k] == Get(xbar, k)
  }

  /** The consensus did not move at any key some worker returned. */
  ghost predicate Settled(xs: seq<SparseMap>, xbar: SparseMap, xbarold: SparseMap)
  {
    forall i, k :: 0 <= i < |xs| && k in xs[i] ==> Get(xbar, k) == Get(xbarold, k)
  }

  /** Every key some worker returned. */
  ghost function KeysOf(xs: seq<SparseMap>): (ks: set<Key>)
    ensures forall i, k :: 0 <= i < |xs| && k in xs[i] ==> k in ks
  {
    if xs == [] then {} else KeysOf(xs[..|xs| - 1]) + xs[|xs| - 1].Keys
  }

  lemma KeysOfSnoc(xs: seq<SparseMap>, i: nat)
    requires i < |xs|
    ensures KeysOf(xs[..i + 1]) == KeysOf(xs[..i]) + xs[i].Keys
  {
    assert xs[..i + 1][..i] == xs[..i];
  }

  lemma MulSelfPos(v: real)
    requires v > 0.0
    ensures v * v > 0.0
  {
  }

  /** Wraps a disequality so that the solver carries it by congruence
      instead of by non-linear arithmetic. */
  predicate NonZero(v: real)
  {
    v != 0.0
  }

  lemma MulSelfNonZero(v: real)
    requires v != 0.0
    ensures NonZero(v * v)
  {
    if v > 0.0 {
      MulSelfPos(v);
    } else {
      MulSelfPos(-v);
      assert (-v) * (-v) == v * v;
    }
  }

  lemma SqIsProduct(v: real)
    ensures Sq(v) == v * v
  {
  }

  lemma SqNonNeg(v: real)
    ensures Sq(v) >= 0.0
  {
  }

  /** A square is non-negative, and zero only for zero. */
  lemma SqZeroIff(v: real)
    ensures Sq(v) >= 0.0
    ensures Sq(v) == 0.0 <==> v == 0.0
  {
    SqNonNeg(v);
    if v != 0.0 {
      MulSelfNonZero(v);
      SqIsProduct(v);
      assert NonZero(Sq(v));
    }
  }

  lemma SqrtZeroIff(sqrt: real -> real, v: real)
    requires IsSqrt(sqrt) && v >= 0.0
    ensures sqrt(v) >= 0.0
    ensures sqrt(v) == 0.0 <==> v == 0.0
  {
    SqZeroIff(sqrt(v));
  }

  lemma MulNonNeg(a: real, b: real)
    requires a >= 0.0 && b >= 0.0
    ensures a * b >= 0.0
  {
  }

  lemma MulPos(a: real, b: real)
    requires a > 0.0 && b > 0.0
    ensures a * b > 0.0
  {
  }

  /** The squared primal residual is non-negative, and it is zero exactly when
      the local solutions agree with the consensus. */
  lemma PrimalSqZeroIff(xs: seq<SparseMap>, xbar: SparseMap)
    ensures PrimalSq(xs, xbar) >= 0.0
    ensures PrimalSq(xs, xbar) == 0.0 <==> Consensus(xs, xbar)
  {
    var ts := PrimalTermsOf(xs, xbar);
    forall i, k | 0 <= i < |xs| && k in xs[i]
      ensures k in ts[i] && ts[i][k] >= 0.0
      ensures ts[i][k] == 0.0 <==> xs[i][k] == Get(xbar, k)
    {
      var d := xs[i][k] - Get(xbar, k);
      assert ts[i][k] == Sq(d);
      SqZeroIff(d);
    }
    TotalZeroIff(ts);
  }

  /** The squared dual residual is non-negative, and it is zero exactly when
      the consensus did not move at any key a worker returned. */
  lemma DualSqZeroIff(xs: seq<SparseMap>, xbar: SparseMap, xbarold: SparseMap)
    ensures DualSq(xs, xbar, xbarold) >= 0.0
    ensures DualSq(xs, xbar, xbarold) == 0.0 <==> Settled(xs, xbar, xbarold)
  {
    var ts := DualTermsOf(xs, xbar, xbarold);
    forall i, k | 0 <= i < |xs| && k in xs[i]
      ensures k in ts[i] && ts[i][k] >= 0.0
      ensures ts[i][k] == 0.0 <==> Get(xbar, k) == Get(xbarold, k)
    {
      var d := Get(xbar, k) - Get(xbarold, k);
      assert ts[i][k] == Sq(d);
      SqZeroIff(d);
    }
    TotalZeroIff(ts);
  }

  /** The residuals see the mappings only through lookups, so the keys that
      reads insert with 0.0 do not change them. */
  lemma ResidualSqSameLookups(xs: seq<SparseMap>, a: SparseMap, a': SparseMap, b: SparseMap, b': SparseMap)
    requires SameLookups(a, a') && SameLookups(b, b')
    ensures PrimalSq(xs, a) == PrimalSq(xs, a')
    ensures DualSq(xs, a, b) == DualSq(xs, a', b')
  {
    forall i | 0 <= i < |xs|
      ensures PrimalTerms(xs[i], a) == PrimalTerms(xs[i], a')
      ensures DualTerms(xs[i], a, b) == DualTerms(xs[i], a', b')
    {
    }
    assert PrimalTermsOf(xs, a) == PrimalTermsOf(xs, a');
    assert DualTermsOf(xs, a, b) == DualTermsOf(xs, a', b');
  }

  /** The primal residual is non-negative, and zero exactly at consensus. */
  lemma PrimalResidualZeroIff(xs: seq<SparseMap>, xbar: SparseMap, sqrt: real -> real)
    requires IsSqrt(sqrt)
    ensures sqrt(PrimalSq(xs, xbar)) >= 0.0
    ensures sqrt(PrimalSq(xs, xbar)) == 0.0 <==> Consensus(xs, xbar)
  {
    PrimalSqZeroIff(xs, xbar);
    SqrtZeroIff(sqrt, PrimalSq(xs, xbar));
  }

  /** With a non-negative rho the dual residual is non-negative and it is zero
      when the consensus did not move; with a positive rho, only then. */
  lemma DualResidualZeroIff(xs: seq<SparseMap>, xbar: SparseMap, xbarold: SparseMap, rho: real, sqrt: real -> real)
    requires IsSqrt(sqrt) && rho >= 0.0
    ensures rho * sqrt(DualSq(xs, xbar, xbarold)) >= 0.0
    ensures Settled(xs, xbar, xbarold) ==> rho * sqrt(DualSq(xs, xbar, xbarold)) == 0.0
    ensures rho > 0.0 ==> (rho * sqrt(DualSq(xs, xbar, xbarold)) == 0.0 <==> Settled(xs, xbar, xbarold))
  {
    DualSqZeroIff(xs, xbar, xbarold);
    var q := DualSq(xs, xbar, xbarold);
    SqrtZeroIff(sqrt, q);
    MulNonNeg(rho, sqrt(q));
    if rho > 0.0 && sqrt(q) > 0.0 {
      MulPos(rho, sqrt(q));
    }
  }

  lemma PrimalTermAt(x: SparseMap, xbar: SparseMap, k: Key, xbark: real)
    requires k in x && xbark == Get(xbar, k)
    ensures Get(PrimalTerms(x, xbar), k) == Sq(x[k] - xbark)
  {
  }

  lemma DualTermAt(x: SparseMap, xbar: SparseMap, xbarold: SparseMap, k: Key, xbark: real, xbaroldk: real)
    requires k in x && xbark == Get(xbar, k) && xbaroldk == Get(xbarold, k)
    ensures Get(DualTerms(x, xbar, xbarold), k) == Sq(xbark - xbaroldk)
  {
  }

  /**
   One pass of the inner loop of `float_residuals`: `xbar[k]` followed by
   `xbarold[k]`, both zero-default reads that insert `k`, and the two squared
   differences added to the running sums. `done` holds the keys touched before.
   */
  method VisitKey(x: SparseMap, k: Key, xbar: DefaultDict, xbarold: DefaultDict, rSq: real, sSq: real,
                  ghost xb0: SparseMap, ghost xo0: SparseMap, ghost done: set<Key>)
    returns (rSq': real, sSq': real)
    requires k in x
    requires xbar.entries == TouchAll(xb0, done)
    requires xbarold.entries == TouchAll(xo0, done)
    requires xbar == xbarold ==> xb0 == xo0
    modifies xbar, xbarold
    ensures rSq' == rSq + Get(PrimalTerms(x, xb0), k)
    ensures sSq' == sSq + Get(DualTerms(x, xb0, xo0), k)
    ensures xbar.entries == TouchAll(xb0, done + {k})
    ensures xbarold.entries == TouchAll(xo0, done + {k})
  {
    var xbark := xbar.Read(k);
    TouchAfterTouchAll(xb0, done, k);
    if xbarold == xbar {
      TouchAfterTouchAll(xo0, done + {k}, k);
      assert done + {k} + {k} == done + {k};
    } else {
      TouchAfterTouchAll(xo0, done, k);
    }
    var xbaroldk := xbarold.Read(k);
    PrimalTermAt(x, xb0, k, xbark);
    DualTermAt(x, xb0, xo0, k, xbark, xbaroldk);
    rSq' := rSq + Sq(x[k] - xbark);
    sSq' := sSq + Sq(xbark - xbaroldk);
  }

  /** What one visit of the inner loop keeps: both running sums still balance
      the keys left to visit, and the touched keys grow by the key visited. */
  lemma VisitKeyKeepsBalance(pt: SparseMap, dt: SparseMap, keys: set<Key>, seen: set<Key>, rest: set<Key>,
                             k: Key, r0: real, s0: real, r1: real, s1: real)
    requires k in rest && rest <= keys
    requires r0 + SumOver(pt, rest) == SumOver(pt, keys) && r1 == r0 + Get(pt, k)
    requires s0 + SumOver(dt, rest) == SumOver(dt, keys) && s1 == s0 + Get(dt, k)
    ensures r1 + SumOver(pt, rest - {k}) == SumOver(pt, keys)
    ensures s1 + SumOver(dt, rest - {k}) == SumOver(dt, keys)
    ensures seen + (keys - rest) + {k} == seen + (keys - (rest - {k}))
  {
    SumOverStep(pt, keys, rest, k, r0, Get(pt, k), r1);
    SumOverStep(dt, keys, rest, k, s0, Get(dt, k), s1);
  }

  /**
   The inner loop of `float_residuals` over the keys of one worker's solution
   `x`: it returns the two partial sums this worker contributes and touches
   its keys in both mappings. `seen` holds the keys touched before.
   */
  method WorkerResiduals(x: SparseMap, xbar: DefaultDict, xbarold: DefaultDict,
                         ghost xb0: SparseMap, ghost xo0: SparseMap, ghost seen: set<Key>)
    returns (rSq: real, sSq: real)
    requires xbar.entries == TouchAll(xb0, seen)
    requires xbarold.entries == TouchAll(xo0, seen)
    requires xbar == xbarold ==> xb0 == xo0
    modifies xbar, xbarold
    ensures rSq == SumOver(PrimalTerms(x, xb0), x.Keys)
    ensures sSq == SumOver(DualTerms(x, xb0, xo0), x.Keys)
    ensures xbar.entries == TouchAll(xb0, seen + x.Keys)
    ensures xbarold.entries == TouchAll(xo0, seen + x.Keys)
  {
    ghost var pt, dt := PrimalTerms(x, xb0), DualTerms(x, xb0, xo0);
    rSq, sSq := 0.0, 0.0;
    var rest := x.Keys;
    while rest != {}
      invariant rest <= x.Keys
      invariant rSq + SumOver(pt, rest) == SumOver(pt, x.Keys)
      invariant sSq + SumOver(dt, rest) == SumOver(dt, x.Keys)
      invariant xbar.entries == TouchAll(xb0, seen + (x.Keys - rest))
      invariant xbarold.entries == TouchAll(xo0, seen + (x.Keys - rest))
      decreases rest
    {
      var k :| k in rest;
      ghost var rPrev, sPrev := rSq, sSq;
      rSq, sSq := VisitKey(x, k, xbar, xbarold, rSq, sSq, xb0, xo0, seen + (x.Keys - rest));
      VisitKeyKeepsBalance(pt, dt, x.Keys, seen, rest, k, rPrev, sPrev, rSq, sSq);
      rest := rest - {k};
    }
    assert x.Keys - rest == x.Keys;
  }

  /** The loops of `float_residuals`: for every worker and every key it
      returned, add the squared differences with a plain multiplication. */
  method SquaredSums(xs: seq<SparseMap>, xbar: DefaultDict, xbarold: DefaultDict)
    returns (rSq: real, sSq: real)
    modifies xbar, xbarold
    ensures rSq == PrimalSq(xs, old(xbar.entries))
    ensures sSq == DualSq(xs, old(xbar.entries), old(xbarold.entries))
    ensures xbar.entries == TouchAll(old(xbar.entries), KeysOf(xs))
    ensures xbarold.entries == TouchAll(old(xbarold.entries), KeysOf(xs))
  {
    ghost var xb0, xo0 := xbar.entries, xbarold.entries;
    ghost var pt, dt := PrimalTermsOf(xs, xb0), DualTermsOf(xs, xb0, xo0);
    rSq, sSq := 0.0, 0.0;
    TouchAllNothing(xb0);
    TouchAllNothing(xo0);
    for i := 0 to |xs|
      invariant rSq == Total(pt[..i]) && sSq == Total(dt[..i])
      invariant xbar.entries == TouchAll(xb0, KeysOf(xs[..i]))
      invariant xbarold.entries == TouchAll(xo0, KeysOf(xs[..i]))
    {
      var rI, sI := WorkerResiduals(xs[i], xbar, xbarold, xb0, xo0, KeysOf(xs[..i]));
      rSq, sSq := rSq + rI, sSq + sI;
      TotalSnoc(pt, i);
      TotalSnoc(dt, i);
      KeysOfSnoc(xs, i);
    }
    assert pt[..|xs|] == pt && dt[..|xs|] == dt && xs[..|xs|] == xs;
  }

  /**
   `float_residuals`, the active residual function: the primal residual is
   the root of the summed squared differences between the local solutions
   and the consensus, the dual residual rho times the root of the summed
   squared movements of the consensus.
   */
  method FloatResiduals(xs: seq<SparseMap>, xbar: DefaultDict, xbarold: DefaultDict, rho: real, sqrt: real -> real)
    returns (r: real, s: real)
    modifies xbar, xbarold
    ensures r == sqrt(PrimalSq(xs, old(xbar.entries)))
    ensures s == rho * sqrt(DualSq(xs, old(xbar.entries), old(xbarold.entries)))
    ensures xbar.entries == TouchAll(old(xbar.entries), KeysOf(xs))
    ensures xbarold.entries == TouchAll(old(xbarold.entries), KeysOf(xs))
  {
    var rSq, sSq := SquaredSums(xs, xbar, xbarold);
    r, s := sqrt(rSq), rho * sqrt(sSq);
  }

  // `general_residuals2` repeats the loops of `float_residuals` with its own
  // names and its own array branch, so its scalar branch keeps separate
  // members here, each proved to give what its `float_residuals` twin gives.

  /**
   One pass of the inner loop of `general_residuals2` on scalar values: the
   two differences are named `rval` and `sval`, and the scalar branch adds
   their squares.
   */
  method VisitKeyScalar(x: SparseMap, k: Key, xbar: DefaultDict, xbarold: DefaultDict, rSq: real, sSq: real,
                        ghost xb0: SparseMap, ghost xo0: SparseMap, ghost done: set<Key>)
    returns (rSq': real, sSq': real)
    requires k in x
    requires xbar.entries == TouchAll(xb0, done)
    requires xbarold.entries == TouchAll(xo0, done)
    requires xbar == xbarold ==> xb0 == xo0
    modifies xbar, xbarold
    ensures rSq' == rSq + Get(PrimalTerms(x, xb0), k)
    ensures sSq' == sSq + Get(DualTerms(x, xb0, xo0), k)
    ensures xbar.entries == TouchAll(xb0, done + {k})
    ensures xbarold.entries == TouchAll(xo0, done + {k})
  {
    var xbark := xbar.Read(k);
    TouchAfterTouchAll(xb0, done, k);
    var rval := x[k] - xbark;
    if xbarold == xbar {
      TouchAfterTouchAll(xo0, done + {k}, k);
      assert done + {k} + {k} == done + {k};
    } else {
      TouchAfterTouchAll(xo0, done, k);
    }
    var xbaroldk := xbarold.Read(k);
    var sval := xbark - xbaroldk;
    PrimalTermAt(x, xb0, k, xbark);
    DualTermAt(x, xb0, xo0, k, xbark, xbaroldk);
    rSq' := rSq + Sq(rval);
    sSq' := sSq + Sq(sval);
  }

  /** The inner loop of `general_residuals2` over the keys of one worker's solution. */
  method WorkerResidualsScalar(x: SparseMap, xbar: DefaultDict, xbarold: DefaultDict,
                               ghost xb0: SparseMap, ghost xo0: SparseMap, ghost seen: set<Key>)
    returns (rSq: real, sSq: real)
    requires xbar.entries == TouchAll(xb0, seen)
    requires xbarold.entries == TouchAll(xo0, seen)
    requires xbar == xbarold ==> xb0 == xo0
    modifies xbar, xbarold
    ensures rSq == SumOver(PrimalTerms(x, xb0), x.Keys)
    ensures sSq == SumOver(DualTerms(x, xb0, xo0), x.Keys)
    ensures xbar.entries == TouchAll(xb0, seen + x.Keys)
    ensures xbarold.entries == TouchAll(xo0, seen + x.Keys)
  {
    ghost var pt, dt := PrimalTerms(x, xb0), DualTerms(x, xb0, xo0);
    rSq, sSq := 0.0, 0.0;
    var rest := x.Keys;
    while rest != {}
      invariant rest <= x.Keys
      invariant rSq + SumOver(pt, rest) == SumOver(pt, x.Keys)
      invariant sSq + SumOver(dt, rest) == SumOver(dt, x.Keys)
      invariant xbar.entries == TouchAll(xb0, seen + (x.Keys - rest))
      invariant xbarold.entries == TouchAll(xo0, seen + (x.Keys - rest))
      decreases rest
    {
      var k :| k in rest;
      ghost var rPrev, sPrev := rSq, sSq;
      rSq, sSq := VisitKeyScalar(x, k, xbar, xbarold, rSq, sSq, xb0, xo0, seen + (x.Keys - rest));
      VisitKeyKeepsBalance(pt, dt, x.Keys, seen, rest, k, rPrev, sPrev, rSq, sSq);
      rest := rest - {k};
    }
    assert x.Keys - rest == x.Keys;
  }

  /** The loops of `general_residuals2` on scalar values, through the branch
      that squares a `Number` directly. */
  method SquaredSumsScalar(xs: seq<SparseMap>, xbar: DefaultDict, xbarold: DefaultDict)
    returns (rSq: real, sSq: real)
    modifies xbar, xbarold
    ensures rSq == PrimalSq(xs, old(xbar.entries))
    ensures sSq == DualSq(xs, old(xbar.entries), old(xbarold.entries))
    ensures xbar.entries == TouchAll(old(xbar.entries), KeysOf(xs))
    ensures xbarold.entries == TouchAll(old(xbarold.entries), KeysOf(xs))
  {
    ghost var xb0, xo0 := xbar.entries, xbarold.entries;
    ghost var pt, dt := PrimalTermsOf(xs, xb0), DualTermsOf(xs, xb0, xo0);
    rSq, sSq := 0.0, 0.0;
    TouchAllNothing(xb0);
    TouchAllNothing(xo0);
    for i := 0 to |xs|
      invariant rSq == Total(pt[..i]) && sSq == Total(dt[..i])
      invariant xbar.entries == TouchAll(xb0, KeysOf(xs[..i]))
      invariant xbarold.entries == TouchAll(xo0, KeysOf(xs[..i]))
    {
      var rI, sI := WorkerResidualsScalar(xs[i], xbar, xbarold, xb0, xo0, KeysOf(xs[..i]));
      rSq, sSq := rSq + rI, sSq + sI;
      TotalSnoc(pt, i);
      TotalSnoc(dt, i);
      KeysOfSnoc(xs, i);
    }
    assert pt[..|xs|] == pt && dt[..|xs|] == dt && xs[..|xs|] == xs;
  }

  /**
   `general_residuals2` on scalar values: the same two residuals as
   `float_residuals`, through the branch that squares a `Number` directly.
   Its contract is that of `FloatResiduals`, so the two agree on every input.
   */
  method GeneralResiduals2(xs: seq<SparseMap>, xbar: DefaultDict, xbarold: DefaultDict, rho: real, sqrt: real -> real)
    returns (r: real, s: real)
    modifies xbar, xbarold
    ensures r == sqrt(PrimalSq(xs, old(xbar.entries)))
    ensures s == rho * sqrt(DualSq(xs, old(xbar.entries), old(xbarold.entries)))
    ensures xbar.entries == TouchAll(old(xbar.entries), KeysOf(xs))
    ensures xbarold.entries == TouchAll(old(xbarold.entries), KeysOf(xs))
  {
    var rSq, sSq := SquaredSumsScalar(xs, xbar, xbarold);
    r, s := sqrt(rSq), rho * sqrt(sSq);
  }
}
