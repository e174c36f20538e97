/**
 One consensus ADMM iteration and the driver that repeats it. Each worker's
 prox receives `xbar - u` (or a copy of `xbar` while its dual `u` is empty),
 the prox outputs are averaged into a fresh consensus `xbar`, every dual is
 updated in place with `u[k] += x[k] - xbar[k]`, the residuals are measured,
 and a penalty policy may rescale `rho` together with the duals.
 */
module Admm {
  import opened SparseMaps
  import opened Residuals

  datatype Option<T> = None | Some(value: T)

  /** The only failure of a step: `do_scaling` compares a `scale` that was
      never bound because no scaling policy was given. */
  datatype AdmmError = UnboundScale

  datatype Result<T> = Ok(value: T) | Err(error: AdmmError)

  /** A worker's proximal operator: input mapping and penalty to local solution. */
  type Prox = (SparseMap, real) -> SparseMap

  /** A penalty policy: primal and dual residual to a multiplicative factor. */
  type ScaleFunc = (real, real) -> real

  /** The rescaling routine: penalty, duals and factor to new penalty and duals. */
  type Rescaler = (real, seq<SparseMap>, real) -> (real, seq<SparseMap>)

  /** The routines a step calls but does not define: the averaging of the prox
      outputs, the rescaling of penalty and duals, and the square root. */
  datatype Externals = Externals(avg: seq<SparseMap> -> SparseMap, rescale: Rescaler, sqrt: real -> real)

  /** What a step records: the penalty it ran with and its two residuals. */
  datatype StepInfo = StepInfo(rho: real, r: real, s: real)

  // ---------------------------------------------------------------------
  // make_xin

  /** The input `make_xin` builds from the consensus and one dual. */
  function ProxInput(xbar: SparseMap, u: SparseMap): (xIn: SparseMap)
    ensures u == map[] ==> xIn == xbar
    ensures u != map[] ==> xIn.Keys == u.Keys
    ensures u != map[] ==> forall k :: k in u ==> xIn[k] + u[k] == Get(xbar, k)
  {
    if u == map[] then xbar else map k | k in u :: Get(xbar, k) - u[k]
  }

  /** A mapping on the keys of a non-empty `u` whose every value is
      `Get(xbar, k) - u[k]` is the input `make_xin` builds. */
  lemma ProxInputFromValues(xbar: SparseMap, u: SparseMap, xIn: SparseMap)
    requires u != map[] && xIn.Keys == u.Keys
    requires forall k :: k in xIn ==> xIn[k] == Get(xbar, k) - u[k]
    ensures xIn == ProxInput(xbar, u)
  {
  }

  /** The keys whose zero-default reads in `make_xin` insert them into the
      consensus: none while `u` is empty (the copy reads only present keys),
      otherwise the keys of `u`. */
  function InsertedKeys(u: SparseMap): (ks: set<Key>)
    ensures ks <= u.Keys && (u != map[] ==> ks == u.Keys)
  {
    if u == map[] then {} else u.Keys
  }

  /** One pass of the second loop of `make_xin`: `xbar[k] - u[k]` for a key
      `k` of `u`, where the read of `xbar` inserts `k`. `done` holds the keys
      read before. */
  method SubtractAt(xbar: DefaultDict, u: DefaultDict, k: Key,
                    ghost xb0: SparseMap, ghost u0: SparseMap, ghost done: set<Key>)
    returns (d: real)
    requires k in u0 && done <= u0.Keys
    requires xbar.entries == TouchAll(xb0, done) && u.entries == u0
    requires u == xbar ==> xb0 == u0
    modifies xbar
    ensures d == Get(xb0, k) - u0[k]
    ensures xbar.entries == TouchAll(xb0, done + {k}) && u.entries == u0
  {
    var xbark := xbar.Read(k);
    TouchAfterTouchAll(xb0, done, k);
    if u == xbar {
      TouchAllPresent(u0, done + {k});
    }
    d := xbark - u.entries[k];
  }

  /** The first loop of `make_xin`: a copy of `xbar`, read key by key. Every
      key read is present, so no read inserts anything. */
  method CopyEntries(xbar: DefaultDict) returns (xIn: SparseMap)
    modifies xbar
    ensures xIn == old(xbar.entries) && xbar.entries == old(xbar.entries)
  {
    ghost var xb0 := xbar.entries;
    xIn := map[];
    var rest := xbar.entries.Keys;
    while rest != {}
      invariant rest <= xb0.Keys && xbar.entries == xb0
      invariant xIn.Keys == xb0.Keys - rest
      invariant forall k :: k in xIn ==> xIn[k] == xb0[k]
      decreases rest
    {
      var k :| k in rest;
      var v := xbar.Read(k);
      xIn := xIn[k := v];
      rest := rest - {k};
    }
  }

  /** The second loop of `make_xin`: `xbar[k] - u[k]` for every key of `u`. */
  method SubtractEntries(xbar: DefaultDict, u: DefaultDict) returns (xIn: SparseMap)
    modifies xbar
    ensures xIn.Keys == old(u.entries).Keys
    ensures forall k :: k in xIn ==> xIn[k] == Get(old(xbar.entries), k) - old(u.entries)[k]
    ensures xbar.entries == TouchAll(old(xbar.entries), old(u.entries).Keys)
    ensures u.entries == old(u.entries)
  {
    ghost var xb0, u0 := xbar.entries, u.entries;
    xIn := map[];
    var rest := u.entries.Keys;
    TouchAllNothing(xb0);
    while rest != {}
      invariant rest <= u0.Keys
      invariant xbar.entries == TouchAll(xb0, u0.Keys - rest)
      invariant u.entries == u0
      invariant xIn.Keys == u0.Keys - rest
      invariant forall k :: k in xIn ==> xIn[k] == Get(xb0, k) - u0[k]
      decreases rest
    {
      var k :| k in rest;
      var d := SubtractAt(xbar, u, k, xb0, u0, u0.Keys - rest);
      xIn := xIn[k := d];
      VisitOne(u0.Keys, rest, k);
      rest := rest - {k};
    }
    assert u0.Keys - rest == u0.Keys;
  }

  /**
   `make_xin(xbar, u)`: a new mapping holding `xbar[k] - u[k]` for every key of
   `u`, or, when `u` is empty, a copy of `xbar`. The zero-default reads of
   `xbar` insert the keys of `u` into it; `u` is read only at keys it holds.
   */
  method MakeXin(xbar: DefaultDict, u: DefaultDict) returns (xIn: SparseMap)
    modifies xbar
    ensures xIn == ProxInput(old(xbar.entries), old(u.entries))
    ensures xbar.entries == TouchAll(old(xbar.entries), InsertedKeys(old(u.entries)))
    ensures u.entries == old(u.entries)
  {
    if u.entries == map[] {
      TouchAllNothing(xbar.entries);
      xIn := CopyEntries(xbar);
    } else {
      ghost var xb0, u0 := xbar.entries, u.entries;
      xIn := SubtractEntries(xbar, u);
      ProxInputFromValues(xb0, u0, xIn);
    }
  }

  // ---------------------------------------------------------------------
  // update_u

  /** The dual after `update_u(u, x, xbar)`: every key of `x` moves by the
      disagreement `x[k] - xbar[k]`, every other key keeps its value. */
  function DualUpdate(u: SparseMap, x: SparseMap, xbar: SparseMap): (r: SparseMap)
    ensures r.Keys == u.Keys + x.Keys
    ensures forall k :: k in x ==> r[k] - Get(u, k) == x[k] - Get(xbar, k)
    ensures forall k :: k in u && k !in x ==> r[k] == u[k]
  {
    map k | k in u.Keys + x.Keys :: if k in x then Get(u, k) + x[k] - Get(xbar, k) else u[k]
  }

  /** The dual part-way through `update_u`: the keys of `done` (keys of `x`)
      have moved, every other key still holds its old value. */
  ghost function PartialDualUpdate(u: SparseMap, x: SparseMap, xbar: SparseMap, done: set<Key>): (r: SparseMap)
    requires done <= x.Keys
    ensures done == {} ==> r == u
    ensures done == x.Keys ==> r == DualUpdate(u, x, xbar)
  {
    map k | k in u.Keys + done :: if k in done then Get(u, k) + x[k] - Get(xbar, k) else u[k]
  }

  /** Moving one more key `k`: its old value is still in place, and writing
      the moved value gives the dual with `k` done. */
  lemma PartialDualUpdateStep(u: SparseMap, x: SparseMap, xbar: SparseMap, done: set<Key>, k: Key, v: real)
    requires done <= x.Keys && k in x && k !in done
    requires v == Get(u, k) + x[k] - Get(xbar, k)
    ensures Get(PartialDualUpdate(u, x, xbar, done), k) == Get(u, k)
    ensures Touch(PartialDualUpdate(u, x, xbar, done), k)[k := v] == PartialDualUpdate(u, x, xbar, done + {k})
  {
  }

  /** One pass of the loop of `update_u`: `u[k] = u[k] + x[k] - xbar[k]`,
      where both reads insert a missing `k`. */
  method MoveDual(u: DefaultDict, x: SparseMap, xbar: DefaultDict, k: Key,
                  ghost u0: SparseMap, ghost xb0: SparseMap, ghost done: set<Key>)
    requires u != xbar && done <= x.Keys && k in x && k !in done
    requires u.entries == PartialDualUpdate(u0, x, xb0, done)
    requires xbar.entries == TouchAll(xb0, done)
    modifies u, xbar
    ensures u.entries == PartialDualUpdate(u0, x, xb0, done + {k})
    ensures xbar.entries == TouchAll(xb0, done + {k})
  {
    var uk := u.Read(k);
    var xbark := xbar.Read(k);
    TouchAfterTouchAll(xb0, done, k);
    PartialDualUpdateStep(u0, x, xb0, done, k, uk + x[k] - xbark);
    u.Write(k, uk + x[k] - xbark);
  }

  /**
   `update_u(u, x, xbar)`: for every key of `x`, `u[k] = u[k] + x[k] - xbar[k]`,
   in place. The read `xbar[k]` inserts `k` into `xbar`.
   */
  method UpdateU(u: DefaultDict, x: SparseMap, xbar: DefaultDict)
    requires u != xbar
    modifies u, xbar
    ensures u.entries == DualUpdate(old(u.entries), x, old(xbar.entries))
    ensures xbar.entries == TouchAll(old(xbar.entries), x.Keys)
  {
    ghost var u0, xb0 := u.entries, xbar.entries;
    var rest := x.Keys;
    TouchAllNothing(xb0);
    while rest != {}
      invariant rest <= x.Keys
      invariant u.entries == PartialDualUpdate(u0, x, xb0, x.Keys - rest)
      invariant xbar.entries == TouchAll(xb0, x.Keys - rest)
      decreases rest
    {
      var k :| k in rest;
      MoveDual(u, x, xbar, k, u0, xb0, x.Keys - rest);
      VisitOne(x.Keys, rest, k);
      rest := rest - {k};
    }
    assert x.Keys - rest == x.Keys;
  }

  /** The dual update reads the consensus only through lookups. */
  lemma DualUpdateSameLookups(u: SparseMap, x: SparseMap, a: SparseMap, b: SparseMap)
    requires SameLookups(a, b)
    ensures DualUpdate(u, x, a) == DualUpdate(u, x, b)
  {
  }

  /** Every local solution agrees with the consensus exactly when no dual
      update changes what a lookup of its dual returns. */
  lemma ConsensusIffDualsFixed(xs: seq<SparseMap>, xbar: SparseMap, us: seq<SparseMap>)
    requires |us| == |xs|
    ensures Consensus(xs, xbar) <==> forall i :: 0 <= i < |xs| ==> SameLookups(DualUpdate(us[i], xs[i], xbar), us[i])
  {
  }

  /** The primal residual is zero exactly when the dual updates of the step
      leave every dual's lookups as they were. */
  lemma PrimalZeroIffDualsFixed(xs: seq<SparseMap>, xbar: SparseMap, us: seq<SparseMap>, sqrt: real -> real)
    requires |us| == |xs| && IsSqrt(sqrt)
    ensures sqrt(PrimalSq(xs, xbar)) == 0.0 <==>
            forall i :: 0 <= i < |xs| ==> SameLookups(DualUpdate(us[i], xs[i], xbar), us[i])
  {
    PrimalResidualZeroIff(xs, xbar, sqrt);
    ConsensusIffDualsFixed(xs, xbar, us);
  }

  // ---------------------------------------------------------------------
  // do_scaling

  /** The penalty after `do_scaling`, with the duals it hands on: the same
      ones, or the ones the rescaling routine returned. */
  datatype Scaled = Kept(rho: real) | Rescaled(rho: real, us: seq<SparseMap>)

  /**
   `do_scaling(scale_func, step_info, us)`: without a policy the comparison
   reads an unbound `scale` and fails; a factor of exactly 1.0 keeps the
   recorded rho and the duals; any other factor hands rho, the duals and the
   factor to the rescaling routine.
   */
  function DoScaling(scaleFunc: Option<ScaleFunc>, info: StepInfo, us: seq<SparseMap>, rescale: Rescaler): (res: Result<Scaled>)
    ensures res.Err? <==> scaleFunc.None?
    ensures res.Ok? && scaleFunc.value(info.r, info.s) == 1.0 ==> res.value == Kept(info.rho)
    ensures res.Ok? && scaleFunc.value(info.r, info.s) != 1.0 ==>
              var scale := scaleFunc.value(info.r, info.s);
              res.value == Rescaled(rescale(info.rho, us, scale).0, rescale(info.rho, us, scale).1)
  {
    match scaleFunc
    case None => Err(UnboundScale)
    case Some(f) =>
      var scale := f(info.r, info.s);
      if scale != 1.0 then
        var (rho', us') := rescale(info.rho, us, scale);
        Ok(Rescaled(rho', us'))
      else Ok(Kept(info.rho))
  }

  /** The penalty a policy sets for the next step. */
  ghost function NextRho(scaleFunc: ScaleFunc, info: StepInfo, us: seq<SparseMap>, rescale: Rescaler): real
  {
    DoScaling(Some(scaleFunc), info, us, rescale).value.rho
  }

  // ---------------------------------------------------------------------
  // admm_step

  /** The keys `make_xin` inserts into the consensus while it builds the
      inputs of the duals `us`, in order. */
  ghost function InputKeys(us: seq<SparseMap>): set<Key>
  {
    if us == [] then {}
    else
      var u := us[|us| - 1];
      InputKeys(us[..|us| - 1]) + InsertedKeys(u)
  }

  lemma InputKeysSnoc(xbar: SparseMap, us: seq<SparseMap>, i: nat)
    requires i < |us|
    ensures TouchAll(TouchAll(xbar, InputKeys(us[..i])), InsertedKeys(us[i])) == TouchAll(xbar, InputKeys(us[..i + 1]))
  {
    assert us[..i + 1][..i] == us[..i];
    TouchAllTwice(xbar, InputKeys(us[..i]), InsertedKeys(us[i]));
  }

  /** The prox inputs of one step: worker `i` sees the consensus as the
      earlier workers' `make_xin` calls left it. */
  ghost function ProxInputs(xbar: SparseMap, us: seq<SparseMap>): (ins: seq<SparseMap>)
    ensures |ins| == |us|
  {
    seq(|us|, i requires 0 <= i < |us| => ProxInput(TouchAll(xbar, InputKeys(us[..i])), us[i]))
  }

  /** While no dual holds a key, as on the first step, every worker receives
      the consensus itself. */
  lemma {:induction false} InputsWhileDualsEmpty(xbar: SparseMap, us: seq<SparseMap>)
    requires forall i :: 0 <= i < |us| ==> us[i] == map[]
    ensures forall i :: 0 <= i < |us| ==> ProxInputs(xbar, us)[i] == xbar
  {
    forall i | 0 <= i < |us|
      ensures InputKeys(us[..i]) == {}
    {
      NoInputKeys(us[..i]);
    }
    TouchAllNothing(xbar);
  }

  lemma {:induction false} NoInputKeys(us: seq<SparseMap>)
    requires forall i :: 0 <= i < |us| ==> us[i] == map[]
    ensures InputKeys(us) == {}
  {
    if us != [] {
      NoInputKeys(us[..|us| - 1]);
    }
  }

  /** `map_apply(proxes, xins, rep_args=[rho])` without its timing: every prox
      called once, on its own input and the step's rho. */
  ghost function ProxOutputs(proxes: seq<Prox>, ins: seq<SparseMap>, rho: real): (xs: seq<SparseMap>)
    requires |ins| == |proxes|
    ensures |xs| == |proxes|
  {
    seq(|proxes|, i requires 0 <= i < |proxes| => proxes[i](ins[i], rho))
  }

  /** Equal sums give equal scaled roots; stated once so that the solver
      does not reach the product through non-linear arithmetic. */
  lemma ScaledRootCongruence(rho: real, sqrt: real -> real, a: real, b: real)
    requires a == b
    ensures rho * sqrt(a) == rho * sqrt(b)
  {
  }

  /** The outcome of a step: the new consensus, the duals for the next step,
      the penalty for the next step and the step's record. */
  datatype StepOut = StepOut(xbar: DefaultDict, us: seq<DefaultDict>, rho: real, info: StepInfo)

  /** Fresh `defaultdict`s holding the mappings of `ms`, one distinct object each. */
  method MakeDicts(ms: seq<SparseMap>) returns (ds: seq<DefaultDict>)
    ensures |ds| == |ms|
    ensures forall i :: 0 <= i < |ms| ==> fresh(ds[i]) && ds[i].entries == ms[i]
    ensures forall i, j :: 0 <= i < j < |ds| ==> ds[i] != ds[j]
  {
    ds := [];
    for i := 0 to |ms|
      invariant |ds| == i
      invariant forall j :: 0 <= j < i ==> fresh(ds[j]) && ds[j].entries == ms[j]
      invariant forall j, l :: 0 <= j < l < i ==> ds[j] != ds[l]
    {
      var d := new DefaultDict.FromMap(ms[i]);
      ds := ds + [d];
    }
  }

  /** A prefix extended by the next element is the longer prefix. */
  lemma PrefixSnoc<T>(s: seq<T>, i: nat, x: T)
    requires i < |s| && x == s[i]
    ensures s[..i] + [x] == s[..i + 1]
  {
  }

  /** One pass of `[make_xin(xbar, u) for u in us]`: worker `i`'s input,
      built against the consensus as the earlier workers' reads left it. */
  method NextInput(xbar: DefaultDict, u: DefaultDict, ghost xb0: SparseMap, ghost U0: seq<SparseMap>, ghost i: nat)
    returns (xIn: SparseMap)
    requires i < |U0| && u.entries == U0[i]
    requires xbar.entries == TouchAll(xb0, InputKeys(U0[..i]))
    modifies xbar
    ensures xIn == ProxInputs(xb0, U0)[i]
    ensures xbar.entries == TouchAll(xb0, InputKeys(U0[..i + 1]))
  {
    xIn := MakeXin(xbar, u);
    InputKeysSnoc(xb0, U0, i);
  }

  /** `[make_xin(xbar, u) for u in us]`: the prox inputs, worker by worker,
      each built against the consensus as the earlier reads left it. */
  method MakeInputs(xbar: DefaultDict, us: seq<DefaultDict>) returns (xins: seq<SparseMap>)
    requires xbar !in us
    modifies xbar
    ensures xins == ProxInputs(old(xbar.entries), old(EntriesOf(us)))
    ensures xbar.entries == TouchAll(old(xbar.entries), InputKeys(old(EntriesOf(us))))
  {
    ghost var xb0, U0 := xbar.entries, EntriesOf(us);
    ghost var P := ProxInputs(xb0, U0);
    xins := [];
    TouchAllNothing(xb0);
    for i := 0 to |us|
      invariant xins == P[..i]
      invariant xbar.entries == TouchAll(xb0, InputKeys(U0[..i]))
    {
      var xIn := NextInput(xbar, us[i], xb0, U0, i);
      PrefixSnoc(P, i, xIn);
      xins := xins + [xIn];
    }
    assert U0[..|us|] == U0;
  }

  /** `for u, x in zip(us, xs): update_u(u, x, xbar)`: every dual moves by its
      worker's disagreement with the new consensus. */
  method UpdateDuals(us: seq<DefaultDict>, xs: seq<SparseMap>, xbar: DefaultDict)
    requires |us| == |xs| && Separate(xbar, us)
    modifies us, xbar
    ensures forall i :: 0 <= i < |us| ==> us[i].entries == DualUpdate(old(us[i].entries), xs[i], old(xbar.entries))
    ensures xbar.entries == TouchAll(old(xbar.entries), KeysOf(xs))
  {
    ghost var xb0, U0 := xbar.entries, EntriesOf(us);
    TouchAllNothing(xb0);
    for i := 0 to |us|
      invariant xbar.entries == TouchAll(xb0, KeysOf(xs[..i]))
      invariant forall j :: 0 <= j < i ==> us[j].entries == DualUpdate(U0[j], xs[j], xb0)
      invariant forall j :: i <= j < |us| ==> us[j].entries == U0[j]
    {
      UpdateU(us[i], xs[i], xbar);
      DualUpdateSameLookups(U0[i], xs[i], TouchAll(xb0, KeysOf(xs[..i])), xb0);
      TouchAllTwice(xb0, KeysOf(xs[..i]), xs[i].Keys);
      KeysOfSnoc(xs, i);
    }
    assert xs[..|xs|] == xs;
  }

  /** The consensus a step with prox outputs `xs` leaves behind: the average,
      with every key a worker produced read once by the residuals. */
  ghost function AfterStep(xs: seq<SparseMap>, ext: Externals): SparseMap
  {
    TouchAll(ext.avg(xs), KeysOf(xs))
  }

  /** The record of a step whose prox outputs are `xs` and whose consensus
      was `xbarold` before it: the step's rho, the primal residual against
      the new consensus `avg(xs)`, and the dual residual of the move. */
  ghost function StepRecord(xs: seq<SparseMap>, xbarold: SparseMap, rho: real, ext: Externals): StepInfo
  {
    var xbar := ext.avg(xs);
    StepInfo(rho, ext.sqrt(PrimalSq(xs, xbar)), rho * ext.sqrt(DualSq(xs, xbar, xbarold)))
  }

  /** The residual phase of `admm_step`: `residuals(xs, xbar, xbarold, rho)`
      with the active `float_residuals`, recorded next to the step's rho. The
      residuals see the mappings only through lookups, so the record is stated
      on the average of `xs` and on the consensus `xbarold0` as it was before
      the step's reads inserted keys into it. */
  method MeasureStep(xs: seq<SparseMap>, xbar: DefaultDict, xbarold: DefaultDict, rho: real, ext: Externals,
                     ghost xbarold0: SparseMap)
    returns (info: StepInfo)
    requires xbar != xbarold
    requires SameLookups(xbar.entries, ext.avg(xs)) && SameLookups(xbarold.entries, xbarold0)
    modifies xbar, xbarold
    ensures info == StepRecord(xs, xbarold0, rho, ext)
    ensures xbar.entries == TouchAll(old(xbar.entries), KeysOf(xs))
    ensures xbarold.entries == TouchAll(old(xbarold.entries), KeysOf(xs))
  {
    ghost var a, b := xbar.entries, xbarold.entries;
    var r, s := FloatResiduals(xs, xbar, xbarold, rho, ext.sqrt);
    ResidualSqSameLookups(xs, a, ext.avg(xs), b, xbarold0);
    ScaledRootCongruence(rho, ext.sqrt, DualSq(xs, a, b), DualSq(xs, ext.avg(xs), xbarold0));
    info := StepInfo(rho, r, s);
  }

  /**
   `admm_step`: build every worker's input with `make_xin`, call every prox
   once with the current rho, average the outputs into a fresh consensus,
   update every dual in place against it, measure the residuals of the new
   consensus against the old one, and hand the record to `do_scaling`. The
   record keeps the rho the step ran with. `xs` are the prox outputs.
   */
  method AdmmStep(proxes: seq<Prox>, xbar: DefaultDict, us: seq<DefaultDict>, rho: real,
                  ext: Externals, rhoAdj: Option<ScaleFunc>)
    returns (res: Result<StepOut>, ghost xs: seq<SparseMap>)
    requires |us| == |proxes| && Separate(xbar, us)
    modifies xbar, us
    ensures |xs| == |proxes|
    ensures xs == ProxOutputs(proxes, ProxInputs(old(xbar.entries), old(EntriesOf(us))), rho)
    ensures xbar.entries == TouchAll(TouchAll(old(xbar.entries), InputKeys(old(EntriesOf(us)))), KeysOf(xs))
    ensures forall i :: 0 <= i < |us| ==> us[i].entries == DualUpdate(old(us[i].entries), xs[i], ext.avg(xs))
    ensures res.Err? <==> rhoAdj.None?
    ensures res.Ok? ==>
              && fresh(res.value.xbar)
              && res.value.xbar.entries == AfterStep(xs, ext)
              && res.value.info == StepRecord(xs, old(xbar.entries), rho, ext)
              && Separate(res.value.xbar, res.value.us)
              && (res.value.us == us || forall i :: 0 <= i < |res.value.us| ==> fresh(res.value.us[i]))
    ensures res.Ok? ==>
              var sc := DoScaling(rhoAdj, res.value.info, EntriesOf(us), ext.rescale);
              && sc.Ok? && res.value.rho == sc.value.rho
              && (sc.value.Kept? ==> res.value.us == us)
              && (sc.value.Rescaled? ==> EntriesOf(res.value.us) == sc.value.us)
  {
    ghost var xb0 := xbar.entries;
    var xins := MakeInputs(xbar, us);
    ghost var xb1 := xbar.entries;
    var outs := seq(|proxes|, i requires 0 <= i < |proxes| => proxes[i](xins[i], rho));
    assert outs == ProxOutputs(proxes, xins, rho);
    xs := outs;
    var xbarold := xbar;
    var avg := ext.avg(outs);
    var newXbar := new DefaultDict.FromMap(avg);
    UpdateDuals(us, outs, newXbar);
    assert xbar.entries == xb1;
    var info := MeasureStep(outs, newXbar, xbarold, rho, ext, xb0);
    assert xbar.entries == TouchAll(xb1, KeysOf(outs));
    TouchAllTwice(avg, KeysOf(outs), KeysOf(outs));
    assert KeysOf(outs) + KeysOf(outs) == KeysOf(outs);
    var duals := seq(|us|, i requires 0 <= i < |us| reads us => us[i].entries);
    var scaled := DoScaling(rhoAdj, info, duals, ext.rescale);
    match scaled
    case Err(e) =>
      res := Err(e);
    case Ok(Kept(rho')) =>
      res := Ok(StepOut(newXbar, us, rho', info));
    case Ok(Rescaled(rho', us')) =>
      var ds := MakeDicts(us');
      res := Ok(StepOut(newXbar, ds, rho', info));
  }

  // ---------------------------------------------------------------------
  // admm

  /** A rescaling routine that hands back one dual for every dual it gets. */
  ghost predicate KeepsDuals(rescale: Rescaler)
  {
    forall rho, us, scale :: |rescale(rho, us, scale).1| == |us|
  }

  /** The records `infos` of a run of `w` workers that started at `rho`: step
      i produced `outs[i]`, its scaling saw `duals[i]`, and each step ran
      against the consensus and with the rho the step before it left. */
  ghost predicate Chained(infos: seq<StepInfo>, outs: seq<seq<SparseMap>>, duals: seq<seq<SparseMap>>,
                          w: nat, rho: real, ext: Externals, rhoAdj: Option<ScaleFunc>)
  {
    && |outs| == |infos| && |duals| == |infos|
    && (forall i :: 0 <= i < |infos| ==> |outs[i]| == w && |duals[i]| == w)
    && (|infos| > 0 ==> infos[0] == StepRecord(outs[0], map[], rho, ext))
    && (|infos| > 1 ==> rhoAdj.Some?)
    && forall i :: 0 <= i < |infos| - 1 ==>
         var rho' := NextRho(rhoAdj.value, infos[i], duals[i], ext.rescale);
         infos[i + 1] == StepRecord(outs[i + 1], AfterStep(outs[i], ext), rho', ext)
  }

  lemma ChainedSnoc(infos: seq<StepInfo>, outs: seq<seq<SparseMap>>, duals: seq<seq<SparseMap>>,
                    w: nat, rho: real, ext: Externals, rhoAdj: Option<ScaleFunc>,
                    info: StepInfo, xs: seq<SparseMap>, ds: seq<SparseMap>)
    requires Chained(infos, outs, duals, w, rho, ext, rhoAdj)
    requires |xs| == w && |ds| == w
    requires |infos| == 0 ==> info == StepRecord(xs, map[], rho, ext)
    requires |infos| > 0 ==>
               && rhoAdj.Some?
               && var n := |infos| - 1;
                  info == StepRecord(xs, AfterStep(outs[n], ext), NextRho(rhoAdj.value, infos[n], duals[n], ext.rescale), ext)
    ensures Chained(infos + [info], outs + [xs], duals + [ds], w, rho, ext, rhoAdj)
  {
    var infos', outs', duals' := infos + [info], outs + [xs], duals + [ds];
    forall i | 0 <= i < |infos'| - 1
      ensures infos'[i + 1] == StepRecord(outs'[i + 1], AfterStep(outs'[i], ext),
                                          NextRho(rhoAdj.value, infos'[i], duals'[i], ext.rescale), ext)
    {
      if i + 1 < |infos| {
        assert infos'[i + 1] == infos[i + 1] && outs'[i + 1] == outs[i + 1];
      }
    }
  }

  /** Under a policy that always answers 1.0 no step changes the penalty:
      every record of the run carries the rho the run started with. */
  lemma {:induction false} UnitPolicyKeepsRho(infos: seq<StepInfo>, outs: seq<seq<SparseMap>>, duals: seq<seq<SparseMap>>,
                                              w: nat, rho: real, ext: Externals, rhoAdj: Option<ScaleFunc>)
    requires Chained(infos, outs, duals, w, rho, ext, rhoAdj)
    requires rhoAdj.Some? && forall r, s :: rhoAdj.value(r, s) == 1.0
    ensures forall i :: 0 <= i < |infos| ==> infos[i].rho == rho
  {
    if |infos| > 1 {
      var n := |infos| - 1;
      UnitPolicyKeepsRho(infos[..n], outs[..n], duals[..n], w, rho, ext, rhoAdj);
      assert infos[n].rho == NextRho(rhoAdj.value, infos[n - 1], duals[n - 1], ext.rescale);
      assert infos[n - 1] == infos[..n][n - 1];
    }
  }

  /** The state of `admm` after the steps recorded in `infos`: a consistent
      history, and the consensus `xbar` and penalty `curRho` the next step
      starts from (the initial ones before any step). */
  ghost predicate RunState(infos: seq<StepInfo>, outs: seq<seq<SparseMap>>, duals: seq<seq<SparseMap>>,
                           xbar: SparseMap, curRho: real, w: nat, rho: real, ext: Externals, rhoAdj: Option<ScaleFunc>)
  {
    && Chained(infos, outs, duals, w, rho, ext, rhoAdj)
    && (|infos| == 0 ==> xbar == map[] && curRho == rho)
    && (|infos| > 0 ==>
          && rhoAdj.Some?
          && var n := |infos| - 1;
             xbar == AfterStep(outs[n], ext) && curRho == NextRho(rhoAdj.value, infos[n], duals[n], ext.rescale))
  }

  /** A step that runs on the state's consensus and penalty, and whose
      scaling picks the next penalty, extends the state. */
  lemma RunStateStep(infos: seq<StepInfo>, outs: seq<seq<SparseMap>>, duals: seq<seq<SparseMap>>,
                     xbar: SparseMap, curRho: real, w: nat, rho: real, ext: Externals, rhoAdj: Option<ScaleFunc>,
                     info: StepInfo, xs: seq<SparseMap>, ds: seq<SparseMap>, xbar': SparseMap, rho': real)
    requires RunState(infos, outs, duals, xbar, curRho, w, rho, ext, rhoAdj)
    requires |xs| == w && |ds| == w && rhoAdj.Some?
    requires info == StepRecord(xs, xbar, curRho, ext)
    requires xbar' == AfterStep(xs, ext) && rho' == NextRho(rhoAdj.value, info, ds, ext.rescale)
    ensures RunState(infos + [info], outs + [xs], duals + [ds], xbar', rho', w, rho, ext, rhoAdj)
  {
    ChainedSnoc(infos, outs, duals, w, rho, ext, rhoAdj, info, xs, ds);
  }

  /** One pass of the loop of `admm`: a step, seen through what the next
      step and the run's records need. `ds` are the duals the scaling saw. */
  method DriverStep(proxes: seq<Prox>, xbar: DefaultDict, us: seq<DefaultDict>, rho: real,
                    ext: Externals, rhoAdj: Option<ScaleFunc>)
    returns (res: Result<StepOut>, ghost xs: seq<SparseMap>, ghost ds: seq<SparseMap>)
    requires |us| == |proxes| && Separate(xbar, us) && KeepsDuals(ext.rescale)
    modifies xbar, us
    ensures res.Err? <==> rhoAdj.None?
    ensures |xs| == |proxes| && |ds| == |proxes|
    ensures xs == ProxOutputs(proxes, ProxInputs(old(xbar.entries), old(EntriesOf(us))), rho)
    ensures xbar.entries == TouchAll(TouchAll(old(xbar.entries), InputKeys(old(EntriesOf(us)))), KeysOf(xs))
    ensures ds == EntriesOf(us)
    ensures forall i :: 0 <= i < |us| ==> ds[i] == DualUpdate(old(us[i].entries), xs[i], ext.avg(xs))
    ensures res.Ok? ==>
              && fresh(res.value.xbar)
              && Separate(res.value.xbar, res.value.us) && |res.value.us| == |proxes|
              && (res.value.us == us || forall i :: 0 <= i < |res.value.us| ==> fresh(res.value.us[i]))
              && res.value.xbar.entries == AfterStep(xs, ext)
              && res.value.info == StepRecord(xs, old(xbar.entries), rho, ext)
              && res.value.rho == NextRho(rhoAdj.value, res.value.info, ds, ext.rescale)
    ensures res.Ok? ==>
              var sc := DoScaling(rhoAdj, res.value.info, ds, ext.rescale);
              && sc.Ok?
              && (sc.value.Kept? ==> res.value.us == us)
              && (sc.value.Rescaled? ==> EntriesOf(res.value.us) == sc.value.us)
  {
    res, xs := AdmmStep(proxes, xbar, us, rho, ext, rhoAdj);
    ds := EntriesOf(us);
    if res.Ok? && res.value.us != us {
      assert |res.value.us| == |us|;
    }
  }

  datatype Run = Run(xbar: DefaultDict, infos: seq<StepInfo>)

  /**
   `admm(proxes, rho, steps, rho_adj)`: start from an empty consensus and one
   empty dual per prox, run `steps` steps, each with the rho the previous
   step's scaling chose, and return the last consensus and the records of
   all steps. `outs[i]` are the prox outputs of step i and `duals[i]` the
   duals the scaling of step i saw.
   */
  method Admm(proxes: seq<Prox>, rho: real, ext: Externals, steps: int := 10, rhoAdj: Option<ScaleFunc> := None)
    returns (res: Result<Run>, ghost outs: seq<seq<SparseMap>>, ghost duals: seq<seq<SparseMap>>)
    requires KeepsDuals(ext.rescale)
    ensures res.Err? <==> steps > 0 && rhoAdj.None?
    ensures res.Ok? ==> var count := if steps < 0 then 0 else steps;
              |res.value.infos| == count && |outs| == count && |duals| == count
    ensures res.Ok? ==> forall i :: 0 <= i < steps ==> |outs[i]| == |proxes| && |duals[i]| == |proxes|
    ensures res.Ok? && steps <= 0 ==> res.value.infos == [] && res.value.xbar.entries == map[]
    ensures res.Ok? && steps > 0 ==>
              && res.value.xbar.entries == AfterStep(outs[steps - 1], ext)
              && res.value.infos[0] == StepRecord(outs[0], map[], rho, ext)
    ensures res.Ok? ==> forall i :: 0 <= i < steps - 1 ==>
              var rho' := NextRho(rhoAdj.value, res.value.infos[i], duals[i], ext.rescale);
              res.value.infos[i + 1] == StepRecord(outs[i + 1], AfterStep(outs[i], ext), rho', ext)
    ensures res.Ok? ==> Chained(res.value.infos, outs, duals, |proxes|, rho, ext, rhoAdj)
  {
    var xbar := new DefaultDict();
    var us := MakeDicts(seq(|proxes|, _ => map[]));
    var curRho := rho;
    var infos := [];
    outs, duals := [], [];
    var n := 0;
    while n < steps
      invariant (steps < 0 ==> n == 0) && (steps >= 0 ==> n <= steps) && |infos| == n
      invariant RunState(infos, outs, duals, xbar.entries, curRho, |proxes|, rho, ext, rhoAdj)
      invariant fresh(xbar) && forall i :: 0 <= i < |us| ==> fresh(us[i])
      invariant Separate(xbar, us) && |us| == |proxes|
    {
      ghost var xs, ds, before := [], [], xbar.entries;
      var step;
      step, xs, ds := DriverStep(proxes, xbar, us, curRho, ext, rhoAdj);
      if step.Err? {
        return Err(step.error), outs, duals;
      }
      RunStateStep(infos, outs, duals, before, curRho, |proxes|, rho, ext, rhoAdj,
                   step.value.info, xs, ds, step.value.xbar.entries, step.value.rho);
      infos := infos + [step.value.info];
      outs, duals := outs + [xs], duals + [ds];
      xbar, us, curRho := step.value.xbar, step.value.us, step.value.rho;
      n := n + 1;
    }
    res := Ok(Run(xbar, infos));
  }

  /** `get_residuals(infos)`: the primal and the dual residuals of the runs'
      records, in step order. */
  function GetResiduals(infos: seq<StepInfo>): (rs: (seq<real>, seq<real>))
    ensures |rs.0| == |infos| && |rs.1| == |infos|
    ensures forall i :: 0 <= i < |infos| ==> rs.0[i] == infos[i].r && rs.1[i] == infos[i].s
  {
    (seq(|infos|, i requires 0 <= i < |infos| => infos[i].r),
     seq(|infos|, i requires 0 <= i < |infos| => infos[i].s))
  }
}
