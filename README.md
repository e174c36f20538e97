# Consensus ADMM iteration engine (pyadmm core)

This project models the core of `admm/admm.py`, the consensus ADMM loop of
pyadmm, and proves properties of the model.

## The system

The system coordinates a list of worker proximal operators ("proxes") so that
they agree on a shared set of keyed scalar variables. Each step does the
following:

1. Builds every worker's input with `make_xin`: `xbar - u` over the keys of
   the worker's dual `u`. While `u` is empty, the input is a copy of `xbar`.
2. Calls every prox once with the current penalty `rho`.
3. Averages the outputs into a fresh consensus `xbar`.
4. Updates every dual in place with `update_u`: `u[k] += x[k] - xbar[k]`.
5. Measures the primal residual `r` and the dual residual `s` with
   `float_residuals`.
6. Lets `do_scaling` pick the next `rho`. A factor other than 1.0 sends rho
   and the duals through the rescaling routine.

The driver `admm` starts from an empty consensus and empty duals. It runs a
fixed number of steps and returns the last consensus with one record per
step.

### How the model represents it

- The consensus and the duals are Python `defaultdict(float)`s, modelled by
  the class `SparseMaps.DefaultDict`:
  - its field `entries` is a `map<string, real>`;
  - `Read` returns the stored value, or 0.0 for a missing key, and inserts that
    missing key, as `d[k]` does;
  - the spec function `TouchAll` says which keys a run of reads has inserted.
- Prox outputs and prox inputs are plain map values.
- A `for k in d` loop becomes a `while` loop that takes any key still to visit.
  `Sums.SumOverRemove` shows that the visiting order does not change the sums.
- Each imperative routine is a method proved against a spec function:
  - `MakeXin` against `ProxInput`;
  - `UpdateU` against `DualUpdate`;
  - `FloatResiduals` and `GeneralResiduals2` against `PrimalSq`/`DualSq`;
  - `AdmmStep` against `ProxInputs`, `ProxOutputs`, `StepRecord`, `AfterStep` and `DoScaling`;
  - `Admm` against `RunState` and `Chained`.
- The averaging routine (`fast_avg`), the rescaling routine
  (`rescale_rho_duals`) and `np.sqrt` are parameters, bundled in
  `Admm.Externals`.
  - The averaging routine's result is used as the new `defaultdict`.
  - The square root is constrained by `Residuals.IsSqrt` only in the lemmas
    that need it.
- Proxes are pure functions from an input mapping and a penalty to an output
  mapping.

### Calling the driver without a policy

Both `admm_step` (admm/admm.py:68) and `admm` (admm/admm.py:127) default
`rho_adj` to `None`, which suggests that a run without a scaling policy is
meant to keep rho and the duals unchanged. The code does something else. It binds `scale` only inside `if scale_func:` and then compares
`scale != 1.0`, so a missing policy raises `UnboundLocalError`. The model
follows the code: `DoScaling` returns `Err(UnboundScale)` when there is no
policy. As a result, `Admm` fails exactly when `steps > 0` and no policy is
given, and that includes the default `rho_adj=None`. The model's `Admm`
takes the same defaults, `steps := 10` and `rhoAdj := None`, so the default
call fails.

## Model

| member | source | states |
|---|---|---|
| SparseMaps.DefaultDict.constructor | admm/admm.py:128-129 | a new `defaultdict(float)` holds no key |
| SparseMaps.DefaultDict.Read | admm/admm.py:234-236 | `d[k]` returns the stored value, or 0.0 for a missing key; it inserts the missing key with 0.0 and changes nothing else |
| SparseMaps.DefaultDict.Write | admm/admm.py:65 | `d[k] = v` sets exactly that key |
| SparseMaps.TouchAll | admm/admm.py:44-45 | after zero-default reads of keys `ks`, the mapping's keys are the old keys plus `ks`; stored values are kept and every lookup is unchanged |
| Sums.SumOverRemove | admm/admm.py:232-236 | the accumulation over a dict's keys can take any key first: the total is that key's value plus the total of the rest, so visiting order does not matter |
| Residuals.PrimalSqZeroIff | admm/admm.py:229-235 | the squared primal residual is non-negative; it is zero exactly when every worker's value equals the consensus at every key it returned |
| Residuals.DualSqZeroIff | admm/admm.py:229-236 | the squared dual residual is non-negative; it is zero exactly when the consensus did not move at any key a worker returned |
| Residuals.ResidualSqSameLookups | admm/admm.py:234-236 | the residuals depend on `xbar` and `xbarold` only through lookups, so keys inserted by reads do not change them |
| Residuals.PrimalResidualZeroIff | admm/admm.py:238 | `r = sqrt(...)` is non-negative, and zero exactly at consensus |
| Residuals.DualResidualZeroIff | admm/admm.py:238 | `s = rho*sqrt(...)` is non-negative for non-negative rho; it is zero when the consensus did not move, and for positive rho only then |
| Residuals.VisitKey | admm/admm.py:234-236 | one inner pass adds the key's squared primal and dual terms to the sums and inserts the key into both consensus mappings |
| Residuals.WorkerResiduals | admm/admm.py:233-236 | the inner loop returns one worker's sums over all its keys and inserts exactly those keys into both mappings |
| Residuals.SquaredSums | admm/admm.py:229-236 | the two loops of `float_residuals` end with the squared primal and the squared dual residual, and insert exactly the workers' keys into both mappings |
| Residuals.FloatResiduals | admm/admm.py:220-238 | `r` is the root of the sum of `(x[k]-xbar[k])^2` over all workers and their keys; `s` is rho times the root of the sum of `(xbar[k]-xbarold[k])^2`; both mappings gain exactly the workers' keys |
| Residuals.VisitKeyScalar | admm/admm.py:206-213 | the scalar branch with named `rval`/`sval` adds the same two squared terms as `float_residuals` |
| Residuals.WorkerResidualsScalar | admm/admm.py:205-216 | the inner loop of `general_residuals2` gives one worker's two sums on scalar values |
| Residuals.SquaredSumsScalar | admm/admm.py:201-216 | the loops of `general_residuals2` on scalar values end with the same squared sums as those of `float_residuals` |
| Residuals.GeneralResiduals2 | admm/admm.py:195-218 | on scalar values, `general_residuals2` returns the same `r`, `s` and key insertions as `float_residuals` |
| Admm.ProxInput | admm/admm.py:41-59 | with an empty dual the input is the consensus itself; otherwise it has the dual's keys and each value plus the dual's value gives the zero-default consensus value |
| Admm.InsertedKeys | admm/admm.py:52-57 | the keys `make_xin` inserts into the consensus: none for an empty dual, otherwise the dual's keys |
| Admm.SubtractAt | admm/admm.py:56-57 | one pass of the subtracting loop yields `xbar[k] - u[k]`, inserts `k` and leaves `u` as it was, even when `u` is `xbar` |
| Admm.CopyEntries | admm/admm.py:52-54 | the copying loop returns the consensus's entries and leaves it unchanged |
| Admm.SubtractEntries | admm/admm.py:55-57 | the subtracting loop returns `xbar[k] - u[k]` on exactly `u`'s keys and inserts those keys into `xbar` |
| Admm.MakeXin | admm/admm.py:41-59 | `make_xin` returns `ProxInput` of the old consensus and dual, inserts `InsertedKeys(u)` into the consensus and leaves the dual unchanged |
| Admm.DualUpdate | admm/admm.py:61-65 | the new dual has the old dual's keys plus the output's keys; at an output key it moved by `x[k] - xbar[k]`; every other key keeps its value |
| Admm.PartialDualUpdate | admm/admm.py:64-65 | before any key is moved the dual is unchanged; once every key of `x` is moved it is `DualUpdate` |
| Admm.PartialDualUpdateStep | admm/admm.py:65 | the key about to move still holds its old value, and writing its moved value leaves one more key done |
| Admm.MoveDual | admm/admm.py:64-65 | one pass of `update_u` moves key `k` of the dual and inserts `k` into the consensus |
| Admm.UpdateU | admm/admm.py:61-65 | `update_u` turns `u` into `DualUpdate` of the old dual and consensus, in place, and inserts the output's keys into the consensus |
| Admm.DualUpdateSameLookups | admm/admm.py:65 | the dual update sees the consensus only through lookups |
| Admm.ConsensusIffDualsFixed | admm/admm.py:104-107 | every output agrees with the consensus exactly when no dual update changes any lookup of its dual |
| Admm.PrimalZeroIffDualsFixed | admm/admm.py:104-115 | the primal residual is zero exactly when the step's dual updates are no-ops on every lookup |
| Admm.DoScaling | admm/admm.py:141-160 | no policy is an error, and only no policy; a factor of exactly 1.0 keeps the recorded rho and the duals; any other factor returns the rescaling routine's rho and duals |
| Admm.ProxInputs | admm/admm.py:85 | there is one prox input per dual |
| Admm.InputKeysSnoc | admm/admm.py:85 | building one more input inserts that dual's `InsertedKeys` on top of the earlier insertions |
| Admm.NoInputKeys | admm/admm.py:52-54 | building inputs from empty duals inserts no key |
| Admm.InputsWhileDualsEmpty | admm/admm.py:47-54 | while every dual is empty, as on the first step, every worker receives the consensus itself |
| Admm.ProxOutputs | admm/admm.py:92-97 | there is one output per prox, each prox called on its own input and the step's rho |
| Admm.NextInput | admm/admm.py:85 | worker `i`'s input is the `i`-th of `ProxInputs`, and afterwards the consensus carries the insertions of workers `0..i` |
| Admm.MakeDicts | admm/admm.py:129 | one fresh, distinct `defaultdict` per given mapping, holding that mapping |
| Admm.MakeInputs | admm/admm.py:84-85 | the list comprehension over `make_xin` returns `ProxInputs` of the old consensus and duals, with each worker seeing the insertions of the earlier workers, and inserts all their keys |
| Admm.UpdateDuals | admm/admm.py:104-107 | every dual becomes its `DualUpdate` against the new consensus; the consensus gains every output key |
| Admm.MeasureStep | admm/admm.py:111-115 | the residual phase records rho, the primal residual against the average and the dual residual against the previous consensus, whatever keys reads have inserted |
| Admm.AdmmStep | admm/admm.py:68-125 | the outputs are the proxes on `ProxInputs`; the duals are updated in place against the average; the new consensus is a fresh mapping equal to the average plus the read keys; the record is `StepRecord`; no policy is an error; otherwise rho and the duals are what `DoScaling` returns, the same duals when the factor is 1.0 |
| Admm.ChainedSnoc | admm/admm.py:133-136 | appending a step that ran on the previous step's consensus and rho extends a consistent run history |
| Admm.UnitPolicyKeepsRho | admm/admm.py:154-158 | under a policy that always answers 1.0, every record of a run carries the initial rho |
| Admm.RunStateStep | admm/admm.py:133-136 | a step run on the current consensus and penalty, whose scaling picks the next penalty, extends the driver's state by one record |
| Admm.DriverStep | admm/admm.py:133-134 | one loop pass calls the proxes on `ProxInputs` of the current consensus and duals, updates every dual in place to its `DualUpdate` and hands those duals to the scaling, inserts the read keys into the old consensus, and yields a fresh consensus equal to `AfterStep` of the outputs, a record against the previous consensus and the next rho `NextRho`; the next step gets the just-updated duals themselves when the factor is 1.0, and the rescaling routine's duals otherwise |
| Admm.Admm | admm/admm.py:127-138 | no policy with at least one step is an error, and nothing else is; one record per step, and none for a negative count, which `range(steps)` runs zero times; zero or fewer steps return an empty consensus and no records; step 0 runs on the empty consensus with the initial rho; step i+1 runs on step i's consensus with the rho step i's scaling chose; the result is the last step's consensus |
| Admm.GetResiduals | admm/admm.py:162-166 | two lists as long as the records, holding each record's `r` and `s` in order |

## Left out

- Floating point: values are reals, and the sums are exact. A run's rounding, and its dependence on the dict's insertion order, are not modelled.
- Numpy array values are not modelled. This covers the `else` branch of `general_residuals2` (lines 214-216), `general_residuals` (lines 178-193) and the warm-up call `np.linalg.norm([0,.1])` (line 17). The model has scalar values only.
- `fast_avg` (in `admm/functional.py`) is not part of this model. It is a parameter, and its result is used as a zero-default mapping.
- `rescale_rho_duals` (in `admm/rho_adjust.py`) is not part of this model. It is a parameter. The model places the duals it returns in fresh, distinct `DefaultDict`s (`Admm.MakeDicts`). Python keeps whatever objects the routine returns (line 158), which may be plain dicts, the very dual objects it was given, or aliases of one another.
- `np.sqrt` is a parameter. Lemmas that need a real square root require `IsSqrt`.
- Timing is left out: the `Timer` blocks and the `times` entries of the step record are bookkeeping.
- The `hook` callback (lines 121-123) is left out. It is arbitrary user I/O.
- The prox infos returned by the proxes are left out, and so are `unzip`, `get_info` and `plot_resid`. They are reporting only.
- The `mapper` argument of `map_apply` is left out. Proxes are called as pure functions, one after another, and any internal prox state (caching, warm starts) is not modelled.
- Admm.UpdateU: requires that the dual and the consensus are different objects. In `admm_step` this holds: the consensus passed is the result of `fast_avg(xs)` (line 102), which is only ever given the prox outputs, and the proxes only ever see the fresh `x_in` dicts built by `make_xin` (lines 49 and 84-85), never a dual.
- Admm.AdmmStep: requires one dual per prox, the consensus not among the duals, and distinct duals. This always holds for the duals `admm` creates; with other lengths, Python's `zip` would silently drop workers.
- Admm.Admm: requires a rescaling routine that returns one dual per dual it is given, as `rescale_rho_duals` does.
- Admm.Admm: the returned record of each step is stated; its relation to the proxes' inputs is stated per step by `AdmmStep` and `DriverStep`, not repeated over the run.
- Admm.Admm: `duals[i]`, the duals step i's scaling saw, is not tied over the run to the dual updates that produced it. `DriverStep` states that tie for one step; the run's contract only uses `duals[i]` to name the rho that step i's scaling chose.
- Residuals.FloatResiduals: the loops visit keys in any order rather than in insertion order. This is exact over the reals, as shown by `Sums.SumOverRemove`.
