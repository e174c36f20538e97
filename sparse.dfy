/**
 Sparse state mappings: dictionaries from keys to scalar values in which an
 absent key stands for 0.0, and the mutable `defaultdict(float)` that holds
 the consensus estimate and the scaled duals of a run.
 */
module SparseMaps {

  /** A key names one component of a shared optimisation variable. */
  type Key = string

  /** A sparse state mapping as a value: only the keys present are stored. */
  type SparseMap = map<Key, real>

  /** Zero-default lookup: reading a key that is not present yields 0.0. */
  function Get(m: SparseMap, k: Key): real
  {
    if k in m then m[k] else 0.0
  }

  /** The mapping after a `defaultdict` read of `k`: a missing key is added
      with 0.0 and no value that a lookup can see changes. */
  function Touch(m: SparseMap, k: Key): (r: SparseMap)
    ensures r.Keys == m.Keys + {k}
    ensures forall j :: j in m ==> j in r && r[j] == m[j]
    ensures forall j :: Get(r, j) == Get(m, j)
  {
    if k in m then m else m[k := 0.0]
  }

  /** The mapping after `defaultdict` reads of every key of `ks`. */
  function TouchAll(m: SparseMap, ks: set<Key>): (r: SparseMap)
    ensures r.Keys == m.Keys + ks
    ensures forall j :: j in m ==> j in r && r[j] == m[j]
    ensures forall j :: Get(r, j) == Get(m, j)
  {
    map j | j in m.Keys + ks :: Get(m, j)
  }

  /** Two mappings that agree on every lookup. */
  ghost predicate SameLookups(a: SparseMap, b: SparseMap)
  {
    forall k :: Get(a, k) == Get(b, k)
  }

  lemma TouchAllNothing(m: SparseMap)
    ensures TouchAll(m, {}) == m
  {
    assert forall j :: j in m ==> TouchAll(m, {})[j] == m[j];
  }

  lemma TouchAllTwice(m: SparseMap, a: set<Key>, b: set<Key>)
    ensures TouchAll(TouchAll(m, a), b) == TouchAll(m, a + b)
  {
  }

  lemma TouchAfterTouchAll(m: SparseMap, a: set<Key>, k: Key)
    ensures Touch(TouchAll(m, a), k) == TouchAll(m, a + {k})
  {
    var lhs, rhs := Touch(TouchAll(m, a), k), TouchAll(m, a + {k});
    assert lhs.Keys == rhs.Keys;
    forall j | j in lhs
      ensures lhs[j] == rhs[j]
    {
      assert Get(lhs, j) == Get(m, j) == Get(rhs, j);
    }
  }

  /** Touching keys that are already present changes nothing. */
  lemma TouchAllPresent(m: SparseMap, ks: set<Key>)
    requires ks <= m.Keys
    ensures TouchAll(m, ks) == m
  {
    assert forall j :: j in m ==> TouchAll(m, ks)[j] == m[j];
  }

  /** A loop that visits the keys of `keys` by removing them from `rest` has,
      after visiting `k`, visited one key more. */
  lemma VisitOne(keys: set<Key>, rest: set<Key>, k: Key)
    requires k in rest && rest <= keys
    ensures (keys - rest) + {k} == keys - (rest - {k})
  {
  }

  /**
   `collections.defaultdict(float)`: a mutable mapping whose read of a missing
   key inserts that key with 0.0 before returning it.
   */
  class DefaultDict {
    var entries: SparseMap

    /** `defaultdict(float)`: a new, empty mapping. */
    constructor ()
      ensures entries == map[]
    {
      entries := map[];
    }

    /** A mapping holding the entries of `m`. */
    constructor FromMap(m: SparseMap)
      ensures entries == m
    {
      entries := m;
    }

    /** `d[k]`: the zero-default value; a missing key is inserted with 0.0. */
    method Read(k: Key) returns (v: real)
      modifies this
      ensures v == Get(old(entries), k)
      ensures entries == Touch(old(entries), k)
    {
      if k !in entries {
        entries := entries[k := 0.0];
      }
      v := entries[k];
    }

    /** `d[k] = v`. */
    method Write(k: Key, v: real)
      modifies this
      ensures entries == old(entries)[k := v]
    {
      entries := entries[k := v];
    }
  }

  /** The entries of every mapping of `ds`, in order. */
  ghost function EntriesOf(ds: seq<DefaultDict>): (es: seq<SparseMap>)
    reads ds
    ensures |es| == |ds|
    ensures forall i :: 0 <= i < |ds| ==> es[i] == ds[i].entries
  {
    seq(|ds|, i requires 0 <= i < |ds| reads ds => ds[i].entries)
  }

  /** `xbar` is none of the duals, and no two duals are the same object. */
  ghost predicate Separate(xbar: DefaultDict, us: seq<DefaultDict>)
  {
    && xbar !in us
    && forall i, j :: 0 <= i < j < |us| ==> us[i] != us[j]
  }
}
