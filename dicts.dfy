/** Python dictionaries as the detectors use them: insertion-ordered keys, where updating an existing
    key keeps its position. Three flavours: `defaultdict(set)`, a counting dict, and a plain
    last-write-wins dict. */
module Dicts {
  import opened Seqs

  /** The first components of a list of pairs. */
  function Firsts<K, V>(ps: seq<(K, V)>): (ks: seq<K>)
    ensures |ks| == |ps|
    ensures forall i | 0 <= i < |ps| :: ks[i] == ps[i].0
  {
    if ps == [] then [] else Firsts(ps[..|ps| - 1]) + [ps[|ps| - 1].0]
  }

  // ---------------------------------------------------------------- defaultdict(set)

  /** `defaultdict(set)`; every set is held as a list without repetitions, in insertion order. */
  datatype SetDict<K, V> = SetDict(keys: seq<K>, sets: map<K, seq<V>>)

  function EmptySetDict<K, V>(): SetDict<K, V> {
    SetDict([], map[])
  }

  /** `d[k]`, which is the empty set for a key never added. */
  function SetOf<K, V>(d: SetDict<K, V>, k: K): seq<V> {
    if k in d.sets then d.sets[k] else []
  }

  /** `d[k].add(v)`. */
  function Add<K, V(==)>(d: SetDict<K, V>, k: K, v: V): SetDict<K, V> {
    if k in d.sets then
      if v in d.sets[k] then d else d.(sets := d.sets[k := d.sets[k] + [v]])
    else SetDict(d.keys + [k], d.sets[k := [v]])
  }

  /** The dict after `d[k].add(v)` for every pair `(k, v)` of `ps`, in order. */
  function AddAll<K, V(==)>(d: SetDict<K, V>, ps: seq<(K, V)>): SetDict<K, V> {
    if ps == [] then d else Add(AddAll(d, ps[..|ps| - 1]), ps[|ps| - 1].0, ps[|ps| - 1].1)
  }

  lemma {:induction false} AddAllAppend<K, V>(d: SetDict<K, V>, a: seq<(K, V)>, b: seq<(K, V)>)
    ensures AddAll(d, a + b) == AddAll(AddAll(d, a), b)
    decreases |b|
  {
    if b == [] {
      assert a + b == a;
    } else {
      assert (a + b)[..|a + b| - 1] == a + b[..|b| - 1];
      AddAllAppend(d, a, b[..|b| - 1]);
    }
  }

  lemma AddAllSnoc<K, V>(d: SetDict<K, V>, ps: seq<(K, V)>, k: K, v: V)
    ensures AddAll(d, ps + [(k, v)]) == Add(AddAll(d, ps), k, v)
  {
    assert (ps + [(k, v)])[..|ps|] == ps;
  }

  /** The keys of the set-dict built from `ps` are the distinct first components, in order of first
      appearance. */
  lemma {:induction false} SetDictKeys<K, V>(ps: seq<(K, V)>)
    ensures AddAll(EmptySetDict(), ps).keys == Dedup(Firsts(ps))
    ensures forall k :: k in AddAll(EmptySetDict(), ps).sets <==> k in Firsts(ps)
  {
    if ps != [] {
      var ps' := ps[..|ps| - 1];
      SetDictKeys(ps');
      assert Firsts(ps) == Firsts(ps') + [ps[|ps| - 1].0];
      assert Firsts(ps)[..|ps| - 1] == Firsts(ps');
    }
  }

  /** The set of a key holds exactly the second components paired with it in `ps`, each once. */
  lemma {:induction false} SetDictSets<K, V>(ps: seq<(K, V)>)
    ensures forall k | k in AddAll(EmptySetDict(), ps).sets :: Distinct(AddAll(EmptySetDict(), ps).sets[k])
    ensures forall k, v :: v in SetOf(AddAll(EmptySetDict(), ps), k) <==> (k, v) in ps
  {
    if ps != [] {
      var ps' := ps[..|ps| - 1];
      var p := ps[|ps| - 1];
      SetDictSets(ps');
      assert ps == ps' + [p];
      forall k, v ensures (k, v) in ps <==> (k, v) in ps' || (k, v) == p {
      }
    }
  }

  /** `len(d[k])` is the number of distinct values paired with `k`. */
  lemma SetDictSize<K, V>(ps: seq<(K, V)>, k: K)
    ensures |SetOf(AddAll(EmptySetDict(), ps), k)| == |set p | p in ps && p.0 == k :: p.1|
  {
    var s := SetOf(AddAll(EmptySetDict(), ps), k);
    SetDictSets(ps);
    assert Distinct(s);
    assert (set v | v in s) == (set p | p in ps && p.0 == k :: p.1) by {
      forall v ensures v in s <==> (k, v) in ps {
      }
      forall v | v in (set p | p in ps && p.0 == k :: p.1) ensures v in s {
        var p :| p in ps && p.0 == k && p.1 == v;
        assert p == (k, v);
      }
    }
    DistinctCard(s);
  }

  /** One more scanned element adds its zero or one pair. */
  lemma ScanStep<T, K, V>(pre: seq<T>, m: T, f: T -> seq<(K, V)>)
    requires |f(m)| <= 1
    ensures AddAll(EmptySetDict(), FlatMap(pre + [m], f)) ==
      if f(m) == [] then AddAll(EmptySetDict(), FlatMap(pre, f))
      else Add(AddAll(EmptySetDict(), FlatMap(pre, f)), f(m)[0].0, f(m)[0].1)
  {
    FlatMapSnoc(pre, m, f);
    if f(m) != [] {
      assert f(m) == [(f(m)[0].0, f(m)[0].1)];
      AddAllSnoc(EmptySetDict(), FlatMap(pre, f), f(m)[0].0, f(m)[0].1);
    } else {
      assert FlatMap(pre, f) + f(m) == FlatMap(pre, f);
    }
  }

  /** `ScanStep` for the element at index `i` of a list being scanned. */
  lemma ScanStepAt<T, K, V>(s: seq<T>, i: nat, f: T -> seq<(K, V)>)
    requires i < |s| && |f(s[i])| <= 1
    ensures AddAll(EmptySetDict(), FlatMap(s[..i + 1], f)) ==
      if f(s[i]) == [] then AddAll(EmptySetDict(), FlatMap(s[..i], f))
      else Add(AddAll(EmptySetDict(), FlatMap(s[..i], f)), f(s[i])[0].0, f(s[i])[0].1)
  {
    assert s[..i + 1] == s[..i] + [s[i]];
    ScanStep(s[..i], s[i], f);
  }

  /** A set-dict filled by a scan that adds the pairs `f(x)` for every `x` of `s`: key `k` is present
      iff some `x` yields a pair with key `k`, and `len(d[k])` is the size of the set `vs` of values
      paired with `k`. */
  lemma SetDictOfScan<T, K, V>(s: seq<T>, f: T -> seq<(K, V)>, k: K, vs: set<V>)
    requires forall v :: v in vs <==> exists x | x in s :: (k, v) in f(x)
    ensures k in AddAll(EmptySetDict(), FlatMap(s, f)).keys <==> vs != {}
    ensures |SetOf(AddAll(EmptySetDict(), FlatMap(s, f)), k)| == |vs|
    ensures forall v :: v in SetOf(AddAll(EmptySetDict(), FlatMap(s, f)), k) <==> v in vs
  {
    ScanPairs(s, f, k, vs);
    PairSetSize(FlatMap(s, f), k, vs);
    PairKeyPresent(FlatMap(s, f), k, vs);
  }

  lemma PairSetSize<K, V>(ps: seq<(K, V)>, k: K, vs: set<V>)
    requires forall v :: (k, v) in ps <==> v in vs
    ensures |SetOf(AddAll(EmptySetDict(), ps), k)| == |vs|
    ensures forall v :: v in SetOf(AddAll(EmptySetDict(), ps), k) <==> v in vs
  {
    SetDictSize(ps, k);
    SetDictSets(ps);
    assert (set p | p in ps && p.0 == k :: p.1) == vs by {
      forall v | v in vs ensures v in (set p | p in ps && p.0 == k :: p.1) {
        assert (k, v) in ps;
      }
    }
  }

  lemma ScanPairs<T, K, V>(s: seq<T>, f: T -> seq<(K, V)>, k: K, vs: set<V>)
    requires forall v :: v in vs <==> exists x | x in s :: (k, v) in f(x)
    ensures forall v :: (k, v) in FlatMap(s, f) <==> v in vs
  {
    forall v ensures (k, v) in FlatMap(s, f) <==> v in vs {
      FlatMapMember(s, f, (k, v));
    }
  }

  lemma PairKeyPresent<K, V>(ps: seq<(K, V)>, k: K, vs: set<V>)
    requires forall v :: (k, v) in ps <==> v in vs
    ensures k in AddAll(EmptySetDict(), ps).keys <==> vs != {}
  {
    SetDictKeys(ps);
    if vs != {} {
      var v :| v in vs;
      var i :| 0 <= i < |ps| && ps[i] == (k, v);
      assert Firsts(ps)[i] == k;
    } else {
      forall i | 0 <= i < |ps| ensures Firsts(ps)[i] != k {
        assert ps[i] in ps;
      }
    }
  }

  // ---------------------------------------------------------------- counting dict

  /** `counts: Dict[K, int]` filled by `counts[k] = counts.get(k, 0) + 1`. */
  datatype CountDict<K> = CountDict(keys: seq<K>, counts: map<K, nat>)

  function EmptyCountDict<K>(): CountDict<K> {
    CountDict([], map[])
  }

  /** `counts.get(k, 0)`. */
  function CountOf<K>(d: CountDict<K>, k: K): nat {
    if k in d.counts then d.counts[k] else 0
  }

  /** `counts[k] = counts.get(k, 0) + 1`. */
  function Bump<K>(d: CountDict<K>, k: K): CountDict<K> {
    if k in d.counts then d.(counts := d.counts[k := d.counts[k] + 1])
    else CountDict(d.keys + [k], d.counts[k := 1])
  }

  function BumpAll<K>(d: CountDict<K>, ks: seq<K>): CountDict<K> {
    if ks == [] then d else Bump(BumpAll(d, ks[..|ks| - 1]), ks[|ks| - 1])
  }

  lemma {:induction false} BumpAllAppend<K>(d: CountDict<K>, a: seq<K>, b: seq<K>)
    ensures BumpAll(d, a + b) == BumpAll(BumpAll(d, a), b)
    decreases |b|
  {
    if b == [] {
      assert a + b == a;
    } else {
      assert (a + b)[..|a + b| - 1] == a + b[..|b| - 1];
      BumpAllAppend(d, a, b[..|b| - 1]);
    }
  }

  lemma BumpAllSnoc<K>(d: CountDict<K>, ks: seq<K>, k: K)
    ensures BumpAll(d, ks + [k]) == Bump(BumpAll(d, ks), k)
  {
    assert (ks + [k])[..|ks|] == ks;
  }

  /** One more element of `ks` is counted iff it passes the filter. */
  lemma BumpFilterStep<K>(d: CountDict<K>, ks: seq<K>, j: nat, p: K -> bool)
    requires j < |ks|
    ensures BumpAll(d, Filter(ks[..j + 1], p))
         == if p(ks[j]) then Bump(BumpAll(d, Filter(ks[..j], p)), ks[j]) else BumpAll(d, Filter(ks[..j], p))
  {
    FilterSnoc(ks, j, p);
    if p(ks[j]) {
      BumpAllSnoc(d, Filter(ks[..j], p), ks[j]);
    } else {
      assert Filter(ks[..j], p) + [] == Filter(ks[..j], p);
    }
  }

  /** The tally of `ks`: its keys are the distinct elements in order of first appearance, and each
      count is the number of occurrences. */
  lemma {:induction false} TallyOf<K>(ks: seq<K>)
    ensures BumpAll(EmptyCountDict(), ks).keys == Dedup(ks)
    ensures forall k :: k in BumpAll(EmptyCountDict(), ks).counts <==> k in ks
    ensures forall k :: CountOf(BumpAll(EmptyCountDict(), ks), k) == multiset(ks)[k]
  {
    if ks != [] {
      var ks' := ks[..|ks| - 1];
      TallyOf(ks');
      assert ks == ks' + [ks[|ks| - 1]];
    }
  }

  // ---------------------------------------------------------------- plain dict

  /** A plain dict where a later assignment to a key overwrites the value in place. */
  datatype Dict<K, V> = Dict(keys: seq<K>, vals: map<K, V>)

  function EmptyDict<K, V>(): Dict<K, V> {
    Dict([], map[])
  }

  /** `d[k] = v`. */
  function Put<K, V>(d: Dict<K, V>, k: K, v: V): Dict<K, V> {
    if k in d.vals then d.(vals := d.vals[k := v]) else Dict(d.keys + [k], d.vals[k := v])
  }

  function PutAll<K, V>(d: Dict<K, V>, ps: seq<(K, V)>): Dict<K, V> {
    if ps == [] then d else Put(PutAll(d, ps[..|ps| - 1]), ps[|ps| - 1].0, ps[|ps| - 1].1)
  }

  lemma PutAllSnoc<K, V>(d: Dict<K, V>, ps: seq<(K, V)>, k: K, v: V)
    ensures PutAll(d, ps + [(k, v)]) == Put(PutAll(d, ps), k, v)
  {
    assert (ps + [(k, v)])[..|ps|] == ps;
  }

  /** The value of the last pair of `ps` whose key is `k`. */
  function LastValue<K(==), V>(ps: seq<(K, V)>, k: K): V
    requires k in Firsts(ps)
  {
    var p := ps[|ps| - 1];
    if p.0 == k then p.1
    else
      assert Firsts(ps) == Firsts(ps[..|ps| - 1]) + [p.0];
      LastValue(ps[..|ps| - 1], k)
  }

  /** The dict built from `ps`: its keys are the distinct first components in order of first
      appearance, and each maps to the value of the last pair with that key. */
  lemma {:induction false} DictOf<K, V>(ps: seq<(K, V)>)
    ensures PutAll(EmptyDict(), ps).keys == Dedup(Firsts(ps))
    ensures forall k :: k in PutAll(EmptyDict(), ps).vals <==> k in Firsts(ps)
    ensures forall k | k in PutAll(EmptyDict(), ps).vals :: PutAll(EmptyDict(), ps).vals[k] == LastValue(ps, k)
  {
    if ps != [] {
      var ps' := ps[..|ps| - 1];
      DictOf(ps');
      assert Firsts(ps) == Firsts(ps') + [ps[|ps| - 1].0];
      assert Firsts(ps)[..|ps| - 1] == Firsts(ps');
    }
  }

  /** The last value is that of the last pair with the key: no later pair has that key. */
  lemma {:induction false} LastValueIsLast<K, V>(ps: seq<(K, V)>, k: K)
    requires k in Firsts(ps)
    ensures exists i | 0 <= i < |ps| :: ps[i] == (k, LastValue(ps, k)) && forall j | i < j < |ps| :: ps[j].0 != k
  {
    var p := ps[|ps| - 1];
    if p.0 != k {
      var ps' := ps[..|ps| - 1];
      assert Firsts(ps) == Firsts(ps') + [p.0];
      LastValueIsLast(ps', k);
      var i :| 0 <= i < |ps'| && ps'[i] == (k, LastValue(ps', k)) && forall j | i < j < |ps'| :: ps'[j].0 != k;
      assert ps[i] == ps'[i];
    }
  }

  /** The first components are those of the pairs. */
  lemma FirstsMember<K, V>(ps: seq<(K, V)>, k: K)
    ensures k in Firsts(ps) <==> exists e | e in ps :: e.0 == k
  {
    if k in Firsts(ps) {
      var i :| 0 <= i < |ps| && Firsts(ps)[i] == k;
      assert ps[i] in ps;
    }
    if exists e | e in ps :: e.0 == k {
      var e :| e in ps && e.0 == k;
      var i :| 0 <= i < |ps| && ps[i] == e;
      assert Firsts(ps)[i] == k;
    }
  }

  /** The dictionary built from a list of pairs: keys in order of first appearance, exactly the
      keys of the pairs, each with the value of its last pair. */
  lemma PutAllSpec<K, V>(ps: seq<(K, V)>)
    ensures PutAll(EmptyDict(), ps).keys == Dedup(Firsts(ps))
    ensures forall k :: k in PutAll(EmptyDict(), ps).vals <==> exists e | e in ps :: e.0 == k
    ensures forall k | k in PutAll(EmptyDict(), ps).vals ::
      exists i | 0 <= i < |ps| :: ps[i] == (k, PutAll(EmptyDict(), ps).vals[k]) && forall j | i < j < |ps| :: ps[j].0 != k
  {
    DictOf(ps);
    PutAllMembers(ps);
    PutAllLast(ps);
  }

  lemma PutAllMembers<K, V>(ps: seq<(K, V)>)
    ensures forall k :: k in PutAll(EmptyDict(), ps).vals <==> exists e | e in ps :: e.0 == k
  {
    DictOf(ps);
    forall k ensures k in Firsts(ps) <==> exists e | e in ps :: e.0 == k {
      FirstsMember(ps, k);
    }
  }

  lemma PutAllLast<K, V>(ps: seq<(K, V)>)
    ensures forall k | k in PutAll(EmptyDict(), ps).vals ::
      exists i | 0 <= i < |ps| :: ps[i] == (k, PutAll(EmptyDict(), ps).vals[k]) && forall j | i < j < |ps| :: ps[j].0 != k
  {
    forall k | k in PutAll(EmptyDict(), ps).vals
      ensures exists i | 0 <= i < |ps| :: ps[i] == (k, PutAll(EmptyDict(), ps).vals[k]) && forall j | i < j < |ps| :: ps[j].0 != k
    {
      PutAllLastOf(ps, k);
    }
  }

  lemma PutAllLastOf<K, V>(ps: seq<(K, V)>, k: K)
    requires k in PutAll(EmptyDict(), ps).vals
    ensures exists i | 0 <= i < |ps| :: ps[i] == (k, PutAll(EmptyDict(), ps).vals[k]) && forall j | i < j < |ps| :: ps[j].0 != k
  {
    DictOf(ps);
    LastValueIsLast(ps, k);
  }
}
