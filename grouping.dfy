/** `group_by_user`: messages bucketed by a key in order of first appearance, each bucket then
    sorted stably by its raw timestamp string. The key is `m.get("user_id", "")` in the audit and
    `m.get("user_id")` in the member helpers, so the key type is a parameter. */
module Grouping {
  import opened Seqs
  import opened LexOrder
  import opened Sorting
  import opened Records

  datatype Grouping<K> = Grouping(keys: seq<K>, groups: map<K, seq<Message>>)

  /** `by_user[k]`, empty for a key with no messages. */
  function GroupOf<K>(g: Grouping<K>, k: K): seq<Message> {
    if k in g.groups then g.groups[k] else []
  }

  /** The sort key `x.get("timestamp", "")`, compared as Python compares strings. */
  predicate TimestampLe(a: Message, b: Message) {
    LexLe(TimestampOf(a), TimestampOf(b))
  }

  function KeyIs<K(==)>(key: Message -> K, k: K): Message -> bool {
    m => key(m) == k
  }

  /** The messages with key `k`, in input order. */
  function Members<K(==)>(ms: seq<Message>, key: Message -> K, k: K): seq<Message> {
    Filter(ms, KeyIs(key, k))
  }

  /** The key of every message, in input order. */
  function KeysOf<K>(ms: seq<Message>, key: Message -> K): (ks: seq<K>)
    ensures |ks| == |ms| && forall i | 0 <= i < |ms| :: ks[i] == key(ms[i])
  {
    if ms == [] then [] else KeysOf(ms[..|ms| - 1], key) + [key(ms[|ms| - 1])]
  }

  /** What `group_by_user` returns. */
  function GroupSpec<K(==)>(ms: seq<Message>, key: Message -> K): (g: Grouping<K>)
    ensures Distinct(g.keys)
    ensures forall k | k in g.groups :: k in g.keys
    ensures forall k | k in g.keys :: k in g.groups
  {
    var ks := Dedup(KeysOf(ms, key));
    Grouping(ks, map k | k in ks :: SortBy(Members(ms, key, k), TimestampLe))
  }

  /** The loop of `group_by_user`: append every message to its key's list, then sort every list. */
  method GroupBy<K(==)>(ms: seq<Message>, key: Message -> K) returns (g: Grouping<K>)
    ensures g == GroupSpec(ms, key)
  {
    var keys, groups := Bucket(ms, key);
    groups := SortGroups(ms, key, keys, groups);
    g := Grouping(keys, groups);
  }

  /** `by_user[m.get(...)].append(m)` for every message. */
  method Bucket<K(==)>(ms: seq<Message>, key: Message -> K) returns (keys: seq<K>, groups: map<K, seq<Message>>)
    ensures keys == Dedup(KeysOf(ms, key))
    ensures forall k :: k in groups <==> k in keys
    ensures forall k | k in groups :: groups[k] == Members(ms, key, k)
  {
    keys := [];
    groups := map[];
    var i := 0;
    while i < |ms|
      invariant 0 <= i <= |ms|
      invariant Bucketed(ms[..i], key, keys, groups)
    {
      var m := ms[i];
      var k := key(m);
      BucketStep(ms, i, key, keys, groups);
      if k in groups {
        groups := groups[k := groups[k] + [m]];
      } else {
        keys := keys + [k];
        groups := groups[k := [m]];
      }
      i := i + 1;
    }
    assert ms[..i] == ms;
  }

  /** The state of `Bucket` after the messages `ms`. */
  predicate Bucketed<K(==)>(ms: seq<Message>, key: Message -> K, keys: seq<K>, groups: map<K, seq<Message>>) {
    && keys == Dedup(KeysOf(ms, key))
    && (forall k | k in keys :: k in groups)
    && (forall k | k in groups :: k in keys && groups[k] == Members(ms, key, k))
  }

  /** One iteration of `Bucket` keeps its state in step with the messages seen. */
  lemma BucketStep<K>(ms: seq<Message>, i: nat, key: Message -> K, keys: seq<K>, groups: map<K, seq<Message>>)
    requires i < |ms| && Bucketed(ms[..i], key, keys, groups)
    ensures key(ms[i]) in groups ==>
      Bucketed(ms[..i + 1], key, keys, groups[key(ms[i]) := groups[key(ms[i])] + [ms[i]]])
    ensures key(ms[i]) !in groups ==>
      Bucketed(ms[..i + 1], key, keys + [key(ms[i])], groups[key(ms[i]) := [ms[i]]])
  {
    assert ms[..i + 1] == ms[..i] + [ms[i]];
    if key(ms[i]) in groups {
      BucketKnown(ms[..i], ms[i], key, keys, groups);
    } else {
      BucketNew(ms[..i], ms[i], key, keys, groups);
    }
  }

  /** A message whose key was seen goes to the end of that key's list. */
  lemma BucketKnown<K>(ms: seq<Message>, m: Message, key: Message -> K, keys: seq<K>, groups: map<K, seq<Message>>)
    requires Bucketed(ms, key, keys, groups) && key(m) in groups
    ensures Bucketed(ms + [m], key, keys, groups[key(m) := groups[key(m)] + [m]])
  {
    assert key(m) in KeysOf(ms, key);
    assert Dedup(KeysOf(ms + [m], key)) == keys by {
      KeysSnoc(ms, m, key);
      assert keys + [] == keys;
    }
    var g := groups[key(m) := groups[key(m)] + [m]];
    forall k | k in g ensures k in keys && g[k] == Members(ms + [m], key, k) {
      MembersSnoc(ms, m, key, k);
    }
  }

  /** A message with a new key opens a list of its own. */
  lemma BucketNew<K>(ms: seq<Message>, m: Message, key: Message -> K, keys: seq<K>, groups: map<K, seq<Message>>)
    requires Bucketed(ms, key, keys, groups) && key(m) !in groups
    ensures Bucketed(ms + [m], key, keys + [key(m)], groups[key(m) := [m]])
  {
    KeysSnoc(ms, m, key);
    assert key(m) !in KeysOf(ms, key);
    MembersAbsent(ms, key, key(m));
    forall k | k in groups || k == key(m) ensures Members(ms + [m], key, k) == Members(ms, key, k) + (if key(m) == k then [m] else []) {
      MembersSnoc(ms, m, key, k);
    }
    assert Members(ms + [m], key, key(m)) == [m];
  }

  /** One more message adds its key to the distinct keys unless it was already there. */
  lemma KeysSnoc<K>(ms: seq<Message>, m: Message, key: Message -> K)
    ensures Dedup(KeysOf(ms + [m], key))
         == Dedup(KeysOf(ms, key)) + (if key(m) in KeysOf(ms, key) then [] else [key(m)])
  {
    assert (ms + [m])[..|ms|] == ms;
    var ks := KeysOf(ms + [m], key);
    assert ks[..|ms|] == KeysOf(ms, key);
    assert ks[|ks| - 1] == key(m);
  }

  /** One more message adds its key to the distinct keys unless it was already there. */
  lemma KeysStep<K>(ms: seq<Message>, i: nat, key: Message -> K)
    requires i < |ms|
    ensures ms[..i + 1] == ms[..i] + [ms[i]]
    ensures Dedup(KeysOf(ms[..i + 1], key))
         == Dedup(KeysOf(ms[..i], key)) + (if key(ms[i]) in KeysOf(ms[..i], key) then [] else [key(ms[i])])
  {
    assert ms[..i + 1] == ms[..i] + [ms[i]];
    var ks := KeysOf(ms[..i + 1], key);
    assert ks[..i] == KeysOf(ms[..i], key);
    assert ks[|ks| - 1] == key(ms[i]);
  }

  lemma MembersSnoc<K>(ms: seq<Message>, m: Message, key: Message -> K, k: K)
    ensures Members(ms + [m], key, k) == Members(ms, key, k) + (if key(m) == k then [m] else [])
  {
    assert (ms + [m])[..|ms|] == ms;
  }

  /** `arr.sort(key=lambda x: x.get("timestamp", ""))` for every group, in key order. */
  method SortGroups<K(==)>(ms: seq<Message>, key: Message -> K, keys: seq<K>, groups0: map<K, seq<Message>>)
    returns (groups: map<K, seq<Message>>)
    requires Distinct(keys)
    requires forall k :: k in groups0 <==> k in keys
    requires forall k | k in groups0 :: groups0[k] == Members(ms, key, k)
    ensures forall k :: k in groups <==> k in keys
    ensures forall k | k in groups :: groups[k] == SortBy(Members(ms, key, k), TimestampLe)
  {
    groups := groups0;
    var j := 0;
    while j < |keys|
      invariant 0 <= j <= |keys|
      invariant groups.Keys == groups0.Keys
      invariant forall t | 0 <= t < j :: groups[keys[t]] == SortBy(Members(ms, key, keys[t]), TimestampLe)
      invariant forall t | j <= t < |keys| :: groups[keys[t]] == groups0[keys[t]]
    {
      var k := keys[j];
      groups := groups[k := SortBy(groups[k], TimestampLe)];
      j := j + 1;
    }
    forall k | k in groups ensures groups[k] == SortBy(Members(ms, key, k), TimestampLe) {
      var t :| 0 <= t < |keys| && keys[t] == k;
    }
  }

  lemma DedupDistinctTail<K>(keys: seq<K>, j: nat)
    requires Distinct(keys) && j < |keys|
    ensures keys[j] !in keys[..j] && keys[j] !in keys[j + 1..]
  {
  }

  /** A key that never occurs has no members. */
  lemma MembersAbsent<K>(ms: seq<Message>, key: Message -> K, k: K)
    requires k !in KeysOf(ms, key)
    ensures Members(ms, key, k) == []
  {
    forall m | m in ms ensures !KeyIs(key, k)(m) {
      var i :| 0 <= i < |ms| && ms[i] == m;
      assert KeysOf(ms, key)[i] == key(m);
    }
    FilterNone(ms, KeyIs(key, k));
  }

  /** Every message lands in exactly one group: the group of its own key. */
  lemma {:induction false} GroupMembership<K>(ms: seq<Message>, key: Message -> K, m: Message, k: K)
    ensures m in GroupOf(GroupSpec(ms, key), k) <==> m in ms && key(m) == k
  {
    var ks := Dedup(KeysOf(ms, key));
    var mem := Members(ms, key, k);
    FilterSound(ms, KeyIs(key, k));
    if m in ms && key(m) == k {
      FilterComplete(ms, KeyIs(key, k), m);
      var i :| 0 <= i < |ms| && ms[i] == m;
      assert KeysOf(ms, key)[i] == k;
    }
    if k in ks {
      SortByMembers(mem, TimestampLe);
      assert GroupOf(GroupSpec(ms, key), k) == SortBy(mem, TimestampLe);
    } else {
      assert GroupOf(GroupSpec(ms, key), k) == [];
    }
  }

  /** Each group is ordered by timestamp string and keeps the input order of equal timestamps. */
  lemma GroupOrdered<K>(ms: seq<Message>, key: Message -> K, k: K, c: Message)
    requires k in GroupSpec(ms, key).groups
    ensures SortedBy(GroupSpec(ms, key).groups[k], TimestampLe)
    ensures Filter(GroupSpec(ms, key).groups[k], EqClass(TimestampLe, c))
         == Filter(Members(ms, key, k), EqClass(TimestampLe, c))
  {
    TimestampTotalPreorder();
    SortBySorted(Members(ms, key, k), TimestampLe);
    SortByStable(Members(ms, key, k), TimestampLe, c);
  }

  lemma TimestampTotalPreorder()
    ensures TotalPreorder(TimestampLe)
  {
    forall a, b ensures TimestampLe(a, b) || TimestampLe(b, a) {
      LexTotal(TimestampOf(a), TimestampOf(b));
    }
    forall a, b, c | TimestampLe(a, b) && TimestampLe(b, c) ensures TimestampLe(a, c) {
      LexTrans(TimestampOf(a), TimestampOf(b), TimestampOf(c));
    }
  }

  // ---------------------------------------------------------------- partition

  /** The number of messages satisfying `p`, summed over the groups of `ks`. */
  function CountInGroups<K>(g: Grouping<K>, ks: seq<K>, p: Message -> bool): nat {
    if ks == [] then 0 else CountInGroups(g, ks[..|ks| - 1], p) + Count(GroupOf(g, ks[|ks| - 1]), p)
  }

  function CountInMembers<K(==)>(ms: seq<Message>, key: Message -> K, ks: seq<K>, p: Message -> bool): nat {
    if ks == [] then 0 else CountInMembers(ms, key, ks[..|ks| - 1], p) + Count(Members(ms, key, ks[|ks| - 1]), p)
  }

  lemma {:induction false} CountInGroupsMembers<K>(ms: seq<Message>, key: Message -> K, ks: seq<K>, p: Message -> bool)
    requires forall k | k in ks :: k in GroupSpec(ms, key).groups
    ensures CountInGroups(GroupSpec(ms, key), ks, p) == CountInMembers(ms, key, ks, p)
  {
    if ks != [] {
      var k := ks[|ks| - 1];
      assert forall x | x in ks[..|ks| - 1] :: x in ks;
      CountInGroupsMembers(ms, key, ks[..|ks| - 1], p);
      CountSortBy(Members(ms, key, k), TimestampLe, p);
    }
  }

  /** Appending one message adds it to the count of its own key only. */
  lemma {:induction false} CountInMembersSnoc<K>(ms: seq<Message>, m: Message, key: Message -> K, ks: seq<K>, p: Message -> bool)
    requires Distinct(ks)
    ensures CountInMembers(ms + [m], key, ks, p)
         == CountInMembers(ms, key, ks, p) + (if key(m) in ks && p(m) then 1 else 0)
  {
    if ks != [] {
      var ks' := ks[..|ks| - 1];
      var k := ks[|ks| - 1];
      assert Distinct(ks');
      assert ks == ks' + [k];
      CountInMembersSnoc(ms, m, key, ks', p);
      assert (ms + [m])[..|ms|] == ms;
      CountAppend(Members(ms, key, k), if KeyIs(key, k)(m) then [m] else [], p);
      assert Count([m], p) == (if p(m) then 1 else 0) by {
        assert [m][..0] == [];
      }
    }
  }

  /** Summed over all groups, the messages satisfying any `p` are exactly those of the input. */
  lemma {:induction false} GroupPartition<K>(ms: seq<Message>, key: Message -> K, p: Message -> bool)
    ensures CountInGroups(GroupSpec(ms, key), GroupSpec(ms, key).keys, p) == Count(ms, p)
  {
    var g := GroupSpec(ms, key);
    CountInGroupsMembers(ms, key, g.keys, p);
    CountInMembersTotal(ms, key, p);
  }

  lemma {:induction false} CountInMembersTotal<K>(ms: seq<Message>, key: Message -> K, p: Message -> bool)
    ensures CountInMembers(ms, key, Dedup(KeysOf(ms, key)), p) == Count(ms, p)
  {
    if ms != [] {
      CountInMembersTotal(ms[..|ms| - 1], key, p);
      CountInMembersStep(ms, key, p);
    }
  }

  /** The last message adds itself, under its own key, to the count over all keys. */
  lemma CountInMembersStep<K>(ms: seq<Message>, key: Message -> K, p: Message -> bool)
    requires ms != []
    ensures CountInMembers(ms, key, Dedup(KeysOf(ms, key)), p)
         == CountInMembers(ms[..|ms| - 1], key, Dedup(KeysOf(ms[..|ms| - 1], key)), p) + (if p(ms[|ms| - 1]) then 1 else 0)
  {
    var i := |ms| - 1;
    var ms', m := ms[..i], ms[i];
    var ks := Dedup(KeysOf(ms', key));
    KeysStep(ms, i, key);
    assert ms[..i + 1] == ms;
    CountInMembersSnoc(ms', m, key, ks, p);
    if key(m) in KeysOf(ms', key) {
      assert key(m) in ks && ks + [] == ks;
    } else {
      var ks1 := ks + [key(m)];
      assert ks1[..|ks1| - 1] == ks;
      MembersAbsent(ms', key, key(m));
      MembersSnoc(ms', m, key, key(m));
      assert Members(ms, key, key(m)) == [m];
      assert Count([m], p) == (if p(m) then 1 else 0) by {
        assert [m][..0] == [];
      }
    }
  }

  /** The group sizes add up to the number of messages. */
  lemma GroupSizes<K>(ms: seq<Message>, key: Message -> K)
    ensures CountInGroups(GroupSpec(ms, key), GroupSpec(ms, key).keys, AnyMessage) == |ms|
  {
    GroupPartition(ms, key, AnyMessage);
    CountEvery(ms, AnyMessage);
  }

  predicate AnyMessage(m: Message) { true }
}
