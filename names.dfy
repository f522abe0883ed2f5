/** The name detectors of the audit (scripts/explore_messages.py, `analyze`): user ids seen with
    several names, full names shared by several ids, and first names shared by several ids. */
module NameChecks {
  import opened Seqs
  import opened Sorting
  import opened Dicts
  import opened Entries
  import opened Records
  import opened Grouping
  import opened Text
  import opened Normalise
  import opened Words

  // ---------------------------------------------------------------- one id, several names

  /** The non-empty `user_name`s of `arr`, in order. */
  function NamesIn(arr: seq<Message>): seq<string> {
    if arr == [] then []
    else NamesIn(arr[..|arr| - 1]) + (if NameOf(arr[|arr| - 1]) != "" then [NameOf(arr[|arr| - 1])] else [])
  }

  lemma {:induction false} NamesInMembers(arr: seq<Message>, x: string)
    ensures x in NamesIn(arr) <==> x != "" && exists m | m in arr :: NameOf(m) == x
  {
    if arr != [] {
      var arr' := arr[..|arr| - 1];
      NamesInMembers(arr', x);
      assert arr == arr' + [arr[|arr| - 1]];
      assert forall m | m in arr' :: m in arr;
    }
  }

  /** `uid_to_names[uid] = sorted({m.get("user_name", "") for m in arr if m.get("user_name")})`. */
  function UidNames(arr: seq<Message>): seq<string> {
    SortStrings(Dedup(NamesIn(arr)))
  }

  /** The distinct non-empty names carried by messages of user `u`. */
  function NameSet(ms: seq<Message>, u: string): set<string> {
    set m | m in ms && UidOf(m) == u && NameOf(m) != "" :: NameOf(m)
  }

  datatype MultiName = MultiName(userId: string, names: seq<string>)

  predicate HasSeveralNames(e: MultiName) {
    |e.names| > 1
  }

  /** Every user with its sorted distinct names, in the order of the groups. */
  function NamedUsers(byUser: Grouping<string>): (r: seq<MultiName>)
    ensures |r| == |byUser.keys|
    ensures forall i | 0 <= i < |r| :: r[i] == MultiName(byUser.keys[i], UidNames(GroupOf(byUser, byUser.keys[i])))
  {
    seq(|byUser.keys|, i requires 0 <= i < |byUser.keys| => MultiName(byUser.keys[i], UidNames(GroupOf(byUser, byUser.keys[i]))))
  }

  /** `multi_name_users`, in the order of the groups. */
  function MultiNameUsers(byUser: Grouping<string>): seq<MultiName> {
    Filter(NamedUsers(byUser), HasSeveralNames)
  }

  /** The names listed for a user are sorted, distinct, and exactly that user's non-empty names. */
  lemma UidNamesSpec(ms: seq<Message>, u: string)
    ensures var ns := UidNames(GroupOf(GroupSpec(ms, UidOf), u));
      && Distinct(ns)
      && (forall i, j | 0 <= i < j < |ns| :: LexOrder.LexLe(ns[i], ns[j]))
      && (forall x :: x in ns <==> x in NameSet(ms, u))
      && |ns| == |NameSet(ms, u)|
  {
    var g := GroupOf(GroupSpec(ms, UidOf), u);
    var d := Dedup(NamesIn(g));
    SortStringsOfSet(d);
    forall x ensures x in d <==> x in NameSet(ms, u) {
      NamesOfUser(ms, u, x);
    }
    DistinctSetSize(d, NameSet(ms, u));
    assert |SortStrings(d)| == |d|;
  }

  /** A name is among those of a user's group iff some message of that user carries it. */
  lemma NamesOfUser(ms: seq<Message>, u: string, x: string)
    ensures x in NamesIn(GroupOf(GroupSpec(ms, UidOf), u)) <==> x in NameSet(ms, u)
  {
    var g := GroupOf(GroupSpec(ms, UidOf), u);
    NamesInMembers(g, x);
    if x in NameSet(ms, u) {
      var m :| m in ms && UidOf(m) == u && NameOf(m) != "" && NameOf(m) == x;
      GroupMembership(ms, UidOf, m, u);
    }
    if x in NamesIn(g) {
      var m :| m in g && NameOf(m) == x;
      GroupMembership(ms, UidOf, m, u);
    }
  }

  /** A user is listed iff it carries more than one distinct non-empty name, and is then listed once
      with those names. */
  lemma MultiNameUsersSpec(ms: seq<Message>, e: MultiName)
    ensures e in MultiNameUsers(GroupSpec(ms, UidOf)) <==>
      |NameSet(ms, e.userId)| > 1 && e.names == UidNames(GroupOf(GroupSpec(ms, UidOf), e.userId))
  {
    var byUser := GroupSpec(ms, UidOf);
    var all := NamedUsers(byUser);
    UidNamesSpec(ms, e.userId);
    FilterSound(all, HasSeveralNames);
    if |NameSet(ms, e.userId)| > 1 && e.names == UidNames(GroupOf(byUser, e.userId)) {
      var x :| x in NameSet(ms, e.userId);
      var m :| m in ms && UidOf(m) == e.userId && NameOf(m) == x;
      assert e.userId in KeysOf(ms, UidOf);
      var i :| 0 <= i < |byUser.keys| && byUser.keys[i] == e.userId;
      assert all[i] == e;
      FilterComplete(all, HasSeveralNames, e);
    }
  }

  // ---------------------------------------------------------------- names shared by several ids

  /** `_norm(uname).split(" ")[0] if _norm(uname) else ""`. */
  function FirstName(name: string): string {
    if Norm(name) != "" then FirstToken(Norm(name)) else ""
  }

  /** The first name is the first `[a-z0-9]` token of the accent-stripped, lower-cased name, and
      empty exactly when the name has no such token. */
  lemma FirstNameSpec(name: string)
    ensures FirstName(name) == if Tokens(name) == [] then "" else Tokens(name)[0]
  {
    NormIsJoinTokens(name);
    var ts := Tokens(name);
    if ts != [] {
      var w, s := ts[0], Norm(name);
      assert |w| > 0 && forall i | 0 <= i < |w| :: IsWordChar(w[i]);
      if |ts| == 1 {
        assert s == w;
      } else {
        assert ts == [w] + ts[1..];
        JoinCons(w, ts[1..]);
        assert s == w + " " + Join(ts[1..]);
        assert s[|w|] == ' ';
      }
      assert w <= s;
      assert FirstToken(s) == w;
    }
  }

  /** What one message adds to `full_name_to_uids`. */
  function FullPair(m: Message): seq<(string, string)> {
    if NameOf(m) != "" then [(NameOf(m), UidOf(m))] else []
  }

  /** What one message adds to `first_name_to_uids`. */
  function FirstPair(m: Message): seq<(string, string)> {
    if NameOf(m) != "" && FirstName(NameOf(m)) != "" then [(FirstName(NameOf(m)), UidOf(m))] else []
  }

  /** The loop filling `full_name_to_uids` and `first_name_to_uids`. */
  method NameTables(ms: seq<Message>) returns (full: SetDict<string, string>, first: SetDict<string, string>)
    ensures full == AddAll(EmptySetDict(), FlatMap(ms, FullPair))
    ensures first == AddAll(EmptySetDict(), FlatMap(ms, FirstPair))
  {
    full := EmptySetDict();
    first := EmptySetDict();
    var i := 0;
    while i < |ms|
      invariant i <= |ms|
      invariant full == AddAll(EmptySetDict(), FlatMap(ms[..i], FullPair))
      invariant first == AddAll(EmptySetDict(), FlatMap(ms[..i], FirstPair))
    {
      var m := ms[i];
      assert ms[..i + 1] == ms[..i] + [m];
      ScanStep(ms[..i], m, FullPair);
      ScanStep(ms[..i], m, FirstPair);
      var uname := NameOf(m);
      var uid := UidOf(m);
      if uname != "" {
        full := Add(full, uname, uid);
        var f := FirstName(uname);
        if f != "" {
          first := Add(first, f, uid);
        }
      }
      i := i + 1;
    }
    assert ms[..|ms|] == ms;
  }

  /** The distinct ids that used the full name `n`. */
  function UidsWithName(ms: seq<Message>, n: string): set<string> {
    set m | m in ms && NameOf(m) == n && n != "" :: UidOf(m)
  }

  /** The distinct ids whose name has first token `f`. */
  function UidsWithFirst(ms: seq<Message>, f: string): set<string> {
    set m | m in ms && NameOf(m) != "" && FirstName(NameOf(m)) == f && f != "" :: UidOf(m)
  }

  datatype Collision = Collision(name: string, ids: seq<string>)

  /** `full_collisions`: names with more than one id, ids sorted. */
  function FullCollisions(full: SetDict<string, string>): seq<Collision> {
    CollisionRows(full, Filter(full.keys, SharedBy(full)))
  }

  /** A name used by more than one id. */
  function SharedBy(full: SetDict<string, string>): string -> bool {
    n => |SetOf(full, n)| > 1
  }

  /** Each name of `ns` with its ids, sorted. */
  function CollisionRows(full: SetDict<string, string>, ns: seq<string>): (r: seq<Collision>)
    ensures |r| == |ns|
    ensures forall i | 0 <= i < |r| :: r[i] == Collision(ns[i], SortStrings(SetOf(full, ns[i])))
  {
    seq(|ns|, i requires 0 <= i < |ns| => Collision(ns[i], SortStrings(SetOf(full, ns[i]))))
  }

  /** `first_collisions` after its sort: first names with more than one id, most ids first. */
  function FirstCollisions(first: SetDict<string, string>): seq<Entry> {
    RankDesc(Filter(SizesOf(first), Repeated))
  }

  lemma FullTable(ms: seq<Message>, n: string)
    ensures var full := AddAll(EmptySetDict(), FlatMap(ms, FullPair));
      && (n in full.keys <==> UidsWithName(ms, n) != {})
      && |SetOf(full, n)| == |UidsWithName(ms, n)|
      && (forall u :: u in SetOf(full, n) <==> u in UidsWithName(ms, n))
  {
    forall v ensures v in UidsWithName(ms, n) <==> exists m | m in ms :: (n, v) in FullPair(m) {
      if v in UidsWithName(ms, n) {
        var m :| m in ms && NameOf(m) == n && n != "" && UidOf(m) == v;
        assert (n, v) in FullPair(m);
      }
    }
    SetDictOfScan(ms, FullPair, n, UidsWithName(ms, n));
  }

  lemma FirstTable(ms: seq<Message>, f: string)
    ensures var first := AddAll(EmptySetDict(), FlatMap(ms, FirstPair));
      && (f in first.keys <==> UidsWithFirst(ms, f) != {})
      && |SetOf(first, f)| == |UidsWithFirst(ms, f)|
  {
    forall v ensures v in UidsWithFirst(ms, f) <==> exists m | m in ms :: (f, v) in FirstPair(m) {
      if v in UidsWithFirst(ms, f) {
        var m :| m in ms && NameOf(m) != "" && FirstName(NameOf(m)) == f && f != "" && UidOf(m) == v;
        assert (f, v) in FirstPair(m);
      }
    }
    SetDictOfScan(ms, FirstPair, f, UidsWithFirst(ms, f));
  }

  /** On any table whose id lists are distinct: a name has a row iff it is a key with more than one
      id, and the row lists those ids sorted. */
  lemma CollisionsOfTable(full: SetDict<string, string>, n: string)
    requires forall k | k in full.sets :: Distinct(full.sets[k])
    ensures (exists c | c in FullCollisions(full) :: c.name == n) <==> n in full.keys && |SetOf(full, n)| > 1
    ensures forall c | c in FullCollisions(full) && c.name == n ::
      && Distinct(c.ids)
      && (forall i, j | 0 <= i < j < |c.ids| :: LexOrder.LexLe(c.ids[i], c.ids[j]))
      && (forall u :: u in c.ids <==> u in SetOf(full, n))
  {
    var ns := Filter(full.keys, SharedBy(full));
    FilterSound(full.keys, SharedBy(full));
    if n in full.keys && |SetOf(full, n)| > 1 {
      FilterComplete(full.keys, SharedBy(full), n);
      var i :| 0 <= i < |ns| && ns[i] == n;
      assert FullCollisions(full)[i].name == n;
    }
    if n in full.sets {
      SortStringsOfSet(SetOf(full, n));
    } else {
      SortStringsOfSet([]);
    }
  }

  /** A full name is reported iff more than one distinct id used it; its ids are then sorted,
      distinct, and exactly those ids. */
  lemma FullCollisionsSpec(ms: seq<Message>, n: string)
    ensures var cs := FullCollisions(AddAll(EmptySetDict(), FlatMap(ms, FullPair)));
      && ((exists c | c in cs :: c.name == n) <==> |UidsWithName(ms, n)| > 1)
      && (forall c | c in cs && c.name == n ::
            && Distinct(c.ids)
            && (forall i, j | 0 <= i < j < |c.ids| :: LexOrder.LexLe(c.ids[i], c.ids[j]))
            && (forall u :: u in c.ids <==> u in UidsWithName(ms, n))
            && |c.ids| > 1)
  {
    var full := AddAll(EmptySetDict(), FlatMap(ms, FullPair));
    FullTable(ms, n);
    SetDictSets(FlatMap(ms, FullPair));
    CollisionsOfTable(full, n);
  }

  /** A first name is reported iff more than one distinct id carries it; its count is that number
      of ids; the list goes from most to fewest ids. */
  lemma FirstCollisionsSpec(ms: seq<Message>, f: string)
    ensures var cs := FirstCollisions(AddAll(EmptySetDict(), FlatMap(ms, FirstPair)));
      && ((exists e | e in cs :: e.key == f) <==> |UidsWithFirst(ms, f)| > 1)
      && (forall e | e in cs && e.key == f :: e.count == |UidsWithFirst(ms, f)|)
      && (forall e | e in cs :: e.count > 1)
      && (forall i, j | 0 <= i < j < |cs| :: cs[i].count >= cs[j].count)
  {
    var first := AddAll(EmptySetDict(), FlatMap(ms, FirstPair));
    var es := Filter(SizesOf(first), Repeated);
    FirstTable(ms, f);
    RankDescProps(es);
    FilterSound(SizesOf(first), Repeated);
    if |UidsWithFirst(ms, f)| > 1 {
      var i :| 0 <= i < |first.keys| && first.keys[i] == f;
      FilterComplete(SizesOf(first), Repeated, SizesOf(first)[i]);
    }
  }
}
