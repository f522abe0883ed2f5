/** The persisted names index of the service: `num2id`, a map from normalised full names to user
    ids, built from user records and queried first by exact and then by substring match. */
module NameIndex {
  import opened Wrappers
  import opened Seqs
  import opened Text
  import opened Words
  import opened Normalise
  import opened Dicts

  /** `norm_name(s)` applied to `s or ""`: an absent value normalises to the empty string. */
  function NormNameOrEmpty(s: Option<string>): (r: string)
    ensures s.None? ==> r == ""
    ensures Canonical(r)
  {
    NormNameCanonical(s.GetOr(""));
    NormName(s.GetOr(""))
  }

  /** One element of the `users` argument: its `user_id` and `user_name` entries. */
  datatype UserRecord = UserRecord(userId: Option<string>, userName: Option<string>)

  /** The entry a record adds, `(norm_name(name), uid)`, when both its id and name are non-empty. */
  function EntryOf(u: UserRecord): seq<(string, string)> {
    var uid := u.userId.GetOr("");
    var name := u.userName.GetOr("");
    if uid == "" || name == "" then [] else [(NormName(name), uid)]
  }

  /** The entries of all records, in record order. */
  function Entries(users: seq<UserRecord>): seq<(string, string)> {
    FlatMap(users, EntryOf)
  }

  /** A JSON object: keys in insertion order, each once, and exactly the keys of the map. */
  predicate WellFormed(d: Dict<string, string>) {
    && Distinct(d.keys)
    && (forall k | k in d.vals :: k in d.keys)
    && (forall k | k in d.keys :: k in d.vals)
  }

  /** The index document `{"num2id": ...}`; `num2id` is None when the document has no such key. */
  datatype NamesIndex = NamesIndex(num2id: Option<Dict<string, string>>)

  predicate ValidIndex(index: NamesIndex) {
    index.num2id.Some? ==> WellFormed(index.num2id.value)
  }

  /** The `num2id` map that `build_names_index` fills; it is a well-formed JSON object. */
  function Num2Id(users: seq<UserRecord>): (d: Dict<string, string>)
    ensures WellFormed(d)
  {
    DictOf(Entries(users));
    PutAll(EmptyDict(), Entries(users))
  }

  /** `build_names_index(users)`. */
  method BuildNamesIndex(users: seq<UserRecord>) returns (index: NamesIndex)
    ensures index == NamesIndex(Some(Num2Id(users)))
  {
    var num2id: Dict<string, string> := EmptyDict();
    var i := 0;
    while i < |users|
      invariant i <= |users|
      invariant num2id == PutAll(EmptyDict(), Entries(users[..i]))
    {
      var u := users[i];
      FlatMapStep(users, i, EntryOf);
      var uid := u.userId.GetOr("");
      var name := u.userName.GetOr("");
      if uid != "" && name != "" {
        PutAllSnoc(EmptyDict(), Entries(users[..i]), NormName(name), uid);
        num2id := Put(num2id, NormName(name), uid);
      } else {
        assert Entries(users[..i + 1]) == Entries(users[..i]);
      }
      i := i + 1;
    }
    assert users[..i] == users;
    index := NamesIndex(Some(num2id));
  }

  /** The built map is a well-formed JSON object whose keys are the normalised names of the records
      with a non-empty id and name, in order of first appearance; each maps to the id of the last such
      record with that normalised name. */
  lemma BuildSpec(users: seq<UserRecord>)
    ensures Num2Id(users).keys == Dedup(Firsts(Entries(users)))
    ensures forall k :: k in Num2Id(users).vals <==> exists e | e in Entries(users) :: e.0 == k
    ensures forall k | k in Num2Id(users).vals ::
      exists i | 0 <= i < |Entries(users)| ::
        && Entries(users)[i] == (k, Num2Id(users).vals[k])
        && forall j | i < j < |Entries(users)| :: Entries(users)[j].0 != k
  {
    PutAllSpec(Entries(users));
  }

  /** Each entry comes from a record with a non-empty id and name, the key being the normalised name. */
  lemma EntriesFromRecords(users: seq<UserRecord>, e: (string, string))
    ensures e in Entries(users) <==>
      exists u | u in users :: u.userId.GetOr("") != "" && u.userName.GetOr("") != "" && e == (NormName(u.userName.GetOr("")), u.userId.GetOr(""))
  {
    FlatMapMember(users, EntryOf, e);
  }

  /** The first key, in insertion order, that contains `q`, with its id. */
  function FirstContaining(keys: seq<string>, vals: map<string, string>, q: string): Option<string>
    requires forall k | k in keys :: k in vals
  {
    if keys == [] then None
    else if Contains(keys[0], q) then Some(vals[keys[0]])
    else FirstContaining(keys[1..], vals, q)
  }

  /** `resolve_with_index(name_or_id, index)`: None for a query that normalises to nothing, the id of
      the exactly matching key, else the id of the first key containing the query. A document
      without `num2id` resolves nothing. */
  function Resolve(nameOrId: string, index: NamesIndex): Option<string>
    requires ValidIndex(index)
  {
    Lookup(NormName(nameOrId), index)
  }

  /** The lookup of an already normalised query `q`. */
  function Lookup(q: string, index: NamesIndex): Option<string>
    requires ValidIndex(index)
  {
    if q == "" || index.num2id.None? then None
    else
      var d := index.num2id.value;
      if q in d.vals then Some(d.vals[q]) else FirstContaining(d.keys, d.vals, q)
  }

  method ResolveWithIndex(nameOrId: string, index: NamesIndex) returns (r: Option<string>)
    requires ValidIndex(index)
    ensures r == Resolve(nameOrId, index)
  {
    var q := NormName(nameOrId);
    if q == "" {
      return None;
    }
    var num2id := index.num2id.GetOr(EmptyDict());
    if q in num2id.vals {
      return Some(num2id.vals[q]);
    }
    var i := 0;
    while i < |num2id.keys|
      invariant i <= |num2id.keys|
      invariant FirstContaining(num2id.keys[i..], num2id.vals, q) == FirstContaining(num2id.keys, num2id.vals, q)
    {
      var k := num2id.keys[i];
      assert num2id.keys[i..][1..] == num2id.keys[i + 1..];
      if Contains(k, q) {
        return Some(num2id.vals[k]);
      }
      i := i + 1;
    }
    return None;
  }

  // ---------------------------------------------------------------- properties

  /** The substring fallback returns the id of the first key that contains the query, and nothing
      iff no key contains it. */
  lemma {:induction false} FirstContainingSpec(keys: seq<string>, vals: map<string, string>, q: string)
    requires forall k | k in keys :: k in vals
    ensures FirstContaining(keys, vals, q).None? <==> forall k | k in keys :: !Contains(k, q)
    ensures FirstContaining(keys, vals, q).Some? ==>
      exists i | 0 <= i < |keys| ::
        && Contains(keys[i], q)
        && FirstContaining(keys, vals, q).value == vals[keys[i]]
        && forall j | 0 <= j < i :: !Contains(keys[j], q)
  {
    if keys == [] {
      // no key, so nothing is found and nothing contains the query
    } else if Contains(keys[0], q) {
      // the first key is the witness, with no key before it
      assert FirstContaining(keys, vals, q) == Some(vals[keys[0]]);
    } else {
      FirstContainingSpec(keys[1..], vals, q);
      assert forall k | k in keys :: k == keys[0] || k in keys[1..];
      if FirstContaining(keys, vals, q).Some? {
        var i :| 0 <= i < |keys[1..]| && Contains(keys[1..][i], q) && FirstContaining(keys, vals, q).value == vals[keys[1..][i]]
          && forall j | 0 <= j < i :: !Contains(keys[1..][j], q);
        assert keys[i + 1] == keys[1..][i];
        assert forall j | 1 <= j < i + 1 :: keys[j] == keys[1..][j - 1];
      }
    }
  }

  /** A query resolves to nothing iff it normalises to the empty string, or the document has no
      `num2id`, or no key equals or contains the normalised query. */
  lemma ResolveNone(nameOrId: string, index: NamesIndex)
    requires ValidIndex(index)
    ensures Resolve(nameOrId, index).None? <==>
      || NormName(nameOrId) == ""
      || index.num2id.None?
      || forall k | k in index.num2id.value.keys :: !Contains(k, NormName(nameOrId))
  {
    if index.num2id.Some? {
      var d := index.num2id.value;
      var q := NormName(nameOrId);
      FirstContainingSpec(d.keys, d.vals, q);
      if q in d.vals && q != "" {
        assert Contains(q, q) by { assert q <= q; }
      }
    }
  }

  /** Resolving any record's name against the index built from the records gives the id of the last
      record with the same normalised name, provided that name does not normalise to nothing. */
  lemma ResolveBuilt(users: seq<UserRecord>, u: UserRecord)
    requires u in users && u.userId.GetOr("") != "" && u.userName.GetOr("") != ""
    requires NormName(u.userName.GetOr("")) != ""
    ensures
      var k := NormName(u.userName.GetOr(""));
      && k in Num2Id(users).vals
      && Resolve(u.userName.GetOr(""), NamesIndex(Some(Num2Id(users)))) == Some(Num2Id(users).vals[k])
  {
    var k := NormName(u.userName.GetOr(""));
    RecordIsKey(users, u);
    LookupKey(Num2Id(users), k);
  }

  /** A record with a non-empty id and name puts its normalised name into the index. */
  lemma RecordIsKey(users: seq<UserRecord>, u: UserRecord)
    requires u in users && u.userId.GetOr("") != "" && u.userName.GetOr("") != ""
    ensures NormName(u.userName.GetOr("")) in Num2Id(users).vals
  {
    EntriesFromRecords(users, (NormName(u.userName.GetOr("")), u.userId.GetOr("")));
    BuildSpec(users);
  }

  /** A non-empty key of a well-formed index is found by exact match. */
  lemma LookupKey(d: Dict<string, string>, k: string)
    requires WellFormed(d) && k != "" && k in d.vals
    ensures Lookup(k, NamesIndex(Some(d))) == Some(d.vals[k])
  {
  }

  /** A key of the index resolves to its own id: keys are fixed points of `norm_name`. */
  lemma ResolveKey(users: seq<UserRecord>, k: string)
    requires k in Num2Id(users).vals && k != ""
    ensures Resolve(k, NamesIndex(Some(Num2Id(users)))) == Some(Num2Id(users).vals[k])
  {
    KeyIsNormalised(users, k);
  }

  /** Every key of the built index is the normalised name of a record, hence normalised itself. */
  lemma KeyIsNormalised(users: seq<UserRecord>, k: string)
    requires k in Num2Id(users).vals
    ensures NormName(k) == k
  {
    var es := Entries(users);
    DictOf(es);
    var i :| 0 <= i < |es| && Firsts(es)[i] == k;
    assert es[i] in es;
    EntriesFromRecords(users, es[i]);
    var u :| u in users && u.userId.GetOr("") != "" && u.userName.GetOr("") != "" && es[i] == (NormName(u.userName.GetOr("")), u.userId.GetOr(""));
    NormNameIdempotent(u.userName.GetOr(""));
  }
}
