/** The duplicate detectors of the audit: texts a user repeats, texts several users share, and
    message ids that occur more than once. Texts are compared after `norm_text` (lower-case,
    whitespace collapsed), not after the accent-stripping normaliser. */
module DuplicateChecks {
  import opened Seqs
  import opened Dicts
  import opened Entries
  import opened Records
  import opened Grouping
  import opened Normalise

  /** `norm_text(m.get("message", ""))` for every message of `arr`, in order. */
  function TextKeys(arr: seq<Message>): (ks: seq<string>)
    ensures |ks| == |arr|
    ensures forall i | 0 <= i < |arr| :: ks[i] == NormText(TextOf(arr[i]))
  {
    seq(|arr|, i requires 0 <= i < |arr| => NormText(TextOf(arr[i])))
  }

  lemma TextKeysSnoc(arr: seq<Message>, j: nat)
    requires j < |arr|
    ensures TextKeys(arr[..j + 1]) == TextKeys(arr[..j]) + [NormText(TextOf(arr[j]))]
  {
  }

  // ---------------------------------------------------------------- per user

  /** The inner loop: `counts[key] = counts.get(key, 0) + 1` over one group. */
  method CountTexts(arr: seq<Message>) returns (counts: CountDict<string>)
    ensures counts == BumpAll(EmptyCountDict(), TextKeys(arr))
  {
    counts := EmptyCountDict();
    var j := 0;
    while j < |arr|
      invariant j <= |arr|
      invariant counts == BumpAll(EmptyCountDict(), TextKeys(arr[..j]))
    {
      var key := NormText(TextOf(arr[j]));
      TextKeysSnoc(arr, j);
      BumpAllSnoc(EmptyCountDict(), TextKeys(arr[..j]), key);
      counts := Bump(counts, key);
      j := j + 1;
    }
    assert arr[..j] == arr;
  }

  datatype UserDuplicates = UserDuplicates(userId: string, examples: seq<Entry>)

  const ExamplesPerUser: nat := 5

  /** `dups = [... for t, c in counts.items() if c > 1]`. */
  function Dups(counts: CountDict<string>): seq<Entry> {
    Filter(TalliesOf(counts), Repeated)
  }

  /** What one user contributes to `per_user_duplicates`. */
  function UserEntry(uid: string, arr: seq<Message>): seq<UserDuplicates> {
    var dups := Dups(BumpAll(EmptyCountDict(), TextKeys(arr)));
    if dups != [] then [UserDuplicates(uid, Take(RankDesc(dups), ExamplesPerUser))] else []
  }

  function PerUser(g: Grouping<string>): string -> seq<UserDuplicates> {
    uid => UserEntry(uid, GroupOf(g, uid))
  }

  /** The loop over the groups that builds `per_user_duplicates`. */
  method PerUserDuplicates(g: Grouping<string>) returns (r: seq<UserDuplicates>)
    ensures r == FlatMap(g.keys, PerUser(g))
  {
    r := [];
    var i := 0;
    while i < |g.keys|
      invariant i <= |g.keys|
      invariant r == FlatMap(g.keys[..i], PerUser(g))
    {
      var uid := g.keys[i];
      var counts := CountTexts(GroupOf(g, uid));
      var dups := Dups(counts);
      FlatMapStep(g.keys, i, PerUser(g));
      if dups != [] {
        r := r + [UserDuplicates(uid, Take(RankDesc(dups), ExamplesPerUser))];
      }
      i := i + 1;
    }
    assert g.keys[..i] == g.keys;
  }

  /** The counts of one group: every key is a normalised text of the group, counted as often as it
      occurs. */
  lemma CountsOfGroup(arr: seq<Message>, e: Entry)
    requires e in TalliesOf(BumpAll(EmptyCountDict(), TextKeys(arr)))
    ensures e.key in TextKeys(arr)
    ensures e.count == multiset(TextKeys(arr))[e.key]
  {
    TallyOf(TextKeys(arr));
  }

  /** A text the group carries more than once is among the repeated texts, with its count. */
  lemma RepeatedTextListed(arr: seq<Message>, t: string)
    requires multiset(TextKeys(arr))[t] > 1
    ensures Entry(t, multiset(TextKeys(arr))[t]) in Dups(BumpAll(EmptyCountDict(), TextKeys(arr)))
  {
    var counts := BumpAll(EmptyCountDict(), TextKeys(arr));
    TallyOf(TextKeys(arr));
    assert t in counts.keys;
    var i :| 0 <= i < |counts.keys| && counts.keys[i] == t;
    var y := TalliesOf(counts)[i];
    assert y == Entry(t, multiset(TextKeys(arr))[t]);
    FilterComplete(TalliesOf(counts), Repeated, y);
  }

  /** What one user adds is at most one entry, with one to five repeated texts, most repeated
      first, each counted as often as the user's messages carry it. A repeated text is left out only
      when all five places are taken, by texts repeated at least as often. */
  lemma UserEntrySpec(uid: string, arr: seq<Message>, u: UserDuplicates)
    requires u in UserEntry(uid, arr)
    ensures u.userId == uid
    ensures 0 < |u.examples| <= ExamplesPerUser
    ensures forall e | e in u.examples :: e.count > 1 && e.count == multiset(TextKeys(arr))[e.key]
    ensures forall i, j | 0 <= i < j < |u.examples| :: u.examples[i].count >= u.examples[j].count
    ensures forall t | multiset(TextKeys(arr))[t] > 1 && (forall e | e in u.examples :: e.key != t) ::
      |u.examples| == ExamplesPerUser && forall e | e in u.examples :: e.count >= multiset(TextKeys(arr))[t]
  {
    var dups := Dups(BumpAll(EmptyCountDict(), TextKeys(arr)));
    assert u == UserDuplicates(uid, Take(RankDesc(dups), ExamplesPerUser));
    TopRanked(dups, ExamplesPerUser);
    FilterSound(TalliesOf(BumpAll(EmptyCountDict(), TextKeys(arr))), Repeated);
    forall e | e in u.examples ensures e.count > 1 && e.count == multiset(TextKeys(arr))[e.key] {
      CountsOfGroup(arr, e);
    }
    UserEntryFull(uid, arr, u);
  }

  /** A repeated text missing from a user's examples: all five places are taken, by texts repeated
      at least as often. */
  lemma UserEntryFull(uid: string, arr: seq<Message>, u: UserDuplicates)
    requires u in UserEntry(uid, arr)
    ensures forall t | multiset(TextKeys(arr))[t] > 1 && (forall e | e in u.examples :: e.key != t) ::
      |u.examples| == ExamplesPerUser && forall e | e in u.examples :: e.count >= multiset(TextKeys(arr))[t]
  {
    var dups := Dups(BumpAll(EmptyCountDict(), TextKeys(arr)));
    assert u.examples == Take(RankDesc(dups), ExamplesPerUser);
    TopRanked(dups, ExamplesPerUser);
    forall t | multiset(TextKeys(arr))[t] > 1 && (forall e | e in u.examples :: e.key != t)
      ensures |u.examples| == ExamplesPerUser && forall e | e in u.examples :: e.count >= multiset(TextKeys(arr))[t]
    {
      RepeatedTextListed(arr, t);
      assert Entry(t, multiset(TextKeys(arr))[t]) !in u.examples;
    }
  }

  /** A user adds an entry exactly when one of their texts occurs more than once, and never more
      than one. */
  lemma UserEntryComplete(uid: string, arr: seq<Message>)
    ensures |UserEntry(uid, arr)| <= 1
    ensures UserEntry(uid, arr) != [] <==> exists t :: multiset(TextKeys(arr))[t] > 1
  {
    var dups := Dups(BumpAll(EmptyCountDict(), TextKeys(arr)));
    if t :| multiset(TextKeys(arr))[t] > 1 {
      RepeatedTextListed(arr, t);
    }
    if dups != [] {
      FilterSound(TalliesOf(BumpAll(EmptyCountDict(), TextKeys(arr))), Repeated);
      assert dups[0] in dups;
      CountsOfGroup(arr, dups[0]);
    }
  }

  /** A user is listed only with at least one repeated text; at most five examples, each repeated,
      most repeated first; each count is the number of that user's messages with that text. */
  lemma PerUserSpec(g: Grouping<string>, u: UserDuplicates)
    requires u in FlatMap(g.keys, PerUser(g))
    ensures u.userId in g.keys
    ensures 0 < |u.examples| <= ExamplesPerUser
    ensures forall e | e in u.examples :: e.count > 1 && e.count == multiset(TextKeys(GroupOf(g, u.userId)))[e.key]
    ensures forall i, j | 0 <= i < j < |u.examples| :: u.examples[i].count >= u.examples[j].count
  {
    FlatMapMember(g.keys, PerUser(g), u);
    var uid :| uid in g.keys && u in PerUser(g)(uid);
    UserEntrySpec(uid, GroupOf(g, uid), u);
  }

  /** Every user one of whose texts occurs more than once is listed; with the distinct keys of the
      grouping, at most once. */
  lemma PerUserComplete(g: Grouping<string>, uid: string, t: string)
    requires uid in g.keys && multiset(TextKeys(GroupOf(g, uid)))[t] > 1
    ensures exists u | u in FlatMap(g.keys, PerUser(g)) :: u.userId == uid
  {
    UserEntryComplete(uid, GroupOf(g, uid));
    var u := PerUser(g)(uid)[0];
    assert u.userId == uid;
    FlatMapMember(g.keys, PerUser(g), u);
  }

  /** No user is listed twice. */
  lemma PerUserDistinct(g: Grouping<string>)
    requires Distinct(g.keys)
    ensures var r := FlatMap(g.keys, PerUser(g));
      forall i, j | 0 <= i < j < |r| :: r[i].userId != r[j].userId
  {
    forall x | x in g.keys
      ensures |PerUser(g)(x)| <= 1 && forall y | y in PerUser(g)(x) :: y.userId == x
    {
      UserEntryComplete(x, GroupOf(g, x));
    }
    FlatMapTagsDistinct(g.keys, PerUser(g), (u: UserDuplicates) => u.userId);
  }

  // ---------------------------------------------------------------- across users

  function TextUid(m: Message): seq<(string, string)> {
    [(NormText(TextOf(m)), UidOf(m))]
  }

  /** The loop that fills `text_to_uids`. */
  method TextToUids(ms: seq<Message>) returns (d: SetDict<string, string>)
    ensures d == AddAll(EmptySetDict(), FlatMap(ms, TextUid))
  {
    d := EmptySetDict();
    var i := 0;
    while i < |ms|
      invariant i <= |ms|
      invariant d == AddAll(EmptySetDict(), FlatMap(ms[..i], TextUid))
    {
      var m := ms[i];
      ScanStepAt(ms, i, TextUid);
      d := Add(d, NormText(TextOf(m)), UidOf(m));
      i := i + 1;
    }
    assert ms[..i] == ms;
  }

  predicate SharedText(e: Entry) {
    e.count > 1 && |e.key| > 0
  }

  const CrossUserCap: nat := 20

  /** `cross_user_duplicate_texts` after its sort and cut. */
  function CrossUserTexts(d: SetDict<string, string>): seq<Entry> {
    Take(RankDesc(Filter(SizesOf(d), SharedText)), CrossUserCap)
  }

  /** The distinct users with a message whose normalised text is `t`. */
  function UsersWithText(ms: seq<Message>, t: string): set<string> {
    set m | m in ms && NormText(TextOf(m)) == t :: UidOf(m)
  }

  /** Every listed text is non-empty and sent by `user_count > 1` distinct users; at most twenty are
      listed, most users first; a non-empty text with several users is left out only when all twenty
      places are taken, by texts with no fewer users. */
  lemma CrossUserSpec(ms: seq<Message>)
    ensures var cs := CrossUserTexts(AddAll(EmptySetDict(), FlatMap(ms, TextUid)));
      && |cs| <= CrossUserCap
      && (forall e | e in cs :: |e.key| > 0 && e.count > 1 && e.count == |UsersWithText(ms, e.key)|)
      && (forall i, j | 0 <= i < j < |cs| :: cs[i].count >= cs[j].count)
      && (forall t, e | e in cs && |t| > 0 && |UsersWithText(ms, t)| > 1 && (forall x | x in cs :: x.key != t) ::
            e.count >= |UsersWithText(ms, t)|)
      && (forall t | |t| > 0 && |UsersWithText(ms, t)| > 1 && (forall x | x in cs :: x.key != t) ::
            |cs| == CrossUserCap)
  {
    CrossUserSound(ms);
    CrossUserComplete(ms);
  }

  /** The listed texts: at most twenty, most users first, each non-empty with its true user count. */
  lemma CrossUserSound(ms: seq<Message>)
    ensures var cs := CrossUserTexts(AddAll(EmptySetDict(), FlatMap(ms, TextUid)));
      && |cs| <= CrossUserCap
      && (forall e | e in cs :: |e.key| > 0 && e.count > 1 && e.count == |UsersWithText(ms, e.key)|)
      && (forall i, j | 0 <= i < j < |cs| :: cs[i].count >= cs[j].count)
  {
    var d := AddAll(EmptySetDict(), FlatMap(ms, TextUid));
    var es := Filter(SizesOf(d), SharedText);
    var cs := CrossUserTexts(d);
    TopRanked(es, CrossUserCap);
    FilterSound(SizesOf(d), SharedText);
    forall e | e in cs ensures e.count == |UsersWithText(ms, e.key)| {
      TextTable(ms, e.key);
    }
  }

  /** A qualifying text left out: the list is full, and with texts of no fewer users. */
  lemma CrossUserComplete(ms: seq<Message>)
    ensures var cs := CrossUserTexts(AddAll(EmptySetDict(), FlatMap(ms, TextUid)));
      forall t | |t| > 0 && |UsersWithText(ms, t)| > 1 && (forall x | x in cs :: x.key != t) ::
        |cs| == CrossUserCap && forall e | e in cs :: e.count >= |UsersWithText(ms, t)|
  {
    var d := AddAll(EmptySetDict(), FlatMap(ms, TextUid));
    var es := Filter(SizesOf(d), SharedText);
    var cs := CrossUserTexts(d);
    TopRanked(es, CrossUserCap);
    forall t | |t| > 0 && |UsersWithText(ms, t)| > 1 && (forall x | x in cs :: x.key != t)
      ensures |cs| == CrossUserCap && forall e | e in cs :: e.count >= |UsersWithText(ms, t)|
    {
      SharedTextCandidate(ms, t);
      assert Entry(t, |UsersWithText(ms, t)|) !in cs;
    }
  }

  /** A non-empty text sent by several users is a candidate for the cross-user list. */
  lemma SharedTextCandidate(ms: seq<Message>, t: string)
    requires |t| > 0 && |UsersWithText(ms, t)| > 1
    ensures var d := AddAll(EmptySetDict(), FlatMap(ms, TextUid));
      Entry(t, |UsersWithText(ms, t)|) in Filter(SizesOf(d), SharedText)
  {
    var d := AddAll(EmptySetDict(), FlatMap(ms, TextUid));
    TextTable(ms, t);
    var i :| 0 <= i < |d.keys| && d.keys[i] == t;
    FilterComplete(SizesOf(d), SharedText, SizesOf(d)[i]);
  }

  lemma TextTable(ms: seq<Message>, t: string)
    ensures var d := AddAll(EmptySetDict(), FlatMap(ms, TextUid));
      && (t in d.keys <==> UsersWithText(ms, t) != {})
      && |SetOf(d, t)| == |UsersWithText(ms, t)|
  {
    forall v ensures v in UsersWithText(ms, t) <==> exists m | m in ms :: (t, v) in TextUid(m) {
      if v in UsersWithText(ms, t) {
        var m :| m in ms && NormText(TextOf(m)) == t && UidOf(m) == v;
        assert (t, v) in TextUid(m);
      }
    }
    SetDictOfScan(ms, TextUid, t, UsersWithText(ms, t));
  }

  // ---------------------------------------------------------------- message ids

  /** `str(m.get("id"))` for every message. */
  function IdKeys(ms: seq<Message>): (ks: seq<string>)
    ensures |ks| == |ms|
    ensures forall i | 0 <= i < |ms| :: ks[i] == IdString(ms[i])
  {
    seq(|ms|, i requires 0 <= i < |ms| => IdString(ms[i]))
  }

  /** The loop that fills `id_counts`. */
  method IdCounts(ms: seq<Message>) returns (counts: CountDict<string>)
    ensures counts == BumpAll(EmptyCountDict(), IdKeys(ms))
  {
    counts := EmptyCountDict();
    var i := 0;
    while i < |ms|
      invariant i <= |ms|
      invariant counts == BumpAll(EmptyCountDict(), IdKeys(ms[..i]))
    {
      var mid := IdString(ms[i]);
      assert IdKeys(ms[..i + 1]) == IdKeys(ms[..i]) + [mid];
      BumpAllSnoc(EmptyCountDict(), IdKeys(ms[..i]), mid);
      counts := Bump(counts, mid);
      i := i + 1;
    }
    assert ms[..i] == ms;
  }

  /** `dup_ids = [mid for mid, c in id_counts.items() if c > 1]`. */
  function DupIds(counts: CountDict<string>): seq<string> {
    Filter(counts.keys, k => CountOf(counts, k) > 1)
  }

  /** `dup_ids` lists each id occurring more than once, exactly once. */
  lemma DupIdsSpec(ms: seq<Message>)
    ensures var ds := DupIds(BumpAll(EmptyCountDict(), IdKeys(ms)));
      && Distinct(ds)
      && forall x :: x in ds <==> multiset(IdKeys(ms))[x] > 1
  {
    var counts := BumpAll(EmptyCountDict(), IdKeys(ms));
    var p := k => CountOf(counts, k) > 1;
    TallyOf(IdKeys(ms));
    FilterSound(counts.keys, p);
    FilterDistinct(counts.keys, p);
    forall x | multiset(IdKeys(ms))[x] > 1 ensures x in DupIds(counts) {
      FilterComplete(counts.keys, p, x);
    }
  }
}
