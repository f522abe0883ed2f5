/** The name helpers of the member-question agent: `_strip_accents` on any value, `group_by_user`
    keyed by the raw `user_id`, `latest_user_name`, and the UUID passthrough and the scoring and
    selection loop of `resolve_user_id`. Its `_norm_name` is the same function as `norm_name` of the
    names index (`NameIndex.NormNameOrEmpty`). */
module MemberHelpers {
  import opened Wrappers
  import opened Seqs
  import opened Text
  import opened Words
  import opened Normalise
  import opened Sorting
  import opened Records
  import opened Grouping

  // ---------------------------------------------------------------- _strip_accents

  /** An argument of `_strip_accents`: a string, or any other value. */
  datatype Value = Str(s: string) | NonStr(other: string)

  /** `_strip_accents(s)`: strings lose their accents, anything else is returned unchanged. */
  function StripAccentsValue(v: Value): (r: Value)
    ensures v.NonStr? ==> r == v
    ensures v.Str? ==> r.Str? && forall i | 0 <= i < |r.s| :: IsAscii(r.s[i])
  {
    if v.Str? then Str(StripAccents(v.s)) else v
  }

  /** On a string that is already ASCII, `_strip_accents` changes nothing either. */
  lemma StripAccentsValueAscii(v: Value)
    requires v.Str? ==> forall i | 0 <= i < |v.s| :: IsAscii(v.s[i])
    ensures StripAccentsValue(v) == v
  {
    if v.Str? {
      StripAccentsOfAscii(v.s);
    }
  }

  // ---------------------------------------------------------------- group_by_user

  /** `m.get("user_id")`: None when the message has no id. */
  function RawUserId(m: Message): Option<string> {
    m.userId
  }

  /** `group_by_user(messages)` of the agent. */
  method GroupByUser(ms: seq<Message>) returns (g: Grouping<Option<string>>)
    ensures g == GroupSpec(ms, RawUserId)
  {
    g := GroupBy(ms, RawUserId);
  }

  /** The agent's grouping is a partition under the raw id: a message is in the group of key `k`
      iff its `user_id` is `k` (None for a missing id), the group sizes add up to the number of
      messages, and each group is sorted by timestamp string, keeping the input order of ties. */
  lemma GroupByUserSpec(ms: seq<Message>, m: Message, k: Option<string>, c: Message)
    ensures m in GroupOf(GroupSpec(ms, RawUserId), k) <==> m in ms && m.userId == k
    ensures CountInGroups(GroupSpec(ms, RawUserId), GroupSpec(ms, RawUserId).keys, AnyMessage) == |ms|
    ensures k in GroupSpec(ms, RawUserId).groups ==>
      && SortedBy(GroupOf(GroupSpec(ms, RawUserId), k), TimestampLe)
      && Filter(GroupOf(GroupSpec(ms, RawUserId), k), EqClass(TimestampLe, c))
         == Filter(Members(ms, RawUserId, k), EqClass(TimestampLe, c))
  {
    GroupMembership(ms, RawUserId, m, k);
    GroupSizes(ms, RawUserId);
    if k in GroupSpec(ms, RawUserId).groups {
      GroupOrdered(ms, RawUserId, k, c);
    }
  }

  // ---------------------------------------------------------------- latest_user_name

  /** The name of the last message whose `user_name` is non-empty, or `""`. */
  function LatestName(msgs: seq<Message>): string {
    if msgs == [] then ""
    else if NameOf(msgs[|msgs| - 1]) != "" then NameOf(msgs[|msgs| - 1])
    else LatestName(msgs[..|msgs| - 1])
  }

  /** `latest_user_name(msgs)`: scan from the end. */
  method LatestUserName(msgs: seq<Message>) returns (name: string)
    ensures name == LatestName(msgs)
  {
    var i := |msgs|;
    assert msgs[..i] == msgs;
    while i > 0
      invariant 0 <= i <= |msgs|
      invariant LatestName(msgs) == LatestName(msgs[..i])
    {
      assert msgs[..i][..i - 1] == msgs[..i - 1];
      if msgs[i - 1].userName.GetOr("") != "" {
        return msgs[i - 1].userName.GetOr("");
      }
      i := i - 1;
    }
    return "";
  }

  /** The result is `""` iff no message has a non-empty name; otherwise it is the name of some message
      after which every name is empty. */
  lemma {:induction false} LatestNameSpec(msgs: seq<Message>)
    ensures LatestName(msgs) == "" <==> forall i | 0 <= i < |msgs| :: NameOf(msgs[i]) == ""
    ensures LatestName(msgs) != "" ==>
      exists i | 0 <= i < |msgs| :: NameOf(msgs[i]) == LatestName(msgs) && forall j | i < j < |msgs| :: NameOf(msgs[j]) == ""
  {
    if msgs != [] && NameOf(msgs[|msgs| - 1]) == "" {
      var pre := msgs[..|msgs| - 1];
      LatestNameSpec(pre);
      assert forall i | 0 <= i < |pre| :: pre[i] == msgs[i];
    }
  }

  // ---------------------------------------------------------------- resolve_user_id

  /** `re.search(rf"\b{re.escape(w)}\b", s)` for a word `w` of `[a-z0-9]` characters and a normalised
      `s`: an occurrence of `w` neither preceded nor followed by a word character. */
  predicate WholeWordIn(s: string, w: string) {
    exists p | 0 <= p <= |s| :: WordAt(s, w, p)
  }

  /** `w` occurs in `s` at position `p` between word boundaries. */
  predicate WordAt(s: string, w: string, p: int) {
    && 0 <= p <= |s| - |w|
    && s[p..p + |w|] == w
    && (p == 0 || !IsWordChar(s[p - 1]))
    && (p + |w| == |s| || !IsWordChar(s[p + |w|]))
  }

  /** `query.split(" ")[0] if query else ""`. */
  function FirstWord(query: string): string {
    if query != "" then FirstToken(query) else ""
  }

  /** The score of a normalised name: 2 when it contains the query, plus 1 when the query's first
      word occurs in it as a whole word. */
  function Score(query: string, uname: string): (score: nat)
    ensures score <= 3
  {
    (if query != "" && Contains(uname, query) then 2 else 0)
    + (if FirstWord(query) != "" && WholeWordIn(uname, FirstWord(query)) then 1 else 0)
  }

  /** A message takes part when it has a non-empty `user_id` and its name normalises to something. */
  predicate Eligible(m: Message) {
    m.userId.GetOr("") != "" && NormName(NameOf(m)) != ""
  }

  /** The score of a message under a query; 0 for messages that do not take part. */
  function MessageScore(query: string, m: Message): nat {
    if Eligible(m) then Score(query, NormName(NameOf(m))) else 0
  }

  /** A candidate answer: the message's id and its raw `user_name`. */
  datatype Match = Match(userId: string, userName: string)

  /** The state of the selection loop after `ms`: the best match so far and its score. */
  datatype Selection = Selection(best: Option<Match>, bestScore: nat)

  function MatchOf(m: Message): Match {
    Match(m.userId.GetOr(""), NameOf(m))
  }

  /** The scoring of `resolve_user_id` under a normalised query. */
  function ScoreFor(query: string): Message -> nat {
    m => MessageScore(query, m)
  }

  /** `if score > best_score: best_score = score; best = (uid, uname_raw)`, over `ms` in order. */
  function Select(score: Message -> nat, ms: seq<Message>): Selection {
    if ms == [] then Selection(None, 0)
    else
      var prev := Select(score, ms[..|ms| - 1]);
      var m := ms[|ms| - 1];
      if score(m) > prev.bestScore then Selection(Some(MatchOf(m)), score(m)) else prev
  }

  /** One step of the selection loop: the selection over the first `i + 1` messages. */
  lemma SelectStep(score: Message -> nat, ms: seq<Message>, i: nat)
    requires i < |ms|
    ensures Select(score, ms[..i + 1]) ==
      if score(ms[i]) > Select(score, ms[..i]).bestScore then Selection(Some(MatchOf(ms[i])), score(ms[i]))
      else Select(score, ms[..i])
  {
    assert ms[..i + 1][..i] == ms[..i];
  }

  /** `resolve_user_id(base_url, name_or_id)` with the fetched messages as a parameter: an id-like
      argument is returned as it is with an empty name, without looking at the messages. */
  function ResolveUser(nameOrId: string, ms: seq<Message>): Option<Match> {
    if UuidLike(nameOrId) then Some(Match(nameOrId, "")) else Select(ScoreFor(NormName(nameOrId)), ms).best
  }

  /** The scoring step of the loop for one message. */
  method ScoreMessage(query: string, m: Message) returns (score: nat)
    ensures score == ScoreFor(query)(m)
  {
    score := 0;
    var uname := NormName(m.userName.GetOr(""));
    if m.userId.GetOr("") == "" || uname == "" {
      return;
    }
    score := ScoreName(query, uname);
  }

  /** The score of an eligible message's normalised name. */
  method ScoreName(query: string, uname: string) returns (score: nat)
    ensures score == Score(query, uname)
  {
    score := 0;
    if query != "" && Contains(uname, query) {
      score := score + 2;
    }
    var qFirst := if query != "" then FirstToken(query) else "";
    if qFirst != "" && WholeWordIn(uname, qFirst) {
      score := score + 1;
    }
  }

  /** The selection loop of `resolve_user_id` under a normalised query. */
  method SelectBest(query: string, messages: seq<Message>) returns (best: Option<Match>, bestScore: nat)
    ensures Selection(best, bestScore) == Select(ScoreFor(query), messages)
  {
    best := None;
    bestScore := 0;
    var i := 0;
    while i < |messages|
      invariant i <= |messages|
      invariant Selection(best, bestScore) == Select(ScoreFor(query), messages[..i])
    {
      var m := messages[i];
      var score := ScoreMessage(query, m);
      SelectStep(ScoreFor(query), messages, i);
      if score > bestScore {
        bestScore := score;
        best := Some(Match(m.userId.GetOr(""), m.userName.GetOr("")));
      }
      i := i + 1;
    }
    assert messages[..i] == messages;
  }

  method ResolveUserId(nameOrId: string, messages: seq<Message>) returns (r: Option<Match>)
    ensures r == ResolveUser(nameOrId, messages)
  {
    if UuidLike(nameOrId) {
      return Some(Match(nameOrId, ""));
    }
    var query := NormName(nameOrId);
    var bestScore;
    r, bestScore := SelectBest(query, messages);
  }

  // ---------------------------------------------------------------- properties

  /** The selection's score bounds the score of every message, and a match is chosen iff that score
      is positive. */
  lemma {:induction false} SelectBound(score: Message -> nat, ms: seq<Message>)
    ensures forall j | 0 <= j < |ms| :: score(ms[j]) <= Select(score, ms).bestScore
    ensures Select(score, ms).best.None? <==> Select(score, ms).bestScore == 0
  {
    if ms != [] {
      var pre := ms[..|ms| - 1];
      SelectBound(score, pre);
      assert forall j | 0 <= j < |pre| :: pre[j] == ms[j];
    }
  }

  /** No match is chosen iff every message scores 0. */
  lemma SelectNone(score: Message -> nat, ms: seq<Message>)
    ensures Select(score, ms).best.None? <==> forall j | 0 <= j < |ms| :: score(ms[j]) == 0
  {
    SelectBound(score, ms);
    if Select(score, ms).best.Some? {
      SelectFirst(score, ms);
    }
  }

  /** Message `i` is the one the selection chose: it has the best score and every earlier message
      scores less. */
  predicate ChosenAt(score: Message -> nat, ms: seq<Message>, i: int) {
    && 0 <= i < |ms|
    && Select(score, ms).best == Some(MatchOf(ms[i]))
    && score(ms[i]) == Select(score, ms).bestScore
    && forall j | 0 <= j < i :: score(ms[j]) < Select(score, ms).bestScore
  }

  /** A chosen match is that of the first message reaching the best score (a tie keeps the earlier
      message). */
  lemma {:induction false} SelectFirst(score: Message -> nat, ms: seq<Message>)
    requires Select(score, ms).best.Some?
    ensures exists i :: ChosenAt(score, ms, i)
  {
    var pre := ms[..|ms| - 1];
    var m := ms[|ms| - 1];
    var prev := Select(score, pre);
    if score(m) > prev.bestScore {
      SelectBound(score, pre);
      assert forall j | 0 <= j < |pre| :: pre[j] == ms[j];
      assert ChosenAt(score, ms, |ms| - 1);
    } else {
      SelectFirst(score, pre);
      var i :| ChosenAt(score, pre, i);
      assert forall j | 0 <= j < |pre| :: pre[j] == ms[j];
      assert ChosenAt(score, ms, i);
    }
  }

  /** When `resolve_user_id` finds a match by name, its score is between 1 and 3 and it comes from
      a message with a non-empty id whose name normalises to something; no match is found iff every
      message scores 0. */
  lemma ResolvedByName(nameOrId: string, ms: seq<Message>)
    requires !UuidLike(nameOrId)
    ensures ResolveUser(nameOrId, ms).None? <==>
      forall j | 0 <= j < |ms| :: MessageScore(NormName(nameOrId), ms[j]) == 0
    ensures ResolveUser(nameOrId, ms).Some? ==>
      && 1 <= Select(ScoreFor(NormName(nameOrId)), ms).bestScore <= 3
      && exists m | m in ms :: Eligible(m) && ResolveUser(nameOrId, ms) == Some(MatchOf(m))
  {
    var score := ScoreFor(NormName(nameOrId));
    SelectNone(score, ms);
    SelectBound(score, ms);
    if Select(score, ms).best.Some? {
      SelectFirst(score, ms);
      var i :| ChosenAt(score, ms, i);
      assert ms[i] in ms;
    }
  }

  /** An id-like argument is returned unchanged with an empty name, whatever the messages. */
  lemma UuidPassthrough(nameOrId: string, ms: seq<Message>)
    requires UuidLike(nameOrId)
    ensures ResolveUser(nameOrId, ms) == Some(Match(nameOrId, ""))
  {
  }

  /** A name equal, once normalised, to the query scores 3 when the query is non-empty: the query
      contains itself and its first word is a whole word of it. */
  lemma ExactNameScoresThree(query: string)
    requires query != "" && Canonical(query)
    ensures Score(query, query) == 3
  {
    assert Contains(query, query) by {
      assert query <= query;
    }
    var w := FirstToken(query);
    assert query[0] != ' ';
    assert |w| > 0;
    assert query[0..|w|] == w;
    assert WordAt(query, w, 0);
  }
}
