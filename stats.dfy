/** Message statistics of the audit: the length figures of the totals section and the most common
    words, counted over `_norm` of every message with the stop words left out. */
module MessageStats {
  import opened Seqs
  import opened Text
  import opened Words
  import opened Normalise
  import opened Dicts
  import opened Entries
  import opened Records
  import opened RealArith

  /** `lengths = [len(m.get("message", "")) for m in messages]`. */
  function Lengths(ms: seq<Message>): (ls: seq<nat>)
    ensures |ls| == |ms|
    ensures forall i | 0 <= i < |ms| :: ls[i] == |TextOf(ms[i])|
  {
    seq(|ms|, i requires 0 <= i < |ms| => |TextOf(ms[i])|)
  }

  /** `sum(ls)`. */
  function Sum(ls: seq<nat>): nat {
    if ls == [] then 0 else Sum(ls[..|ls| - 1]) + ls[|ls| - 1]
  }

  /** `min(ls) if ls else 0`. */
  function MinLen(ls: seq<nat>): (r: nat)
    ensures ls == [] ==> r == 0
    ensures ls != [] ==> r in ls && forall x | x in ls :: r <= x
  {
    if ls == [] then 0
    else if |ls| == 1 then ls[0]
    else
      var m := MinLen(ls[..|ls| - 1]);
      assert ls == ls[..|ls| - 1] + [ls[|ls| - 1]];
      if ls[|ls| - 1] < m then ls[|ls| - 1] else m
  }

  /** `max(ls) if ls else 0`. */
  function MaxLen(ls: seq<nat>): (r: nat)
    ensures ls == [] ==> r == 0
    ensures ls != [] ==> r in ls && forall x | x in ls :: x <= r
  {
    if ls == [] then 0
    else if |ls| == 1 then ls[0]
    else
      var m := MaxLen(ls[..|ls| - 1]);
      assert ls == ls[..|ls| - 1] + [ls[|ls| - 1]];
      if ls[|ls| - 1] > m then ls[|ls| - 1] else m
  }

  /** `total / max(1, n)`. */
  function Avg(total: nat, n: nat): real {
    total as real / (if n > 0 then n else 1) as real
  }

  /** `sum(lengths) / max(1, len(lengths))`, before rounding. */
  function AvgLen(ls: seq<nat>): real {
    Avg(Sum(ls), |ls|)
  }

  /** A sum of `n` values each between `lo` and `hi` lies between `n * lo` and `n * hi`. */
  lemma {:induction false} SumBounds(ls: seq<nat>, lo: nat, hi: nat)
    requires forall i | 0 <= i < |ls| :: lo <= ls[i] <= hi
    ensures |ls| * lo <= Sum(ls) <= |ls| * hi
  {
    if ls != [] {
      var ls' := ls[..|ls| - 1];
      SumBounds(ls', lo, hi);
      assert (|ls'| + 1) * lo == |ls'| * lo + lo;
      assert (|ls'| + 1) * hi == |ls'| * hi + hi;
    }
  }

  /** Every length lies between the shortest and the longest. */
  lemma WithinMinMax(ls: seq<nat>)
    ensures forall i | 0 <= i < |ls| :: MinLen(ls) <= ls[i] <= MaxLen(ls)
  {
    forall i | 0 <= i < |ls| ensures MinLen(ls) <= ls[i] <= MaxLen(ls) {
      assert ls[i] in ls;
    }
  }

  /** A total between `n * lo` and `n * hi` averages between `lo` and `hi`. */
  lemma AvgWithin(total: nat, n: nat, lo: nat, hi: nat)
    requires n > 0 && n * lo <= total <= n * hi
    ensures lo as real <= Avg(total, n) <= hi as real
  {
    assert (n * lo) as real == n as real * lo as real;
    assert (n * hi) as real == n as real * hi as real;
    DivCompare(total as real, n as real, lo as real);
    DivCompare(total as real, n as real, hi as real);
  }

  /** The average of a non-empty list lies between its minimum and its maximum. */
  lemma AvgBounds(ls: seq<nat>)
    requires ls != []
    ensures MinLen(ls) as real <= AvgLen(ls) <= MaxLen(ls) as real
  {
    WithinMinMax(ls);
    SumBounds(ls, MinLen(ls), MaxLen(ls));
    AvgWithin(Sum(ls), |ls|, MinLen(ls), MaxLen(ls));
  }

  /** The average length lies between the shortest and the longest message, and is 0 when there
      are no messages. */
  lemma AvgBetween(ms: seq<Message>)
    ensures ms == [] ==> AvgLen(Lengths(ms)) == 0.0
    ensures ms != [] ==> MinLen(Lengths(ms)) as real <= AvgLen(Lengths(ms)) <= MaxLen(Lengths(ms)) as real
  {
    if ms != [] {
      AvgBounds(Lengths(ms));
    }
  }

  // ---------------------------------------------------------------- top words

  /** The stop words of the audit, left out of the word counts. */
  predicate IsStopWord(w: string) {
    w in {
      "a", "an", "the", "is", "are", "was", "were", "am", "i", "you", "he", "she", "it", "we", "they",
      "of", "to", "in", "on", "for", "with", "and", "or", "as", "at", "by", "from", "that", "this",
      "these", "those", "what", "when", "how", "many", "does", "do", "did", "have", "has", "had", "my",
      "me", "your", "our", "their"}
  }

  /** `_norm(text).split()`. */
  function WordsOf(t: string): seq<string> {
    Runs(Norm(t), NotSpace)
  }

  predicate Counted(w: string) {
    w != "" && !IsStopWord(w)
  }

  /** The words of one message that reach `word_counts`. */
  function KeptWords(m: Message): seq<string> {
    Filter(WordsOf(TextOf(m)), Counted)
  }

  /** Every word counted, message by message. */
  function AllWords(ms: seq<Message>): seq<string> {
    FlatMap(ms, KeptWords)
  }

  /** The words `_norm(...).split()` yields are exactly the `[a-z0-9]` tokens of the text. */
  lemma WordsAreTokens(t: string)
    ensures WordsOf(t) == Tokens(t)
  {
    NormIsJoinTokens(t);
    RunsJoin(Tokens(t), NotSpace);
  }

  /** The inner loop over the words of one message: every word that is not a stop word adds one
      to its count. */
  method CountWords(counts0: CountDict<string>, ws: seq<string>) returns (counts: CountDict<string>)
    ensures counts == BumpAll(counts0, Filter(ws, Counted))
  {
    counts := counts0;
    var j := 0;
    assert ws[..0] == [];
    while j < |ws|
      invariant j <= |ws|
      invariant counts == BumpAll(counts0, Filter(ws[..j], Counted))
    {
      var w := ws[j];
      BumpFilterStep(counts0, ws, j, Counted);
      if Counted(w) {
        counts := Bump(counts, w);
      }
      j := j + 1;
    }
    assert ws[..j] == ws;
  }

  /** The words of one message added to the counts. */
  method CountMessage(counts0: CountDict<string>, m: Message) returns (counts: CountDict<string>)
    ensures counts == BumpAll(counts0, KeptWords(m))
  {
    counts := CountWords(counts0, WordsOf(TextOf(m)));
  }

  /** The nested loop `for m in messages: for w in _norm(...).split(): if w and w not in stop:
      word_counts[w] += 1`. */
  method WordCounts(ms: seq<Message>) returns (counts: CountDict<string>)
    ensures counts == BumpAll(EmptyCountDict(), AllWords(ms))
  {
    counts := EmptyCountDict();
    var i := 0;
    while i < |ms|
      invariant i <= |ms|
      invariant counts == BumpAll(EmptyCountDict(), AllWords(ms[..i]))
    {
      counts := CountMessage(counts, ms[i]);
      BumpAllAppend(EmptyCountDict(), AllWords(ms[..i]), KeptWords(ms[i]));
      FlatMapStep(ms, i, KeptWords);
      i := i + 1;
    }
    assert ms[..i] == ms;
  }

  const TopWordsCap: nat := 25

  /** `word_counts.most_common(25)`. */
  function TopWords(counts: CountDict<string>): seq<Entry> {
    Take(RankDesc(TalliesOf(counts)), TopWordsCap)
  }

  /** A counted word is a token of some message and not a stop word. */
  lemma CountedWordOrigin(ms: seq<Message>, w: string)
    requires w in AllWords(ms)
    ensures Counted(w)
    ensures exists m | m in ms :: w in Tokens(TextOf(m))
  {
    FlatMapMember(ms, KeptWords, w);
    var m :| m in ms && w in KeptWords(m);
    FilterSound(WordsOf(TextOf(m)), Counted);
    WordsAreTokens(TextOf(m));
  }

  /** Each row of `word_counts.items()` is a counted word with its number of occurrences. */
  lemma TallyEntry(ms: seq<Message>, e: Entry)
    requires e in TalliesOf(BumpAll(EmptyCountDict(), AllWords(ms)))
    ensures e.count == multiset(AllWords(ms))[e.key] && e.count > 0
    ensures Counted(e.key) && exists m | m in ms :: e.key in Tokens(TextOf(m))
  {
    var counts := BumpAll(EmptyCountDict(), AllWords(ms));
    var es := TalliesOf(counts);
    TallyOf(AllWords(ms));
    var i :| 0 <= i < |es| && es[i] == e;
    assert e.key in counts.keys;
    CountedWordOrigin(ms, e.key);
  }

  /** Every counted word has a row in `word_counts.items()`. */
  lemma TallyComplete(ms: seq<Message>, w: string)
    requires w in AllWords(ms)
    ensures Entry(w, multiset(AllWords(ms))[w]) in TalliesOf(BumpAll(EmptyCountDict(), AllWords(ms)))
  {
    var counts := BumpAll(EmptyCountDict(), AllWords(ms));
    TallyOf(AllWords(ms));
    var i :| 0 <= i < |counts.keys| && counts.keys[i] == w;
    assert TalliesOf(counts)[i] == Entry(w, multiset(AllWords(ms))[w]);
  }

  /** At most 25 words are listed, most frequent first; each is a non-stop-word token of some
      message, listed with the number of times it occurs; a counted word is left out only when all
      25 places are taken, and then occurs no more often than any listed one. */
  lemma TopWordsSpec(ms: seq<Message>)
    ensures var tw := TopWords(BumpAll(EmptyCountDict(), AllWords(ms)));
      && |tw| <= TopWordsCap
      && (forall i, j | 0 <= i < j < |tw| :: tw[i].count >= tw[j].count)
      && (forall e | e in tw :: e.count == multiset(AllWords(ms))[e.key] && e.count > 0)
      && (forall e | e in tw :: Counted(e.key) && exists m | m in ms :: e.key in Tokens(TextOf(m)))
      && (forall w, e | e in tw && (forall x | x in tw :: x.key != w) :: e.count >= multiset(AllWords(ms))[w])
      && (forall w | multiset(AllWords(ms))[w] > 0 && (forall x | x in tw :: x.key != w) :: |tw| == TopWordsCap)
  {
    TopWordsComplete(ms);
    var es := TalliesOf(BumpAll(EmptyCountDict(), AllWords(ms)));
    var tw := Take(RankDesc(es), TopWordsCap);
    TopRanked(es, TopWordsCap);
    forall e | e in tw
      ensures e.count == multiset(AllWords(ms))[e.key] && e.count > 0
      ensures Counted(e.key) && exists m | m in ms :: e.key in Tokens(TextOf(m))
    {
      TallyEntry(ms, e);
    }
    forall w, e | e in tw && (forall x | x in tw :: x.key != w) ensures e.count >= multiset(AllWords(ms))[w] {
      if w in AllWords(ms) {
        TallyComplete(ms, w);
      }
    }
  }

  /** A counted word is missing from the top list only when the list is full. */
  lemma TopWordsComplete(ms: seq<Message>)
    ensures var tw := TopWords(BumpAll(EmptyCountDict(), AllWords(ms)));
      forall w | multiset(AllWords(ms))[w] > 0 && (forall x | x in tw :: x.key != w) :: |tw| == TopWordsCap
  {
    var es := TalliesOf(BumpAll(EmptyCountDict(), AllWords(ms)));
    var tw := Take(RankDesc(es), TopWordsCap);
    TopRanked(es, TopWordsCap);
    forall w | multiset(AllWords(ms))[w] > 0 && (forall x | x in tw :: x.key != w) ensures |tw| == TopWordsCap {
      TallyComplete(ms, w);
      assert Entry(w, multiset(AllWords(ms))[w]) !in tw;
    }
  }
}
