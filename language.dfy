/** The language/script shift detector of the audit: users some of whose messages are almost all
    ASCII while others are mostly not. */
module LanguageShift {
  import opened Seqs
  import opened Records
  import opened Text
  import opened Grouping
  import opened RealArith

  /** A user is reported when some ratio is below this ... */
  const LowRatio: real := 0.6
  /** ... and some ratio is above this. */
  const HighRatio: real := 0.95

  /** `max(1, n)`. */
  function AtLeastOne(n: nat): nat {
    if n > 1 then n else 1
  }

  /** `ascii_chars / max(1, len(t))`. */
  function AsciiRatio(t: string): real {
    Count(t, IsAscii) as real / AtLeastOne(|t|) as real
  }

  /** The ratio of one message, when its text is not empty. */
  function RatioOf(m: Message): seq<real> {
    if TextOf(m) == "" then [] else [AsciiRatio(TextOf(m))]
  }

  /** `ratios`: one ratio per message with a non-empty text, in message order. */
  function Ratios(arr: seq<Message>): seq<real> {
    FlatMap(arr, RatioOf)
  }

  /** `min(ratios)`. */
  function MinRatio(rs: seq<real>): (r: real)
    requires rs != []
    ensures r in rs && forall x | x in rs :: r <= x
  {
    if |rs| == 1 then rs[0]
    else
      var rest := rs[..|rs| - 1];
      var last := rs[|rs| - 1];
      var m := MinRatio(rest);
      assert rs == rest + [last];
      assert forall x | x in rs :: x in rest || x == last;
      if last < m then last else m
  }

  /** `max(ratios)`. */
  function MaxRatio(rs: seq<real>): (r: real)
    requires rs != []
    ensures r in rs && forall x | x in rs :: x <= r
  {
    if |rs| == 1 then rs[0]
    else
      var rest := rs[..|rs| - 1];
      var last := rs[|rs| - 1];
      var m := MaxRatio(rest);
      assert rs == rest + [last];
      assert forall x | x in rs :: x in rest || x == last;
      if last > m then last else m
  }

  /** One row of `lang_shifts`. */
  datatype ShiftRow = ShiftRow(userId: string, minRatio: real, maxRatio: real)

  /** `min(ratios) < 0.6 and max(ratios) > 0.95`, on a user with at least one ratio. */
  predicate Shifted(arr: seq<Message>) {
    Ratios(arr) != [] && MinRatio(Ratios(arr)) < LowRatio && MaxRatio(Ratios(arr)) > HighRatio
  }

  /** What the user with group `arr` adds to `lang_shifts`. */
  function ShiftRows(u: string, arr: seq<Message>): seq<ShiftRow> {
    if Shifted(arr) then [ShiftRow(u, MinRatio(Ratios(arr)), MaxRatio(Ratios(arr)))] else []
  }

  function ShiftOf(g: Grouping<string>): string -> seq<ShiftRow> {
    u => ShiftRows(u, GroupOf(g, u))
  }

  /** `lang_shifts`, in the order of the users' first messages. */
  function ScriptShifts(g: Grouping<string>): seq<ShiftRow> {
    FlatMap(g.keys, ShiftOf(g))
  }

  /** The inner loop: the ratios of one user's messages. */
  method CollectRatios(arr: seq<Message>) returns (ratios: seq<real>)
    ensures ratios == Ratios(arr)
  {
    ratios := [];
    var j := 0;
    while j < |arr|
      invariant j <= |arr|
      invariant ratios == Ratios(arr[..j])
    {
      FlatMapStep(arr, j, RatioOf);
      var t := TextOf(arr[j]);
      if t != "" {
        var asciiChars := Count(t, IsAscii);
        ratios := ratios + [asciiChars as real / AtLeastOne(|t|) as real];
      }
      j := j + 1;
    }
    assert arr[..j] == arr;
  }

  /** The body of the outer loop for one user. */
  method UserShift(u: string, arr: seq<Message>) returns (found: seq<ShiftRow>)
    ensures found == ShiftRows(u, arr)
  {
    found := [];
    var ratios := CollectRatios(arr);
    if ratios == [] {
      return;
    }
    if MinRatio(ratios) < LowRatio && MaxRatio(ratios) > HighRatio {
      found := [ShiftRow(u, MinRatio(ratios), MaxRatio(ratios))];
    }
  }

  /** The language loop over all users. */
  method FindShifts(g: Grouping<string>) returns (rows: seq<ShiftRow>)
    ensures rows == ScriptShifts(g)
  {
    rows := [];
    var i := 0;
    while i < |g.keys|
      invariant i <= |g.keys|
      invariant rows == FlatMap(g.keys[..i], ShiftOf(g))
    {
      var u := g.keys[i];
      FlatMapStep(g.keys, i, ShiftOf(g));
      var found := UserShift(u, GroupOf(g, u));
      rows := rows + found;
      i := i + 1;
    }
    assert g.keys[..i] == g.keys;
  }

  // ---------------------------------------------------------------- properties

  /** Some message with a non-empty text has an ASCII ratio below `bound`. */
  predicate RatedBelow(arr: seq<Message>, bound: real) {
    exists m | m in arr :: TextOf(m) != "" && AsciiRatio(TextOf(m)) < bound
  }

  /** Some message with a non-empty text has an ASCII ratio above `bound`. */
  predicate RatedAbove(arr: seq<Message>, bound: real) {
    exists m | m in arr :: TextOf(m) != "" && AsciiRatio(TextOf(m)) > bound
  }

  /** The ratios are those of the messages with a non-empty text. */
  lemma RatiosMember(arr: seq<Message>, r: real)
    ensures r in Ratios(arr) <==> exists m | m in arr :: TextOf(m) != "" && r == AsciiRatio(TextOf(m))
  {
    FlatMapMember(arr, RatioOf, r);
  }

  /** A user's messages show a script shift iff one non-empty message has an ASCII ratio below 0.6
      and one has a ratio above 0.95. */
  lemma ShiftedIff(arr: seq<Message>)
    ensures Shifted(arr) <==> RatedBelow(arr, LowRatio) && RatedAbove(arr, HighRatio)
  {
    if Shifted(arr) {
      RatiosMember(arr, MinRatio(Ratios(arr)));
      RatiosMember(arr, MaxRatio(Ratios(arr)));
    }
    if RatedBelow(arr, LowRatio) && RatedAbove(arr, HighRatio) {
      var lo :| lo in arr && TextOf(lo) != "" && AsciiRatio(TextOf(lo)) < LowRatio;
      var hi :| hi in arr && TextOf(hi) != "" && AsciiRatio(TextOf(hi)) > HighRatio;
      RatiosMember(arr, AsciiRatio(TextOf(lo)));
      RatiosMember(arr, AsciiRatio(TextOf(hi)));
    }
  }

  /** A user is reported iff its group shows a script shift (by `ShiftedIff`: it has a message whose
      ASCII ratio is below 0.6 and one whose ratio is above 0.95); its row carries the smallest and
      the largest ratio. */
  lemma ShiftMember(g: Grouping<string>, r: ShiftRow)
    ensures r in ScriptShifts(g) <==>
      && r.userId in g.keys
      && Shifted(GroupOf(g, r.userId))
      && r == ShiftRow(r.userId, MinRatio(Ratios(GroupOf(g, r.userId))), MaxRatio(Ratios(GroupOf(g, r.userId))))
  {
    FlatMapMember(g.keys, ShiftOf(g), r);
    if r in ScriptShifts(g) {
      var u :| u in g.keys && r in ShiftOf(g)(u);
      assert r in ShiftRows(u, GroupOf(g, u));
    } else if r.userId in g.keys && Shifted(GroupOf(g, r.userId)) {
      assert r !in ShiftOf(g)(r.userId);
    }
  }

  /** Each user is reported at most once. */
  lemma ShiftUsersDistinct(g: Grouping<string>)
    requires Distinct(g.keys)
    ensures forall i, j | 0 <= i < j < |ScriptShifts(g)| :: ScriptShifts(g)[i].userId != ScriptShifts(g)[j].userId
  {
    FlatMapTagsDistinct(g.keys, ShiftOf(g), (r: ShiftRow) => r.userId);
  }

  /** For a non-empty text, the ratio is below 0.6 iff fewer than three fifths of its characters are
      ASCII. */
  lemma LowRatioThreshold(t: string)
    requires t != []
    ensures AsciiRatio(t) < LowRatio <==> 5 * Count(t, IsAscii) < 3 * |t|
  {
    RatioOfNonEmpty(t);
    QuotientBelow(Count(t, IsAscii), |t|);
  }

  /** For a non-empty text, the ratio is above 0.95 iff more than nineteen twentieths of its
      characters are ASCII. */
  lemma HighRatioThreshold(t: string)
    requires t != []
    ensures AsciiRatio(t) > HighRatio <==> 20 * Count(t, IsAscii) > 19 * |t|
  {
    RatioOfNonEmpty(t);
    QuotientAbove(Count(t, IsAscii), |t|);
  }

  /** For a non-empty text the denominator is its length. */
  lemma RatioOfNonEmpty(t: string)
    requires t != []
    ensures AsciiRatio(t) == Count(t, IsAscii) as real / |t| as real
  {
  }

  lemma QuotientBelow(c: nat, n: nat)
    requires n > 0
    ensures c as real / n as real < LowRatio <==> 5 * c < 3 * n
  {
    DivCompare(c as real, n as real, LowRatio);
  }

  lemma QuotientAbove(c: nat, n: nat)
    requires n > 0
    ensures c as real / n as real > HighRatio <==> 20 * c > 19 * n
  {
    DivCompare(c as real, n as real, HighRatio);
  }

  /** An all-ASCII text has ratio 1. */
  lemma AllAsciiRatio(t: string)
    requires t != [] && forall i | 0 <= i < |t| :: IsAscii(t[i])
    ensures AsciiRatio(t) == 1.0
  {
    CountEvery(t, IsAscii);
    DivExact(Count(t, IsAscii) as real, AtLeastOne(|t|) as real, 1.0);
  }

  /** A text without ASCII characters has ratio 0. */
  lemma NoAsciiRatio(t: string)
    requires forall i | 0 <= i < |t| :: !IsAscii(t[i])
    ensures AsciiRatio(t) == 0.0
  {
    CountZero(t, IsAscii);
  }

  /** A user who wrote one all-ASCII message and one without any ASCII character is reported. */
  lemma MixedScriptsReported(g: Grouping<string>, u: string, lo: Message, hi: Message)
    requires u in g.keys && lo in GroupOf(g, u) && hi in GroupOf(g, u)
    requires TextOf(lo) != "" && forall i | 0 <= i < |TextOf(lo)| :: !IsAscii(TextOf(lo)[i])
    requires TextOf(hi) != "" && forall i | 0 <= i < |TextOf(hi)| :: IsAscii(TextOf(hi)[i])
    ensures exists r | r in ScriptShifts(g) :: r.userId == u && r.minRatio == 0.0 && r.maxRatio == 1.0
  {
    var arr := GroupOf(g, u);
    NoAsciiRatio(TextOf(lo));
    AllAsciiRatio(TextOf(hi));
    ShiftedIff(arr);
    RatiosMember(arr, 0.0);
    RatiosMember(arr, 1.0);
    forall x | x in Ratios(arr) ensures 0.0 <= x <= 1.0 {
      RatiosMember(arr, x);
      var m :| m in arr && TextOf(m) != "" && x == AsciiRatio(TextOf(m));
      RatioBounds(TextOf(m));
    }
    var r := ShiftRow(u, MinRatio(Ratios(arr)), MaxRatio(Ratios(arr)));
    ShiftMember(g, r);
  }

  /** Every ratio lies between 0 and 1. */
  lemma RatioBounds(t: string)
    ensures 0.0 <= AsciiRatio(t) <= 1.0
  {
    DivCompare(Count(t, IsAscii) as real, AtLeastOne(|t|) as real, 0.0);
    DivCompare(Count(t, IsAscii) as real, AtLeastOne(|t|) as real, 1.0);
  }
}
