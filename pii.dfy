/** The PII sample detector of the audit: messages with a phone-like or e-mail-like substring, and
    messages with a card-like digit run that passes the Luhn check. */
module PiiChecks {
  import opened Wrappers
  import opened Seqs
  import opened Records
  import opened Text
  import opened Luhn

  datatype Hit = Hit(id: Option<string>, userId: Option<string>, snippet: string)

  function HitOf(m: Message): Hit {
    Hit(m.id, m.userId, Snippet(TextOf(m)))
  }

  /** `"".join(ch for ch in s if ch.isdigit())` on a match of the card pattern, whose digits are all decimal. */
  function DigitsOnly(s: string): string {
    Filter(s, IsDecimal)
  }

  /** The gate a card-like match must pass: 13 to 19 digits and a valid Luhn check digit. */
  predicate CardLike(s: string) {
    13 <= |DigitsOnly(s)| <= 19 && LuhnSpec(DigitsOnly(s))
  }

  /** Some card-like match of the text passes the gate. */
  predicate HasCard(or: Oracles, txt: string) {
    exists k | 0 <= k < |or.cardMatches(txt)| :: CardLike(or.cardMatches(txt)[k])
  }

  function PhoneHit(or: Oracles): Message -> seq<Hit> {
    m => if |or.phoneMatches(TextOf(m))| > 0 then [HitOf(m)] else []
  }

  function EmailHit(or: Oracles): Message -> seq<Hit> {
    m => if |or.emailMatches(TextOf(m))| > 0 then [HitOf(m)] else []
  }

  function CardHit(or: Oracles): Message -> seq<Hit> {
    m => if HasCard(or, TextOf(m)) then [HitOf(m)] else []
  }

  /** The loop over `cc_re.finditer(txt)` that stops at the first match passing the gate. */
  method FindCard(or: Oracles, txt: string) returns (found: bool)
    ensures found == HasCard(or, txt)
  {
    var matches := or.cardMatches(txt);
    var k := 0;
    while k < |matches|
      invariant k <= |matches|
      invariant forall k' | 0 <= k' < k :: !CardLike(matches[k'])
    {
      var digits := DigitsOnly(matches[k]);
      var valid := LuhnCheck(digits);
      if 13 <= |digits| <= 19 && valid {
        return true;
      }
      k := k + 1;
    }
    return false;
  }

  /** The PII loop over all messages. The test of the list lengths at its end leads to `continue`
      and so changes nothing; the lists are only cut when the report is built. */
  method PiiScan(or: Oracles, ms: seq<Message>) returns (phones: seq<Hit>, emails: seq<Hit>, cards: seq<Hit>)
    ensures phones == FlatMap(ms, PhoneHit(or))
    ensures emails == FlatMap(ms, EmailHit(or))
    ensures cards == FlatMap(ms, CardHit(or))
  {
    phones, emails, cards := [], [], [];
    var i := 0;
    while i < |ms|
      invariant i <= |ms|
      invariant phones == FlatMap(ms[..i], PhoneHit(or))
      invariant emails == FlatMap(ms[..i], EmailHit(or))
      invariant cards == FlatMap(ms[..i], CardHit(or))
    {
      var m := ms[i];
      var txt := TextOf(m);
      FlatMapStep(ms, i, PhoneHit(or));
      FlatMapStep(ms, i, EmailHit(or));
      FlatMapStep(ms, i, CardHit(or));
      if |or.phoneMatches(txt)| > 0 {
        phones := phones + [Hit(m.id, m.userId, Snippet(txt))];
      }
      if |or.emailMatches(txt)| > 0 {
        emails := emails + [Hit(m.id, m.userId, Snippet(txt))];
      }
      var card := FindCard(or, txt);
      if card {
        cards := cards + [Hit(m.id, m.userId, Snippet(txt))];
      }
      i := i + 1;
    }
    assert ms[..i] == ms;
  }

  function HasCardMessage(or: Oracles): Message -> bool {
    m => HasCard(or, TextOf(m))
  }

  /** A message yields at most one card hit, however many of its matches pass the gate: the card
      list has one entry per message with a passing match, in message order. */
  lemma {:induction false} CardHitsPerMessage(or: Oracles, ms: seq<Message>)
    ensures FlatMap(ms, CardHit(or)) == seq(|Filter(ms, HasCardMessage(or))|, i requires 0 <= i < |Filter(ms, HasCardMessage(or))| => HitOf(Filter(ms, HasCardMessage(or))[i]))
    ensures |FlatMap(ms, CardHit(or))| <= |ms|
  {
    if ms != [] {
      var ms' := ms[..|ms| - 1];
      var m := ms[|ms| - 1];
      CardHitsPerMessage(or, ms');
      var f, f' := Filter(ms, HasCardMessage(or)), Filter(ms', HasCardMessage(or));
      assert f == f' + (if HasCard(or, TextOf(m)) then [m] else []);
      assert FlatMap(ms, CardHit(or)) == FlatMap(ms', CardHit(or)) + CardHit(or)(m);
      var hs := seq(|f|, i requires 0 <= i < |f| => HitOf(f[i]));
      var hs' := seq(|f'|, i requires 0 <= i < |f'| => HitOf(f'[i]));
      assert hs == hs' + (if HasCard(or, TextOf(m)) then [HitOf(m)] else []);
    }
  }

  /** A match with fewer than 13 digits never makes a card hit, and neither does one whose digits
      fail the Luhn check. */
  lemma CardGate(s: string)
    ensures |DigitsOnly(s)| < 13 ==> !CardLike(s)
    ensures !LuhnValid(Digits(DigitsOnly(s))) ==> !CardLike(s)
    ensures CardLike(s) ==> 13 <= |DigitsOnly(s)| <= 19 && LuhnValid(Digits(DigitsOnly(s)))
  {
    if |DigitsOnly(s)| < 13 {
      LuhnShortRejected(DigitsOnly(s));
      DigitsOfDigitsOnly(s);
    }
  }

  lemma DigitsOfDigitsOnly(s: string)
    ensures |Digits(DigitsOnly(s))| == |DigitsOnly(s)|
  {
    FilterSound(s, IsDecimal);
    var d := DigitsOnly(s);
    assert forall i | 0 <= i < |d| :: d[i] in d;
    DigitsOfDigits(d);
  }
}
