/** `luhn_check`: the Luhn mod-10 check digit test of ISO/IEC 7812-1 (Annex B), applied to the
    digits of a string with every other character ignored. */
module Luhn {
  import opened Seqs
  import opened Text

  /** `[int(c) for c in num if c.isdigit()]`, for decimal digits of every script. */
  function Digits(s: string): (ds: seq<nat>)
    ensures forall i | 0 <= i < |ds| :: ds[i] <= 9
    ensures |ds| <= |s|
  {
    if s == [] then []
    else Digits(s[..|s| - 1]) + (if IsDecimal(s[|s| - 1]) then [DecimalValue(s[|s| - 1])] else [])
  }

  /** The digit list holds the value of each decimal digit of `s`, in order, and nothing else. */
  lemma {:induction false} DigitsSpec(s: string)
    ensures |Digits(s)| == |Filter(s, IsDecimal)|
    ensures forall i | 0 <= i < |Digits(s)| ::
      IsDecimal(Filter(s, IsDecimal)[i]) && Digits(s)[i] == DecimalValue(Filter(s, IsDecimal)[i])
  {
    if s != [] {
      var pre := s[..|s| - 1];
      DigitsSpec(pre);
      assert Digits(s) == Digits(pre) + (if IsDecimal(s[|s| - 1]) then [DecimalValue(s[|s| - 1])] else []);
      assert Filter(s, IsDecimal) == Filter(pre, IsDecimal) + (if IsDecimal(s[|s| - 1]) then [s[|s| - 1]] else []);
    }
  }

  /** A doubled digit whose double exceeds 9 has 9 subtracted, i.e. its two digits are added. */
  function DoubleDigit(d: nat): (r: nat)
    requires d <= 9
    ensures r <= 9
  {
    if 2 * d > 9 then 2 * d - 9 else 2 * d
  }

  function Term(d: nat, doubled: bool): nat
    requires d <= 9
  {
    if doubled then DoubleDigit(d) else d
  }

  /** The standard's sum: digits weighted from the right, the rightmost digit undoubled,
      then every second digit doubled. `doubled` says whether the last digit of `ds` is doubled. */
  function RightSum(ds: seq<nat>, doubled: bool): nat
    requires forall i | 0 <= i < |ds| :: ds[i] <= 9
  {
    if ds == [] then 0 else Term(ds[|ds| - 1], doubled) + RightSum(ds[..|ds| - 1], !doubled)
  }

  /** ISO/IEC 7812-1 Annex B: a number is valid iff its weighted digit sum is a multiple of 10. */
  predicate LuhnValid(ds: seq<nat>)
    requires forall i | 0 <= i < |ds| :: ds[i] <= 9
  {
    RightSum(ds, false) % 10 == 0
  }

  /** What `luhn_check` computes. */
  predicate LuhnSpec(num: string) {
    |Digits(num)| >= 13 && LuhnValid(Digits(num))
  }

  /** The loop's running checksum: the digit at index `i` is doubled iff `i % 2 == parity`. */
  function LeftSum(ds: seq<nat>, parity: nat): nat
    requires forall i | 0 <= i < |ds| :: ds[i] <= 9
  {
    if ds == [] then 0
    else LeftSum(ds[..|ds| - 1], parity) + Term(ds[|ds| - 1], (|ds| - 1) % 2 == parity)
  }

  /** `luhn_check(num)`. */
  method LuhnCheck(num: string) returns (ok: bool)
    ensures ok == LuhnSpec(num)
  {
    var digits := Digits(num);
    if |digits| < 13 {
      return false;
    }
    var checksum := 0;
    var parity := (|digits| - 2) % 2;
    var i := 0;
    while i < |digits|
      invariant 0 <= i <= |digits|
      invariant checksum == LeftSum(digits[..i], parity)
    {
      var d := digits[i];
      if i % 2 == parity {
        d := d * 2;
        if d > 9 {
          d := d - 9;
        }
      }
      checksum := checksum + d;
      assert digits[..i + 1][..i] == digits[..i];
      i := i + 1;
    }
    assert digits[..i] == digits;
    LeftSumIsRightSum(digits, parity);
    ok := checksum % 10 == 0;
  }

  /** Doubling by index parity from the left is the standard's doubling from the right. */
  lemma {:induction false} LeftSumIsRightSum(ds: seq<nat>, parity: nat)
    requires forall i | 0 <= i < |ds| :: ds[i] <= 9
    requires parity < 2
    ensures LeftSum(ds, parity) == RightSum(ds, parity != |ds| % 2)
  {
    if ds != [] {
      LeftSumIsRightSum(ds[..|ds| - 1], parity);
    }
  }

  /** Characters other than digits do not matter. */
  lemma {:induction false} DigitsAppend(a: string, b: string)
    ensures Digits(a + b) == Digits(a) + Digits(b)
    decreases |b|
  {
    if b == [] {
      assert a + b == a;
    } else {
      assert (a + b)[..|a + b| - 1] == a + b[..|b| - 1];
      DigitsAppend(a, b[..|b| - 1]);
    }
  }

  lemma {:induction false} LuhnIgnoresNonDigit(a: string, c: char, b: string)
    requires !IsDecimal(c)
    ensures LuhnSpec(a + [c] + b) == LuhnSpec(a + b)
  {
    DigitsAppend(a + [c], b);
    DigitsAppend(a, [c]);
    DigitsAppend(a, b);
    assert Digits([c]) == [] by {
      assert [c][..0] == [];
    }
    assert Digits(a + [c] + b) == Digits(a + b);
  }

  /** Fewer than 13 digits are always rejected, whatever the checksum. */
  lemma LuhnShortRejected(num: string)
    requires |Digits(num)| < 13
    ensures !LuhnSpec(num)
  {
  }

  lemma {:induction false} DigitsOfDigits(s: string)
    requires forall i | 0 <= i < |s| :: IsDecimal(s[i])
    ensures |Digits(s)| == |s|
    ensures forall i | 0 <= i < |s| :: Digits(s)[i] == DecimalValue(s[i])
  {
    if s != [] {
      DigitsOfDigits(s[..|s| - 1]);
    }
  }

  /** The weighted sum splits at any point; the doubling of the left part depends on the parity of
      the length of the right part. */
  lemma {:induction false} RightSumAppend(a: seq<nat>, b: seq<nat>, doubled: bool)
    requires forall i | 0 <= i < |a| :: a[i] <= 9
    requires forall i | 0 <= i < |b| :: b[i] <= 9
    ensures RightSum(a + b, doubled) == RightSum(b, doubled) + RightSum(a, if |b| % 2 == 0 then doubled else !doubled)
    decreases |b|
  {
    if b == [] {
      assert a + b == a;
    } else {
      var b' := b[..|b| - 1];
      assert (a + b)[..|a + b| - 1] == a + b';
      assert (a + b)[|a + b| - 1] == b[|b| - 1];
      assert |b'| % 2 == 0 <==> |b| % 2 != 0;
      RightSumAppend(a, b', !doubled);
    }
  }

  /** A run of `n` ones sums to `n` plus one for every doubled position. */
  lemma {:induction false} RightSumOnes(n: nat, doubled: bool)
    ensures RightSum(seq(n, _ => 1), doubled) == n + (if doubled then (n + 1) / 2 else n / 2)
  {
    if n > 0 {
      assert seq(n, _ => 1)[..n - 1] == seq(n - 1, _ => 1);
      RightSumOnes(n - 1, !doubled);
    }
  }

  /** The usual test card number is accepted, in ASCII digits and in fullwidth digits alike. */
  lemma LuhnAcceptsTestCard()
    ensures LuhnSpec("4111111111111111")
    ensures LuhnSpec("\U{FF14}\U{FF11}\U{FF11}\U{FF11}\U{FF11}\U{FF11}\U{FF11}\U{FF11}\U{FF11}\U{FF11}\U{FF11}\U{FF11}\U{FF11}\U{FF11}\U{FF11}\U{FF11}")
  {
    TestCardShape("4111111111111111", '4', '1');
    TestCardShape("\U{FF14}\U{FF11}\U{FF11}\U{FF11}\U{FF11}\U{FF11}\U{FF11}\U{FF11}\U{FF11}\U{FF11}\U{FF11}\U{FF11}\U{FF11}\U{FF11}\U{FF11}\U{FF11}", '\U{FF14}', '\U{FF11}');
    FourOnesValid();
  }

  /** A four and fifteen ones pass the checksum. */
  lemma FourOnesValid()
    ensures LuhnValid([4] + seq(15, _ => 1))
  {
    var ones := seq(15, _ => 1);
    RightSumAppend([4], ones, false);
    RightSumOnes(15, false);
    assert RightSum([4], true) == 8 by {
      assert [4][..0] == [];
      assert RightSum([4], true) == Term(4, true) + RightSum([], false);
    }
  }

  /** Both spellings of the test card number are a four followed by fifteen ones. */
  lemma TestCardShape(s: string, four: char, one: char)
    requires (s, four, one) == ("4111111111111111", '4', '1') || (s, four, one) == ("\U{FF14}\U{FF11}\U{FF11}\U{FF11}\U{FF11}\U{FF11}\U{FF11}\U{FF11}\U{FF11}\U{FF11}\U{FF11}\U{FF11}\U{FF11}\U{FF11}\U{FF11}\U{FF11}", '\U{FF14}', '\U{FF11}')
    ensures IsDecimal(four) && DecimalValue(four) == 4 && IsDecimal(one) && DecimalValue(one) == 1
    ensures Digits(s) == [4] + seq(15, _ => 1)
  {
    assert |s| == 16 && s[0] == four && forall i | 1 <= i < 16 :: s[i] == one;
    TestCardDigits(s, four, one);
  }

  /** The digits of a four followed by fifteen ones, in any script. */
  lemma TestCardDigits(s: string, four: char, one: char)
    requires IsDecimal(four) && DecimalValue(four) == 4 && IsDecimal(one) && DecimalValue(one) == 1
    requires |s| == 16 && s[0] == four && forall i | 1 <= i < 16 :: s[i] == one
    ensures Digits(s) == [4] + seq(15, _ => 1)
  {
    DigitsOfDigits(s);
    var ones := seq(15, _ => 1);
    assert forall i | 0 <= i < |ones| :: ones[i] == 1;
  }

  lemma DoubleDigitInjective(a: nat, b: nat)
    requires a <= 9 && b <= 9 && a != b
    ensures DoubleDigit(a) != DoubleDigit(b)
  {
  }

  /** Replacing the digit at index `i` changes the sum by the change of that one weighted term. */
  lemma {:induction false} RightSumUpdate(ds: seq<nat>, doubled: bool, i: nat, d: nat)
    requires forall j | 0 <= j < |ds| :: ds[j] <= 9
    requires i < |ds| && d <= 9
    ensures var dbl := if (|ds| - 1 - i) % 2 == 0 then doubled else !doubled;
      RightSum(ds[i := d], doubled) + Term(ds[i], dbl) == RightSum(ds, doubled) + Term(d, dbl)
  {
    var n := |ds|;
    var pre := ds[..n - 1];
    if i < n - 1 {
      assert ds[i := d][..n - 1] == pre[i := d];
      assert (n - 1 - i) % 2 == 0 <==> (|pre| - 1 - i) % 2 != 0;
      RightSumUpdate(pre, !doubled, i, d);
    } else {
      assert ds[i := d][..n - 1] == pre;
    }
  }

  /** Two sums that differ by the difference of two distinct digits are not both multiples of 10. */
  lemma MultipleOfTenShift(x: int, y: int, a: nat, b: nat)
    requires a <= 9 && b <= 9 && a != b
    requires y + a == x + b
    requires x % 10 == 0
    ensures y % 10 != 0
  {
    var q := x / 10;
    assert x == 10 * q;
    if b > a {
      assert y == 10 * q + (b - a);
    } else {
      assert y == 10 * (q - 1) + (10 + b - a);
    }
  }

  /** Changing any single digit of a valid number makes it invalid. */
  lemma LuhnDetectsSingleDigitChange(ds: seq<nat>, i: nat, d: nat)
    requires forall j | 0 <= j < |ds| :: ds[j] <= 9
    requires i < |ds| && d <= 9 && d != ds[i]
    requires LuhnValid(ds)
    ensures !LuhnValid(ds[i := d])
  {
    var dbl := if (|ds| - 1 - i) % 2 == 0 then false else true;
    RightSumUpdate(ds, false, i, d);
    if dbl {
      DoubleDigitInjective(ds[i], d);
    }
    MultipleOfTenShift(RightSum(ds, false), RightSum(ds[i := d], false), Term(ds[i], dbl), Term(d, dbl));
  }

  /** Overwriting one digit character overwrites one entry of the digit list. */
  lemma {:induction false} DigitsEdit(num: string, i: nat, c: char)
    requires i < |num| && IsDecimal(num[i]) && IsDecimal(c)
    ensures |Digits(num[..i])| < |Digits(num)|
    ensures Digits(num)[|Digits(num[..i])|] == DecimalValue(num[i])
    ensures Digits(num[i := c]) == Digits(num)[|Digits(num[..i])| := DecimalValue(c)]
  {
    var pre, post := num[..i], num[i + 1..];
    assert num == pre + [num[i]] + post;
    assert num[i := c] == pre + [c] + post;
    DigitsAppend(pre + [num[i]], post);
    DigitsAppend(pre, [num[i]]);
    DigitsAppend(pre + [c], post);
    DigitsAppend(pre, [c]);
    assert Digits([num[i]]) == [DecimalValue(num[i])] by { assert [num[i]][..0] == []; }
    assert Digits([c]) == [DecimalValue(c)] by { assert [c][..0] == []; }
  }

  /** The same at the level of the string: overwriting a digit character with a digit of another
      value turns an accepted number into a rejected one. (A digit of the same value from another
      script, such as U+0661 for '1', leaves the verdict as it was.) */
  lemma LuhnRejectsEditedDigit(num: string, i: nat, c: char)
    requires i < |num| && IsDecimal(num[i]) && IsDecimal(c) && DecimalValue(c) != DecimalValue(num[i])
    requires LuhnSpec(num)
    ensures !LuhnSpec(num[i := c])
  {
    DigitsEdit(num, i, c);
    LuhnDetectsSingleDigitChange(Digits(num), |Digits(num[..i])|, DecimalValue(c));
  }
}
