/** Character classes and the character-level text transforms the source takes from
    Python: `unicodedata.normalize("NFKD", s).encode("ascii", "ignore")`, `str.lower`,
    `str.isspace`, `sub in s` and `s.split(" ")[0]`. */
module Text {
  import opened UnicodeTables

  /** U+FFFD, which upstream decoders substitute for undecodable bytes. */
  const ReplacementChar: char := '\U{FFFD}'

  predicate IsAscii(c: char) { c as int < 128 }

  predicate IsDigit(c: char) { '0' <= c <= '9' }

  /** The zero of the decimal digit run that holds `c`, or -1 when `c` is not a decimal digit. */
  function DecimalZero(c: char): (z: int)
    ensures z == -1 || z <= c as int < z + 10
  {
    DecimalZeroOf(c as int)
  }

  /** Python's `str.isdecimal` on one character, which is also the class `\d` matches. */
  predicate IsDecimal(c: char) { DecimalZero(c) >= 0 }

  /** `int(c)` for a decimal digit of any script. */
  function DecimalValue(c: char): (v: nat)
    requires IsDecimal(c)
    ensures v <= 9
  {
    c as int - DecimalZero(c)
  }

  predicate IsUpper(c: char) { 'A' <= c <= 'Z' }

  /** The class `[a-z0-9]` that both name normalisers keep. */
  predicate IsWordChar(c: char) { IsDigit(c) || 'a' <= c <= 'z' }

  predicate NotWordChar(c: char) { !IsWordChar(c) }

  /** Python's `str.isalnum` restricted to ASCII, the only characters it is asked about here. */
  predicate IsAsciiAlnum(c: char) { IsWordChar(c) || IsUpper(c) }

  /** Python's `str.isspace`; the same characters separate `str.split()` and are removed by `str.strip()`. */
  predicate IsSpace(c: char) {
    || c == ' '
    || '\t' <= c <= '\r'
    || '\U{1C}' <= c <= '\U{1F}'
    || c == '\U{85}' || c == '\U{A0}' || c == '\U{1680}'
    || '\U{2000}' <= c <= '\U{200A}'
    || c == '\U{2028}' || c == '\U{2029}' || c == '\U{202F}' || c == '\U{205F}' || c == '\U{3000}'
  }

  predicate NotSpace(c: char) { !IsSpace(c) }

  /** ASCII digits have their usual values; so do the digits of other scripts, such as Arabic-Indic
      one (U+0661) and fullwidth nine (U+FF19). Superscript two (U+00B2) is a digit to `str.isdigit`
      but not a decimal digit, and so is not `\d`. */
  lemma DecimalExamples(c: char)
    ensures IsDigit(c) ==> IsDecimal(c) && DecimalValue(c) == c as int - '0' as int
    ensures IsDecimal('\U{661}') && DecimalValue('\U{661}') == 1
    ensures IsDecimal('\U{FF19}') && DecimalValue('\U{FF19}') == 9
    ensures !IsDecimal('\U{B2}')
  {
  }

  /** Compatibility decomposition of one character; characters outside the table decompose to themselves. */
  function Nfkd(c: char): string {
    if IsAscii(c) then [c] else NfkdEntry(c)
  }

  /** `t.encode("ascii", "ignore").decode("ascii")`: drop every non-ASCII character. */
  function AsciiPart(t: string): (r: string)
    ensures forall i | 0 <= i < |r| :: IsAscii(r[i])
  {
    if t == [] then [] else (if IsAscii(t[0]) then [t[0]] else []) + AsciiPart(t[1..])
  }

  /** `_strip_accents`: decompose, then drop what is not ASCII. Decomposing per character is exact here,
      because canonical reordering only moves combining marks, and those are all dropped. */
  function StripAccents(s: string): (r: string)
    ensures forall i | 0 <= i < |r| :: IsAscii(r[i])
  {
    if s == [] then [] else AsciiPart(Nfkd(s[0])) + StripAccents(s[1..])
  }

  /** An ASCII string comes out of `StripAccents` unchanged. */
  lemma {:induction false} StripAccentsOfAscii(s: string)
    requires forall i | 0 <= i < |s| :: IsAscii(s[i])
    ensures StripAccents(s) == s
  {
    if s != [] {
      assert Nfkd(s[0]) == [s[0]];
      assert AsciiPart([s[0]]) == [s[0]] + AsciiPart([]);
      StripAccentsOfAscii(s[1..]);
    }
  }

  /** `StripAccents` works character by character, so it distributes over concatenation. */
  lemma {:induction false} StripAccentsAppend(a: string, b: string)
    ensures StripAccents(a + b) == StripAccents(a) + StripAccents(b)
  {
    if a != [] {
      var head := AsciiPart(Nfkd(a[0]));
      assert (a + b)[0] == a[0];
      assert (a + b)[1..] == a[1..] + b;
      assert StripAccents(a + b) == head + StripAccents(a[1..] + b);
      assert StripAccents(a) == head + StripAccents(a[1..]);
      StripAccentsAppend(a[1..], b);
    } else {
      assert a + b == b;
    }
  }

  /** U+00E9 and U+00C9 (e and E with acute) lose their accent. */
  lemma StripAccented(c: char, base: char)
    requires (c == '\U{00E9}' && base == 'e') || (c == '\U{00C9}' && base == 'E')
    ensures StripAccents([c]) == [base]
  {
    var d := Nfkd(c);
    assert d == [base, '\U{0301}'];
    assert AsciiPart(d) == [base] + AsciiPart(d[1..]);
    assert AsciiPart(d[1..]) == [] + AsciiPart(d[1..][1..]);
    assert [c][1..] == [];
  }

  /** Python's `c.lower()` for one character. */
  function LowerChar(c: char): string {
    if IsUpper(c) then [(c as int + 32) as char]
    else if IsAscii(c) then [c]
    else LowerEntry(c)
  }

  /** Python's `s.lower()`. */
  function Lower(s: string): string {
    if s == [] then [] else LowerChar(s[0]) + Lower(s[1..])
  }

  /** `Lower` works character by character, so it distributes over concatenation. */
  lemma {:induction false} LowerAppend(a: string, b: string)
    ensures Lower(a + b) == Lower(a) + Lower(b)
  {
    if a != [] {
      assert (a + b)[1..] == a[1..] + b;
      LowerAppend(a[1..], b);
    } else {
      assert a + b == b;
    }
  }

  /** On ASCII text `lower` maps A-Z to a-z, one character for one, and leaves every other character alone. */
  lemma {:induction false} LowerOfAscii(s: string)
    requires forall i | 0 <= i < |s| :: IsAscii(s[i])
    ensures |Lower(s)| == |s|
    ensures forall i | 0 <= i < |s| :: IsAscii(Lower(s)[i]) && !IsUpper(Lower(s)[i])
    ensures forall i | 0 <= i < |s| :: !IsUpper(s[i]) ==> Lower(s)[i] == s[i]
    ensures forall i | 0 <= i < |s| :: IsWordChar(Lower(s)[i]) <==> IsAsciiAlnum(s[i])
    ensures forall i | 0 <= i < |s| :: IsSpace(Lower(s)[i]) <==> IsSpace(s[i])
  {
    if s != [] {
      LowerOfAscii(s[1..]);
      assert Lower(s) == LowerChar(s[0]) + Lower(s[1..]);
      assert forall i | 1 <= i < |s| :: Lower(s)[i] == Lower(s[1..])[i - 1] && s[i] == s[1..][i - 1];
    }
  }

  /** `sub in s`. */
  predicate Contains(s: string, sub: string)
    decreases |s|
  {
    sub <= s || (|s| > 0 && Contains(s[1..], sub))
  }

  /** `s.split(" ")[0]`: everything before the first space. */
  function FirstToken(s: string): (r: string)
    ensures r <= s
    ensures forall i | 0 <= i < |r| :: r[i] != ' '
    ensures |r| < |s| ==> s[|r|] == ' '
  {
    if s == [] || s[0] == ' ' then [] else [s[0]] + FirstToken(s[1..])
  }
}
