/** The text normalisers: `_norm` of the audit, `norm_name` (and its copy `_norm_name` in the member
    helpers), both after `_strip_accents`, and the duplicate detector's `norm_text`. */
module Normalise {
  import opened Text
  import opened Words

  /** `"".join(ch if (ch.isalnum() or ch.isspace()) else " " for ch in s)`. It is only applied to
      accent-stripped, hence ASCII, text, where `isalnum` is `[A-Za-z0-9]`. */
  function KeepAlnumSpace(s: string): (r: string)
    ensures |r| == |s|
    ensures forall i | 0 <= i < |s| :: r[i] == if IsAsciiAlnum(s[i]) || IsSpace(s[i]) then s[i] else ' '
  {
    seq(|s|, i requires 0 <= i < |s| => if IsAsciiAlnum(s[i]) || IsSpace(s[i]) then s[i] else ' ')
  }

  /** `_norm(s)` of the audit. */
  function Norm(s: string): string {
    Join(Runs(KeepAlnumSpace(Lower(StripAccents(s))), NotSpace))
  }

  /** `norm_name(s)`: `re.sub(r"[^a-z0-9]+", " ", ...).strip()` of the lower-cased, accent-stripped text. */
  function NormName(s: string): string {
    Strip(CollapseNonWord(Lower(StripAccents(s))))
  }

  /** `norm_text(s)` of the duplicate detector: lower-case, then collapse whitespace. No accent stripping. */
  function NormText(s: string): string {
    Join(Runs(Lower(s), NotSpace))
  }

  /** The `[a-z0-9]` tokens of the lower-cased, accent-stripped text. */
  function Tokens(s: string): seq<string> {
    Runs(Lower(StripAccents(s)), IsWordChar)
  }

  lemma NormIsJoinTokens(s: string)
    ensures Norm(s) == Join(Tokens(s))
  {
    var x := Lower(StripAccents(s));
    LowerOfAscii(StripAccents(s));
    RunsAgree(KeepAlnumSpace(x), NotSpace, x, IsWordChar);
  }

  lemma NormNameIsJoinTokens(s: string)
    ensures NormName(s) == Join(Tokens(s))
  {
    var x := Lower(StripAccents(s));
    var y := CollapseNonWord(x);
    CollapseRuns(x);
    StripRuns(y);
    StripSpacedCanonical(y);
    CanonicalJoinRuns(Strip(y));
  }

  /** `_norm` yields `[a-z0-9]` tokens joined by single spaces, no leading or trailing space. */
  lemma NormCanonical(s: string)
    ensures Canonical(Norm(s))
  {
    NormIsJoinTokens(s);
    JoinCanonical(Tokens(s));
  }

  /** `norm_name` yields `[a-z0-9]` tokens separated by single spaces, no leading or trailing space. */
  lemma NormNameCanonical(s: string)
    ensures Canonical(NormName(s))
  {
    NormNameIsJoinTokens(s);
    JoinCanonical(Tokens(s));
  }

  /** The two normalisers agree on every input. */
  lemma NormNameIsNorm(s: string)
    ensures NormName(s) == Norm(s)
  {
    NormIsJoinTokens(s);
    NormNameIsJoinTokens(s);
  }

  /** A canonical string is its own normal form. */
  lemma {:induction false} CanonicalTokens(c: string)
    requires Canonical(c)
    ensures Join(Tokens(c)) == c
  {
    LowerCanonical(c);
    CanonicalJoinRuns(c);
  }

  lemma {:induction false} LowerCanonical(c: string)
    requires forall i | 0 <= i < |c| :: IsWordChar(c[i]) || c[i] == ' '
    ensures Lower(StripAccents(c)) == c
  {
    assert forall i | 0 <= i < |c| :: IsAscii(c[i]) && !IsUpper(c[i]);
    StripAccentsOfAscii(c);
    LowerOfAscii(c);
    assert |Lower(c)| == |c|;
    assert forall i | 0 <= i < |c| :: Lower(c)[i] == c[i];
  }

  /** `_norm(_norm(s)) == _norm(s)`. */
  lemma {:induction false} NormIdempotent(s: string)
    ensures Norm(Norm(s)) == Norm(s)
  {
    NormCanonical(s);
    CanonicalTokens(Norm(s));
    NormIsJoinTokens(Norm(s));
  }

  /** `norm_name(norm_name(s)) == norm_name(s)`. */
  lemma {:induction false} NormNameIdempotent(s: string)
    ensures NormName(NormName(s)) == NormName(s)
  {
    NormNameCanonical(s);
    CanonicalTokens(NormName(s));
    NormNameIsJoinTokens(NormName(s));
  }

  /** `norm_text` keeps the whitespace-separated words of the lower-cased text and joins them with
      single spaces. */
  lemma NormTextWords(s: string)
    ensures Runs(NormText(s), NotSpace) == Runs(Lower(s), NotSpace)
    ensures |NormText(s)| == 0 <==> Runs(Lower(s), NotSpace) == []
  {
    RunsJoin(Runs(Lower(s), NotSpace), NotSpace);
    var ws := Runs(Lower(s), NotSpace);
    if ws != [] {
      assert |Join(ws)| >= |ws[0]| by {
        JoinPrefix(ws);
      }
    }
  }

  lemma {:induction false} JoinPrefix(ws: seq<string>)
    requires ws != []
    ensures ws[0] <= Join(ws)
  {
  }

  /** A lower-cased, accent-stripped text made of three tokens and separators has exactly those tokens. */
  lemma ThreeTokens(s: string, w1: string, w2: string, w3: string, sp: string, sp2: string)
    requires w1 != [] && w2 != [] && w3 != [] && sp != [] && sp2 != []
    requires forall i | 0 <= i < |w1| :: IsWordChar(w1[i])
    requires forall i | 0 <= i < |w2| :: IsWordChar(w2[i])
    requires forall i | 0 <= i < |w3| :: IsWordChar(w3[i])
    requires forall i | 0 <= i < |sp| :: !IsWordChar(sp[i])
    requires forall i | 0 <= i < |sp2| :: !IsWordChar(sp2[i])
    requires Lower(StripAccents(s)) == w1 + sp + w2 + sp2 + w3
    ensures Tokens(s) == [w1, w2, w3]
  {
    RunsOfThree(w1, w2, w3, sp, sp2);
  }

  /** The pieces of "Th\u00e9 \u00c9col\u00e9  Dupont" after accent stripping. */
  lemma ExampleStripped(a: string, b: string, c: string, d: string, e: string, f: string, g: string)
    requires a == "Th" && b == "\U{E9}" && c == " " && d == "\U{C9}" && e == "col" && f == "\U{E9}" && g == "  Dupont"
    ensures StripAccents(a + b + c + d + e + f + g) == a + "e" + c + "E" + e + "e" + g
  {
    StripHead(a, b, c, d);
    StripTail(e, f, g);
    assert a + b + c + d + e + f + g == (a + b + c + d) + (e + f + g);
    StripAccentsAppend(a + b + c + d, e + f + g);
  }

  /** "Th\u00e9 \u00c9" loses its two accents. */
  lemma StripHead(a: string, b: string, c: string, d: string)
    requires a == "Th" && b == "\U{E9}" && c == " " && d == "\U{C9}"
    ensures StripAccents(a + b + c + d) == a + "e" + c + "E"
  {
    StripAccentsAppend(a + b + c, d);
    StripAccentsAppend(a + b, c);
    StripAccentsAppend(a, b);
    StripAccented(b[0], 'e');
    StripAccented(d[0], 'E');
    assert b == [b[0]] && d == [d[0]];
    StripAccentsOfAscii(a);
    StripAccentsOfAscii(c);
  }

  /** "col\u00e9  Dupont" loses its one accent. */
  lemma StripTail(e: string, f: string, g: string)
    requires e == "col" && f == "\U{E9}" && g == "  Dupont"
    ensures StripAccents(e + f + g) == e + "e" + g
  {
    StripAccentsAppend(e + f, g);
    StripAccentsAppend(e, f);
    StripAccented(f[0], 'e');
    assert f == [f[0]];
    StripAccentsOfAscii(e);
    StripAccentsOfAscii(g);
  }

  /** ASCII text without capitals is its own lower case. */
  lemma LowerOfLowercase(s: string)
    requires forall i | 0 <= i < |s| :: IsAscii(s[i]) && !IsUpper(s[i])
    ensures Lower(s) == s
  {
    LowerOfAscii(s);
  }

  /** A capitalised ASCII word lower-cases to the same word with its first letter lowered. */
  lemma LowerOfCapitalised(w: string, l: string)
    requires |w| > 0 && |l| == |w| && IsUpper(w[0]) && l[0] == (w[0] as int + 32) as char
    requires forall i | 1 <= i < |w| :: IsAscii(w[i]) && !IsUpper(w[i]) && l[i] == w[i]
    ensures Lower(w) == l
  {
    assert w == [w[0]] + w[1..];
    LowerAppend([w[0]], w[1..]);
    assert Lower([w[0]]) == LowerChar(w[0]) + Lower([]);
    LowerOfLowercase(w[1..]);
  }

  /** The accent-stripped example after lower-casing. */
  lemma ExampleLowered(a: string, b: string, c: string, d: string, e: string)
    requires a == "The" && b == " " && c == "Ecole" && d == "  " && e == "Dupont"
    ensures Lower(a + b + c + d + e) == "the" + b + "ecole" + d + "dupont"
  {
    LowerAppend(a + b + c + d, e);
    LowerAppend(a + b + c, d);
    LowerAppend(a + b, c);
    LowerAppend(a, b);
    LowerOfCapitalised(a, "the");
    LowerOfCapitalised(c, "ecole");
    LowerOfCapitalised(e, "dupont");
    LowerOfLowercase(b);
    LowerOfLowercase(d);
  }

  lemma ExampleFolded(a: string, b: string, c: string, d: string, e: string, f: string, g: string)
    requires a == "Th" && b == "\U{E9}" && c == " " && d == "\U{C9}" && e == "col" && f == "\U{E9}" && g == "  Dupont"
    ensures Lower(StripAccents(a + b + c + d + e + f + g)) == "the" + " " + "ecole" + "  " + "dupont"
  {
    ExampleStripped(a, b, c, d, e, f, g);
    assert a + "e" + c + "E" + e + "e" + g == "The" + " " + "Ecole" + "  " + "Dupont";
    ExampleLowered("The", " ", "Ecole", "  ", "Dupont");
  }

  /** `norm_name("Th\u00e9 \u00c9col\u00e9  Dupont") == "the ecole dupont"`. The string is given as its pieces,
      so that the verifier does not unfold the normaliser over a literal of seventeen characters. */
  lemma NormNameExample(a: string, b: string, c: string, d: string, e: string, f: string, g: string)
    requires a == "Th" && b == "\U{E9}" && c == " " && d == "\U{C9}" && e == "col" && f == "\U{E9}" && g == "  Dupont"
    ensures NormName(a + b + c + d + e + f + g) == "the ecole dupont"
  {
    ExampleTokens(a, b, c, d, e, f, g);
    NormNameOfThree(a + b + c + d + e + f + g, "the", "ecole", "dupont");
    SpacedExample();
  }

  /** The example's three words joined by single spaces. */
  lemma SpacedExample()
    ensures "the" + " " + "ecole" + " " + "dupont" == "the ecole dupont"
  {
  }

  /** A text with three tokens normalises to them, separated by single spaces. */
  lemma NormNameOfThree(s: string, w1: string, w2: string, w3: string)
    requires Tokens(s) == [w1, w2, w3]
    ensures NormName(s) == w1 + " " + w2 + " " + w3
  {
    NormNameIsJoinTokens(s);
    JoinThree(w1, w2, w3);
  }

  /** The tokens of the example: its three words, lower-cased and without accents. */
  lemma ExampleTokens(a: string, b: string, c: string, d: string, e: string, f: string, g: string)
    requires a == "Th" && b == "\U{E9}" && c == " " && d == "\U{C9}" && e == "col" && f == "\U{E9}" && g == "  Dupont"
    ensures Tokens(a + b + c + d + e + f + g) == ["the", "ecole", "dupont"]
  {
    ExampleFolded(a, b, c, d, e, f, g);
    ThreeTokens(a + b + c + d + e + f + g, "the", "ecole", "dupont", " ", "  ");
  }}
