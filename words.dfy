/** Splitting text into maximal runs of characters, joining with single spaces, and the canonical
    token form (`[a-z0-9]` tokens separated by single spaces) that both name normalisers produce. */
module Words {
  import opened Text

  /** Length of the longest prefix of `s` whose characters satisfy `p`. */
  function RunLen(s: string, p: char -> bool): (n: nat)
    ensures n <= |s|
    ensures forall i | 0 <= i < n :: p(s[i])
    ensures n < |s| ==> !p(s[n])
  {
    if s == [] || !p(s[0]) then 0 else 1 + RunLen(s[1..], p)
  }

  /** The three facts in `RunLen`'s contract determine it. */
  lemma RunLenUnique(s: string, p: char -> bool, m: nat)
    requires m <= |s|
    requires forall i | 0 <= i < m :: p(s[i])
    requires m < |s| ==> !p(s[m])
    ensures RunLen(s, p) == m
  {
  }

  /** The maximal runs of characters satisfying `p`, left to right. With `p == NotSpace`
      this is Python's `s.split()`. */
  function Runs(s: string, p: char -> bool): (ws: seq<string>)
    ensures forall k | 0 <= k < |ws| :: |ws[k]| > 0
    ensures forall k, i | 0 <= k < |ws| && 0 <= i < |ws[k]| :: p(ws[k][i])
    decreases |s|
  {
    if s == [] then []
    else if !p(s[0]) then Runs(s[1..], p)
    else
      var n := RunLen(s, p);
      [s[..n]] + Runs(s[n..], p)
  }

  /** `" ".join(ws)`. */
  function Join(ws: seq<string>): string {
    if ws == [] then "" else if |ws| == 1 then ws[0] else ws[0] + " " + Join(ws[1..])
  }

  /** Only `[a-z0-9]` tokens separated by single spaces, with no leading or trailing space. */
  predicate Canonical(s: string) {
    && (forall i | 0 <= i < |s| :: IsWordChar(s[i]) || s[i] == ' ')
    && (|s| > 0 ==> s[0] != ' ' && s[|s| - 1] != ' ')
    && (forall i, j | 0 <= i < |s| && 0 <= j < |s| && j == i + 1 :: !(s[i] == ' ' && s[j] == ' '))
  }

  /** A string with no `p`-character has no runs. */
  lemma {:induction false} RunsNone(v: string, p: char -> bool)
    requires forall i | 0 <= i < |v| :: !p(v[i])
    ensures Runs(v, p) == []
  {
    if v != [] {
      RunsNone(v[1..], p);
    }
  }

  /** A non-empty string made only of `p`-characters is a single run. */
  lemma RunsAll(w: string, p: char -> bool)
    requires |w| > 0
    requires forall i | 0 <= i < |w| :: p(w[i])
    ensures Runs(w, p) == [w]
  {
    RunLenUnique(w, p, |w|);
    assert w[..|w|] == w;
    assert Runs(w[|w|..], p) == [];
  }

  lemma AppendAssoc<T>(a: seq<T>, b: seq<T>, c: seq<T>)
    ensures a + (b + c) == (a + b) + c
  {
  }

  /** Cutting `u + v` inside `u`. */
  lemma SplitAppend<T>(u: seq<T>, v: seq<T>, n: nat)
    requires n <= |u|
    ensures (u + v)[..n] == u[..n] && (u + v)[n..] == u[n..] + v
  {
  }

  /** A leading run of `n` characters is the first run. */
  lemma RunsFirstRun(s: string, n: nat, p: char -> bool)
    requires 0 < n <= |s|
    requires forall i | 0 <= i < n :: p(s[i])
    requires n < |s| ==> !p(s[n])
    ensures Runs(s, p) == [s[..n]] + Runs(s[n..], p)
  {
    RunLenUnique(s, p, n);
  }

  /** A leading separator contributes nothing. */
  lemma RunsSpaceThen(rest: string, p: char -> bool)
    requires !p(' ')
    ensures Runs(" " + rest, p) == Runs(rest, p)
  {
    assert (" " + rest)[0] == ' ';
    assert (" " + rest)[1..] == rest;
  }

  /** Runs distribute over a concatenation as long as the seam is not inside a run. */
  lemma {:induction false} RunsAppend(u: string, v: string, p: char -> bool)
    requires u == [] || v == [] || !p(u[|u| - 1]) || !p(v[0])
    ensures Runs(u + v, p) == Runs(u, p) + Runs(v, p)
    decreases |u|
  {
    if u == [] {
      assert u + v == v;
    } else if !p(u[0]) {
      assert (u + v)[0] == u[0];
      assert (u + v)[1..] == u[1..] + v;
      RunsAppend(u[1..], v, p);
    } else {
      var n := RunLen(u, p);
      assert u[n..] != [] ==> u[n..][|u[n..]| - 1] == u[|u| - 1];
      RunsAppend(u[n..], v, p);
      RunsAppendRun(u, v, p, n);
    }
  }

  /** The step of `RunsAppend` when `u` starts with a run of length `n`. */
  lemma RunsAppendRun(u: string, v: string, p: char -> bool, n: nat)
    requires u == [] || v == [] || !p(u[|u| - 1]) || !p(v[0])
    requires u != [] && p(u[0]) && n == RunLen(u, p)
    requires Runs(u[n..] + v, p) == Runs(u[n..], p) + Runs(v, p)
    ensures Runs(u + v, p) == Runs(u, p) + Runs(v, p)
  {
    var uv := u + v;
    assert forall i | 0 <= i < n :: uv[i] == u[i];
    assert n < |uv| ==> !p(uv[n]) by {
      if n < |u| {
        assert uv[n] == u[n];
      } else if n < |uv| {
        assert p(u[|u| - 1]);
        assert uv[n] == v[0];
      }
    }
    assert n > 0;
    SplitAppend(u, v, n);
    RunsFirstRun(uv, n, p);
    RunsFirstRun(u, n, p);
    var w, x, y := [u[..n]], Runs(u[n..], p), Runs(v, p);
    calc {
      Runs(uv, p);
      w + Runs(u[n..] + v, p);
      w + (x + y);
      { AppendAssoc(w, x, y); }
      (w + x) + y;
      Runs(u, p) + y;
    }
  }

  /** Two strings that agree on where the runs are, and on the characters inside them, have the same runs. */
  lemma {:induction false} RunsAgree(s: string, p: char -> bool, u: string, q: char -> bool)
    requires |s| == |u|
    requires forall i | 0 <= i < |s| :: p(s[i]) == q(u[i])
    requires forall i | 0 <= i < |s| :: p(s[i]) ==> s[i] == u[i]
    ensures Runs(s, p) == Runs(u, q)
    decreases |s|
  {
    if s != [] {
      if !p(s[0]) {
        RunsAgree(s[1..], p, u[1..], q);
      } else {
        var n := RunLen(s, p);
        RunLenUnique(u, q, n);
        assert s[..n] == u[..n];
        RunsAgree(s[n..], p, u[n..], q);
      }
    }
  }

  /** Joining tokens of `[a-z0-9]` gives a canonical string. */
  lemma {:induction false} JoinCanonical(ws: seq<string>)
    requires forall k | 0 <= k < |ws| :: |ws[k]| > 0
    requires forall k, i | 0 <= k < |ws| && 0 <= i < |ws[k]| :: IsWordChar(ws[k][i])
    ensures Canonical(Join(ws))
    ensures ws != [] ==> |Join(ws)| > 0 && Join(ws)[0] == ws[0][0]
  {
    if |ws| > 1 {
      JoinCanonical(ws[1..]);
      var a, b := ws[0], Join(ws[1..]);
      var c := a + " " + b;
      assert forall i | 0 <= i < |a| :: c[i] == a[i];
      assert c[|a|] == ' ';
      assert forall i | |a| < i < |c| :: c[i] == b[i - |a| - 1];
    }
  }

  /** What follows the first token and its space in a canonical string is canonical. */
  lemma CanonicalTail(s: string, n: nat)
    requires Canonical(s) && n < |s| && s[n] == ' '
    ensures n + 1 < |s| && Canonical(s[n + 1..])
  {
    var rest := s[n + 1..];
    assert forall i | 0 <= i < |rest| :: rest[i] == s[n + 1 + i];
  }

  /** A run of word characters that ends at a space is the first token; the space starts nothing. */
  lemma RunsFirstToken(s: string, n: nat)
    requires 0 < n < |s| && n == RunLen(s, IsWordChar) && s[n] == ' '
    ensures Runs(s, IsWordChar) == [s[..n]] + Runs(s[n + 1..], IsWordChar)
  {
    assert s[n..][1..] == s[n + 1..];
    assert Runs(s[n..], IsWordChar) == Runs(s[n + 1..], IsWordChar);
  }

  /** Joining a first token onto a non-empty list adds one space. */
  lemma JoinCons(w: string, r: seq<string>)
    requires r != []
    ensures Join([w] + r) == w + " " + Join(r)
  {
    assert ([w] + r)[1..] == r;
  }

  /** A canonical string is the space-join of its own tokens. */
  lemma {:induction false} CanonicalJoinRuns(s: string)
    requires Canonical(s)
    ensures Join(Runs(s, IsWordChar)) == s
    decreases |s|
  {
    if s != [] {
      var n := RunLen(s, IsWordChar);
      if n == |s| {
        assert s[..n] == s && s[n..] == [];
      } else {
        assert s[n] == ' ' && s[0] != ' ';
        CanonicalTail(s, n);
        RunsFirstToken(s, n);
        var rest := s[n + 1..];
        CanonicalJoinRuns(rest);
        var r := Runs(rest, IsWordChar);
        assert r != [] by { assert |Join(r)| > 0; }
        JoinAround(s, n, r);
      }
    }
  }

  /** A string that splits at a space into a first token and the join of `r` is the join of the
      token followed by `r`. */
  lemma JoinAround(s: string, n: nat, r: seq<string>)
    requires n < |s| && s[n] == ' ' && r != [] && Join(r) == s[n + 1..]
    ensures Join([s[..n]] + r) == s
  {
    JoinCons(s[..n], r);
    assert s == s[..n] + " " + s[n + 1..];
  }

  /** `s.lstrip()`. */
  function TrimStart(s: string): (r: string)
    ensures |r| <= |s| && r == s[|s| - |r|..]
    ensures forall i | 0 <= i < |s| - |r| :: IsSpace(s[i])
    ensures r != [] ==> !IsSpace(r[0])
  {
    if s != [] && IsSpace(s[0]) then TrimStart(s[1..]) else s
  }

  /** `s.rstrip()`. */
  function TrimEnd(s: string): (r: string)
    ensures |r| <= |s| && r == s[..|r|]
    ensures forall i | |r| <= i < |s| :: IsSpace(s[i])
    ensures r != [] ==> !IsSpace(r[|r| - 1])
  {
    if s != [] && IsSpace(s[|s| - 1]) then TrimEnd(s[..|s| - 1]) else s
  }

  /** `s.strip()`. */
  function Strip(s: string): string {
    TrimEnd(TrimStart(s))
  }

  /** `re.sub(r"[^a-z0-9]+", " ", s)`: every maximal run of characters outside `[a-z0-9]` becomes one space. */
  function CollapseNonWord(s: string): (r: string)
    ensures forall i | 0 <= i < |r| :: IsWordChar(r[i]) || r[i] == ' '
    ensures forall i | 0 <= i < |r| - 1 :: !(r[i] == ' ' && r[i + 1] == ' ')
    ensures s != [] ==> r != [] && r[0] == (if IsWordChar(s[0]) then s[0] else ' ')
    decreases |s|
  {
    if s == [] then []
    else if IsWordChar(s[0]) then [s[0]] + CollapseNonWord(s[1..])
    else
      var n := RunLen(s, NotWordChar);
      " " + CollapseNonWord(s[n..])
  }

  /** A prefix of `[a-z0-9]` characters passes through the substitution unchanged. */
  lemma {:induction false} CollapseWordPrefix(s: string, k: nat)
    requires k <= |s|
    requires forall i | 0 <= i < k :: IsWordChar(s[i])
    ensures CollapseNonWord(s) == s[..k] + CollapseNonWord(s[k..])
  {
    if k > 0 {
      CollapseWordPrefix(s[1..], k - 1);
      assert s[1..][..k - 1] == s[1..k];
      assert s[1..][k - 1..] == s[k..];
      assert s[..k] == [s[0]] + s[1..k];
      AppendAssoc([s[0]], s[1..k], CollapseNonWord(s[k..]));
    }
  }

  /** A leading separator contributes no run. */
  lemma {:induction false} RunsSkipSeparators(s: string, n: nat)
    requires n <= |s|
    requires forall i | 0 <= i < n :: NotWordChar(s[i])
    ensures Runs(s, IsWordChar) == Runs(s[n..], IsWordChar)
  {
    if n > 0 {
      assert !IsWordChar(s[0]);
      RunsSkipSeparators(s[1..], n - 1);
      assert s[1..][n - 1..] == s[n..];
    }
  }

  /** The substitution changes the separators, never the tokens. */
  lemma {:induction false} CollapseRuns(s: string)
    ensures Runs(CollapseNonWord(s), IsWordChar) == Runs(s, IsWordChar)
    decreases |s|
  {
    if s != [] {
      if !IsWordChar(s[0]) {
        var n := RunLen(s, NotWordChar);
        CollapseRuns(s[n..]);
        RunsSkipSeparators(s, n);
        RunsSkipSeparators(" " + CollapseNonWord(s[n..]), 1);
        assert (" " + CollapseNonWord(s[n..]))[1..] == CollapseNonWord(s[n..]);
      } else {
        var m := RunLen(s, IsWordChar);
        CollapseWordPrefix(s, m);
        CollapseRuns(s[m..]);
        RunsAppend(s[..m], CollapseNonWord(s[m..]), IsWordChar);
        RunsAll(s[..m], IsWordChar);
      }
    }
  }

  /** Only `[a-z0-9]` characters and spaces, never two spaces in a row. */
  predicate Spaced(s: string) {
    && (forall i | 0 <= i < |s| :: IsWordChar(s[i]) || s[i] == ' ')
    && (forall i, j | 0 <= i < |s| && 0 <= j < |s| && j == i + 1 :: !(s[i] == ' ' && s[j] == ' '))
  }

  lemma SpacedSlice(x: string, a: nat, b: nat)
    requires Spaced(x) && a <= b <= |x|
    ensures Spaced(x[a..b])
  {
    var y := x[a..b];
    assert forall i | 0 <= i < |y| :: y[i] == x[a + i];
  }

  /** Stripping a string of tokens and single spaces leaves it canonical. */
  lemma StripSpacedCanonical(x: string)
    requires Spaced(x)
    ensures Canonical(Strip(x))
  {
    var t1 := TrimStart(x);
    SpacedSlice(x, |x| - |t1|, |x|);
    var t2 := TrimEnd(t1);
    SpacedSlice(t1, 0, |t2|);
  }

  lemma TrimStartRuns(x: string)
    ensures Runs(TrimStart(x), IsWordChar) == Runs(x, IsWordChar)
  {
    var t1 := TrimStart(x);
    var k := |x| - |t1|;
    assert x == x[..k] + t1;
    RunsAppend(x[..k], t1, IsWordChar);
    RunsNone(x[..k], IsWordChar);
  }

  lemma TrimEndRuns(t1: string)
    ensures Runs(TrimEnd(t1), IsWordChar) == Runs(t1, IsWordChar)
  {
    var t2 := TrimEnd(t1);
    var j := |t2|;
    assert t1 == t2 + t1[j..];
    RunsAppend(t2, t1[j..], IsWordChar);
    RunsNone(t1[j..], IsWordChar);
  }

  /** Stripping spaces from the ends does not change the tokens. */
  lemma StripRuns(x: string)
    ensures Runs(Strip(x), IsWordChar) == Runs(x, IsWordChar)
  {
    TrimStartRuns(x);
    TrimEndRuns(TrimStart(x));
  }

  /** Splitting a space-join of non-empty `p`-tokens gives the tokens back, when a space is not `p`. */
  lemma {:induction false} RunsJoin(ws: seq<string>, p: char -> bool)
    requires !p(' ')
    requires forall k | 0 <= k < |ws| :: |ws[k]| > 0
    requires forall k, i | 0 <= k < |ws| && 0 <= i < |ws[k]| :: p(ws[k][i])
    ensures Runs(Join(ws), p) == ws
  {
    if |ws| == 1 {
      RunsAll(ws[0], p);
    } else if |ws| > 1 {
      var rest := Join(ws[1..]);
      RunsJoin(ws[1..], p);
      assert Join(ws) == ws[0] + (" " + rest);
      assert (" " + rest)[0] == ' ';
      RunsAppend(ws[0], " " + rest, p);
      RunsAll(ws[0], p);
      RunsSpaceThen(rest, p);
      assert ws == [ws[0]] + ws[1..];
    }
  }

  /** Three tokens with separators between them split back into those three tokens. */
  lemma RunsOfThree(w1: string, w2: string, w3: string, sp: string, sp2: string)
    requires |w1| > 0 && |w2| > 0 && |w3| > 0 && |sp| > 0 && |sp2| > 0
    requires forall i | 0 <= i < |w1| :: IsWordChar(w1[i])
    requires forall i | 0 <= i < |w2| :: IsWordChar(w2[i])
    requires forall i | 0 <= i < |w3| :: IsWordChar(w3[i])
    requires forall i | 0 <= i < |sp| :: !IsWordChar(sp[i])
    requires forall i | 0 <= i < |sp2| :: !IsWordChar(sp2[i])
    ensures Runs(w1 + sp + w2 + sp2 + w3, IsWordChar) == [w1, w2, w3]
  {
    RunsAppend(w1 + sp + w2 + sp2, w3, IsWordChar);
    RunsAppend(w1 + sp + w2, sp2, IsWordChar);
    RunsAppend(w1 + sp, w2, IsWordChar);
    RunsAppend(w1, sp, IsWordChar);
    RunsAll(w1, IsWordChar);
    RunsAll(w2, IsWordChar);
    RunsAll(w3, IsWordChar);
    RunsNone(sp, IsWordChar);
    RunsNone(sp2, IsWordChar);
  }

  /** Three tokens joined by single spaces. */
  lemma JoinThree(w1: string, w2: string, w3: string)
    ensures Join([w1, w2, w3]) == w1 + " " + w2 + " " + w3
  {
    assert [w1, w2, w3][1..] == [w2, w3];
    assert [w2, w3][1..] == [w3];
    assert Join([w2, w3]) == w2 + " " + w3;
    assert Join([w1, w2, w3]) == w1 + " " + (w2 + " " + w3);
  }}
