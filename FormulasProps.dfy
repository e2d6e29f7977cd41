/**
 * What the engine's string helpers promise: the alphabet of a normalized
 * formula, the text normalization leaves alone, the shape of the greedy
 * splits, the round trip of the quantifier pattern, whole-identifier
 * substitution, alpha-equivalence under renaming of the bound variable,
 * and the identifiers the instance test tries.
 */
module FormulasProps {
  import opened Wrappers
  import opened Text
  import opened Tokens
  import opened Formulas

  // ---------------------------------------------------------------------
  // normalizeFormula
  // ---------------------------------------------------------------------

  /** A character neither white space nor one of the aliases `normalizeFormula` rewrites. */
  predicate IsNormalChar(c: char) {
    !IsSpace(c) && !IsEngineAlias(c)
  }

  /** Every character of a normalized formula is free of white space and aliases. */
  lemma NormalizedAlphabet(f: Option<string>)
    ensures forall k :: 0 <= k < |NormalizeFormula(f)| ==> IsNormalChar(NormalizeFormula(f)[k])
  {
    forall k | 0 <= k < |NormalizeFormula(f)| ensures IsNormalChar(NormalizeFormula(f)[k]) {
      NormalizedChar(f, NormalizeFormula(f)[k]);
    }
  }

  /** One character of a normalized formula, traced back through the stages. */
  lemma NormalizedChar(f: Option<string>, c: char)
    requires c in NormalizeFormula(f)
    ensures IsNormalChar(c)
  {
    ChainChar(f.value, c);
  }

  /** The same, for the replacement chain on a present formula. */
  lemma ChainChar(s: string, c: char)
    requires c in EngineChain(s)
    ensures IsNormalChar(c)
  {
    var s0 := StripSpaces(s);
    var s3 := EngineStage3(EngineStage2(EngineStage1(s0)));
    LaterStagesChars(s3, c);
    if c in s3 {
      EarlyStagesChars(s0, c);
    }
  }

  /** Through the first three stages. */
  lemma EarlyStagesChars(s: string, c: char)
    requires c in EngineStage3(EngineStage2(EngineStage1(s)))
    ensures c != '∧' && c != '&' && c != '→' && c != '∨'
    ensures c in s || IsNormalChar(c)
  {
    var s1 := EngineStage1(s);
    var s2 := EngineStage2(s1);
    Stage3Chars(s2, c);
    if c in s2 {
      Stage2Chars(s1, c);
      if c in s1 {
        Stage1Chars(s, c);
      }
    }
  }

  /** Through the last four stages. */
  lemma LaterStagesChars(s: string, c: char)
    requires c in EngineStage7(EngineStage6(EngineStage5(EngineStage4(s))))
    ensures c != '↔' && c != '¬' && c != '~' && c != '∀' && c != '∃'
    ensures c in s || IsNormalChar(c)
  {
    var s4 := EngineStage4(s);
    var s5 := EngineStage5(s4);
    var s6 := EngineStage6(s5);
    Stage7Chars(s6, c);
    if c in s6 {
      Stage6Chars(s5, c);
      if c in s5 {
        Stage5Chars(s4, c);
        if c in s4 {
          Stage4Chars(s, c);
        }
      }
    }
  }

  // Where a character of each stage's result comes from.

  lemma Stage1Chars(s: string, c: char)
    requires c in EngineStage1(s)
    ensures c == '^' || (c in s && c != '∧' && c != '&')
  {
    ReplaceAllChars(s, ["∧", "&"], "^", c);
  }

  lemma Stage2Chars(s: string, c: char)
    requires c in EngineStage2(s)
    ensures c == '-' || c == '>' || (c in s && c != '→')
  {
    ReplaceAllChars(s, ["→", "=>"], "->", c);
  }

  lemma Stage3Chars(s: string, c: char)
    requires c in EngineStage3(s)
    ensures c == 'v' || (c in s && c != '∨')
  {
    ReplaceAllChars(s, ["∨", "||"], "v", c);
  }

  lemma Stage4Chars(s: string, c: char)
    requires c in EngineStage4(s)
    ensures c == '<' || c == '-' || c == '>' || (c in s && c != '↔')
  {
    ReplaceAllChars(s, ["↔", "<=>"], "<->", c);
  }

  lemma Stage5Chars(s: string, c: char)
    requires c in EngineStage5(s)
    ensures c == '!' || (c in s && c != '¬' && c != '~')
  {
    ReplaceAllChars(s, ["¬", "~"], "!", c);
  }

  lemma Stage6Chars(s: string, c: char)
    requires c in EngineStage6(s)
    ensures IsAsciiLetter(c) || (c in s && c != '∀')
  {
    ReplaceAllChars(s, ["∀"], "forall", c);
  }

  lemma Stage7Chars(s: string, c: char)
    requires c in EngineStage7(s)
    ensures IsAsciiLetter(c) || (c in s && c != '∃')
  {
    ReplaceAllChars(s, ["∃"], "exists", c);
  }

  /** A normalized formula has no line terminator, so every `.` of a pattern matches in it. */
  lemma NormalizedDotChars(f: Option<string>)
    ensures AllDotChars(NormalizeFormula(f))
  {
    NormalizedAlphabet(f);
  }

  /** A replacement stage each of whose patterns holds a character plain text lacks. */
  lemma PlainStage(s: string, pats: seq<string>, rep: string, ms: seq<nat>)
    requires IsPlain(s)
    requires |ms| == |pats|
    requires forall j :: 0 <= j < |pats| ==> ms[j] < |pats[j]|
    requires forall j :: 0 <= j < |pats| ==> var d := pats[j][ms[j]]; IsEngineAlias(d) || d == '=' || d == '|'
    ensures ReplaceAll(s, pats, rep) == s
  {
    forall j | 0 <= j < |pats| ensures forall i :: 0 <= i < |s| ==> !StartsWithAt(s, pats[j], i) {
      NoStartsWith(s, pats[j], ms[j]);
    }
    ReplaceAllNoMatch(s, pats, rep);
  }

  // Each stage leaves plain text alone.

  lemma PlainStage1(s: string) requires IsPlain(s) ensures EngineStage1(s) == s {
    PlainStage(s, ["∧", "&"], "^", [0, 0]);
  }

  lemma PlainStage2(s: string) requires IsPlain(s) ensures EngineStage2(s) == s {
    PlainStage(s, ["→", "=>"], "->", [0, 0]);
  }

  lemma PlainStage3(s: string) requires IsPlain(s) ensures EngineStage3(s) == s {
    PlainStage(s, ["∨", "||"], "v", [0, 0]);
  }

  lemma PlainStage4(s: string) requires IsPlain(s) ensures EngineStage4(s) == s {
    PlainStage(s, ["↔", "<=>"], "<->", [0, 1]);
  }

  lemma PlainStage5(s: string) requires IsPlain(s) ensures EngineStage5(s) == s {
    PlainStage(s, ["¬", "~"], "!", [0, 0]);
  }

  lemma PlainStage6(s: string) requires IsPlain(s) ensures EngineStage6(s) == s {
    PlainStage(s, ["∀"], "forall", [0]);
  }

  lemma PlainStage7(s: string) requires IsPlain(s) ensures EngineStage7(s) == s {
    PlainStage(s, ["∃"], "exists", [0]);
  }

  /** Plain text is its own normal form. */
  lemma NormalizePlain(s: string)
    requires IsPlain(s)
    ensures NormalizeFormula(Some(s)) == s
  {
    PlainStage1(s);
    PlainStage2(s);
    PlainStage3(s);
    PlainStage4(s);
    PlainStage5(s);
    PlainStage6(s);
    PlainStage7(s);
  }

  /** A missing formula and an empty one both normalize to the empty string. */
  lemma NormalizeMissing()
    ensures NormalizeFormula(None) == [] && NormalizeFormula(Some([])) == []
  {
  }

  // ---------------------------------------------------------------------
  // The greedy splits
  // ---------------------------------------------------------------------

  /**
   * A successful split: the formula is `(l OP r)` with both groups
   * non-empty, and `op` occurs at no later place that would still leave
   * the second group non-empty.
   */
  lemma SplitOuterSound(f: string, op: string, l: string, r: string)
    requires |op| > 0 && SplitOuter(f, op) == Some((l, r))
    ensures f == "(" + l + op + r + ")" && f[1..|f| - 1] == l + op + r
    ensures |l| > 0 && |r| > 0 && AllDotChars(l + op + r)
    ensures forall q :: |l| + 1 < q <= |f| - 2 - |op| ==> !StartsWithAt(f, op, q)
  {
    var p := LastAt(f, op, |f| - 2 - |op|);
    assert f[p..p + |op|] == op;
    assert f == [f[0]] + f[1..p] + f[p..p + |op|] + f[p + |op|..|f| - 1] + [f[|f| - 1]];
    assert f[1..|f| - 1] == l + op + r;
  }

  /** Every text of the form `(l OP r)` with non-empty groups splits. */
  lemma SplitOuterComplete(f: string, op: string, l: string, r: string)
    requires |op| > 0 && f == "(" + l + op + r + ")"
    requires |l| > 0 && |r| > 0 && AllDotChars(l + op + r)
    ensures SplitOuter(f, op).Some?
  {
    var p := |l| + 1;
    assert StartsWithAt(f, op, p) by {
      forall k | 0 <= k < |op| ensures f[p + k] == op[k] {
        assert f[p + k] == (l + op + r)[|l| + k];
      }
    }
    assert f[1..|f| - 1] == l + op + r;
  }

  /** Around a `^`, the parenthesis-free text is split into parenthesis-free parts. */
  lemma NoParensJoin(a: string, b: string)
    ensures NoParens(a + "^" + b) <==> NoParens(a) && NoParens(b)
  {
    var t := a + "^" + b;
    if NoParens(t) {
      forall j | 0 <= j < |a| ensures a[j] != '(' && a[j] != ')' {
        assert a[j] == t[j];
      }
      forall j | 0 <= j < |b| ensures b[j] != '(' && b[j] != ')' {
        assert b[j] == t[|a| + 1 + j];
      }
    }
    if NoParens(a) && NoParens(b) {
      forall j | 0 <= j < |t| ensures t[j] != '(' && t[j] != ')' {
        if j < |a| {
          assert t[j] == a[j];
        } else if j > |a| {
          assert t[j] == b[j - |a| - 1];
        }
      }
    }
  }

  /** `isConjunction`'s pattern implies the greedy split, with parenthesis-free parts. */
  lemma ConjunctionSplits(f: string)
    requires AllDotChars(f) && IsConjunctionText(f)
    ensures SplitOuter(f, "^").Some?
    ensures NoParens(SplitOuter(f, "^").value.0) && NoParens(SplitOuter(f, "^").value.1)
  {
    var k :| 2 <= k <= |f| - 3 && f[k] == '^';
    assert StartsWithAt(f, "^", k);
    assert AllDotChars(f[1..|f| - 1]);
    assert LastAt(f, "^", |f| - 3) >= 2;
    var sp := SplitOuter(f, "^").value;
    SplitOuterSound(f, "^", sp.0, sp.1);
    NoParensJoin(sp.0, sp.1);
  }

  /** A greedy split into parenthesis-free parts satisfies `isConjunction`'s pattern. */
  lemma SplitIsConjunction(f: string)
    requires SplitOuter(f, "^").Some?
    requires NoParens(SplitOuter(f, "^").value.0) && NoParens(SplitOuter(f, "^").value.1)
    ensures IsConjunctionText(f)
  {
    var sp := SplitOuter(f, "^").value;
    SplitOuterSound(f, "^", sp.0, sp.1);
    NoParensJoin(sp.0, sp.1);
    assert f[|sp.0| + 1] == '^';
  }

  /**
   * On text without line terminators, `isConjunction`'s pattern holds
   * exactly when the greedy split succeeds with both parts free of
   * parentheses.
   */
  lemma ConjunctionTextIffSplit(f: string)
    requires AllDotChars(f)
    ensures IsConjunctionText(f) <==>
      (SplitOuter(f, "^").Some? && NoParens(SplitOuter(f, "^").value.0) && NoParens(SplitOuter(f, "^").value.1))
  {
    if IsConjunctionText(f) {
      ConjunctionSplits(f);
    }
    if SplitOuter(f, "^").Some? && NoParens(SplitOuter(f, "^").value.0) && NoParens(SplitOuter(f, "^").value.1) {
      SplitIsConjunction(f);
    }
  }

  /** `^!(.+)$` takes off exactly one leading `!`. */
  lemma NegatedTextShape(s: string)
    ensures NegatedText(s).Some? <==> |s| >= 2 && s[0] == '!' && AllDotChars(s[1..])
    ensures NegatedText(s).Some? ==> s == "!" + NegatedText(s).value
  {
  }

  // ---------------------------------------------------------------------
  // Quantified formulas
  // ---------------------------------------------------------------------

  /** Writing a quantified formula out and matching it gives it back. */
  lemma QuantifierRoundTrip(x: Quantified, nonEmpty: bool)
    requires IsAsciiLetter(x.v) && AllDotChars(x.body) && (nonEmpty ==> |x.body| > 0)
    ensures MatchQuantifier(QuantifiedText(x), x.kind, nonEmpty) == Some(x)
  {
    var w := QuantifierWord(x.kind);
    var s := QuantifiedText(x);
    assert s[..|w|] == w;
    assert s[|w|] == x.v && s[|w| + 1] == '(';
    assert s[|w| + 2..|s| - 1] == x.body;
  }

  /** A match is the written-out form of what it returns. */
  lemma QuantifierMatchShape(s: string, q: Quantifier, nonEmpty: bool)
    requires MatchQuantifier(s, q, nonEmpty).Some?
    ensures MatchQuantifier(s, q, nonEmpty).value.kind == q
    ensures s == QuantifiedText(MatchQuantifier(s, q, nonEmpty).value)
    ensures IsAsciiLetter(MatchQuantifier(s, q, nonEmpty).value.v)
  {
    var w := QuantifierWord(q);
    var x := MatchQuantifier(s, q, nonEmpty).value;
    assert s == s[..|w|] + [s[|w|]] + [s[|w| + 1]] + s[|w| + 2..|s| - 1] + [s[|s| - 1]];
  }

  /** No text matches both quantifier patterns, so trying `forall` first decides nothing. */
  lemma QuantifierKindsExclusive(s: string, a: bool, b: bool)
    ensures !(MatchQuantifier(s, Forall, a).Some? && MatchQuantifier(s, Exists, b).Some?)
  {
    if MatchQuantifier(s, Forall, a).Some? {
      assert s[..6][0] == s[0];
    }
  }

  /** Plain text joined to plain text is plain. */
  lemma PlainConcat(a: string, b: string)
    requires IsPlain(a) && IsPlain(b)
    ensures IsPlain(a + b)
  {
    var t := a + b;
    forall k | 0 <= k < |t| ensures !IsSpace(t[k]) && !IsEngineAlias(t[k]) && t[k] != '=' && t[k] != '|' {
      if k < |a| {
        assert t[k] == a[k];
      } else {
        assert t[k] == b[k - |a|];
      }
    }
  }

  /** A text of ASCII letters, digits, `_` and parentheses is plain. */
  lemma AsciiPlain(s: string)
    requires forall k :: 0 <= k < |s| ==> IsWordChar(s[k]) || s[k] == '(' || s[k] == ')'
    ensures IsPlain(s)
  {
  }

  /** The written-out form of a quantified formula with a plain body is plain. */
  lemma QuantifiedTextPlain(x: Quantified)
    requires IsAsciiLetter(x.v) && IsPlain(x.body)
    ensures IsPlain(QuantifiedText(x))
  {
    var w := QuantifierWord(x.kind);
    AsciiPlain(w + [x.v] + "(");
    AsciiPlain(")");
    PlainConcat(w + [x.v] + "(", x.body);
    PlainConcat(w + [x.v] + "(" + x.body, ")");
  }

  /** Text that matches one quantifier pattern is recognised as that quantifier. */
  lemma MatchEitherQuantifierOf(s: string, x: Quantified)
    requires MatchQuantifier(s, x.kind, false) == Some(x)
    ensures MatchEitherQuantifier(s) == Some(x)
  {
    QuantifierKindsExclusive(s, false, false);
  }

  /** A plain quantified formula is recognised as itself. */
  lemma ParseQuantifiedPlain(x: Quantified)
    requires IsAsciiLetter(x.v) && IsPlain(x.body)
    ensures ParseQuantified(Some(QuantifiedText(x))) == Some(x)
  {
    var s := QuantifiedText(x);
    QuantifiedTextPlain(x);
    NormalizePlain(s);
    QuantifierRoundTrip(x, false);
    MatchEitherQuantifierOf(s, x);
  }

  // ---------------------------------------------------------------------
  // replaceVar and alphaEqual
  // ---------------------------------------------------------------------

  /** Where no occurrence stands alone from `i` on, nothing is replaced. */
  lemma {:induction false} ReplaceVarFromAbsent(s: string, v: char, term: string, i: nat)
    requires i <= |s|
    requires forall k :: i <= k < |s| ==> !FreeAt(s, v, k)
    ensures ReplaceVarFrom(s, v, term, i) == s[i..]
    decreases |s| - i
  {
    if i < |s| {
      ReplaceVarFromAbsent(s, v, term, i + 1);
      assert s[i..] == [s[i]] + s[i + 1..];
    }
  }

  /** Replacing the variable by itself changes nothing. */
  lemma {:induction false} ReplaceVarFromSelf(s: string, v: char, i: nat)
    requires i <= |s|
    ensures ReplaceVarFrom(s, v, [v], i) == s[i..]
    decreases |s| - i
  {
    if i < |s| {
      ReplaceVarFromSelf(s, v, i + 1);
      assert s[i..] == [s[i]] + s[i + 1..];
    }
  }

  lemma ReplaceVarSelf(s: string, v: char)
    ensures ReplaceVar(s, v, [v]) == s
  {
    ReplaceVarFromSelf(s, v, 0);
  }

  /** The variable on its own is replaced by the term. */
  lemma ReplaceVarAlone(v: char, term: string)
    ensures ReplaceVar([v], v, term) == term
  {
    assert FreeAt([v], v, 0);
    assert ReplaceVarFrom([v], v, term, 1) == [];
  }

  /**
   * Only whole identifiers are replaced: an identifier other than the
   * variable, such as `xy` or `y` for `x`, is left as it is.
   */
  lemma ReplaceVarOtherIdentifier(t: string, v: char, term: string)
    requires IsIdentifier(t) && t != [v]
    ensures ReplaceVar(t, v, term) == t
  {
    forall k | 0 <= k < |t| ensures !FreeAt(t, v, k) {
      if |t| == 1 {
        assert t == [t[0]];
      } else if k == 0 {
        assert IsWordChar(t[1]);
      } else {
        assert IsWordChar(t[k - 1]) || k - 1 == 0;
      }
    }
    ReplaceVarFromAbsent(t, v, term, 0);
  }

  /** Replacing by one character keeps every position: a position-wise description. */
  lemma {:induction false} ReplaceVarFromChar(s: string, v: char, c: char, i: nat)
    requires i <= |s|
    ensures |ReplaceVarFrom(s, v, [c], i)| == |s| - i
    ensures forall j :: 0 <= j < |s| - i ==>
      ReplaceVarFrom(s, v, [c], i)[j] == (if FreeAt(s, v, i + j) then c else s[i + j])
    decreases |s| - i
  {
    if i < |s| {
      ReplaceVarFromChar(s, v, c, i + 1);
      var rest := ReplaceVarFrom(s, v, [c], i + 1);
      var r := ReplaceVarFrom(s, v, [c], i);
      assert r == (if FreeAt(s, v, i) then [c] else [s[i]]) + rest;
      forall j | 0 <= j < |s| - i ensures r[j] == (if FreeAt(s, v, i + j) then c else s[i + j]) {
        if j > 0 {
          assert r[j] == rest[j - 1];
          assert i + 1 + (j - 1) == i + j;
        }
      }
    }
  }

  /** Two replacements that agree on where they act, and elsewhere on the text, agree. */
  lemma {:induction false} ReplaceVarFromCongruent(s1: string, v1: char, s2: string, v2: char, term: string, i: nat)
    requires |s1| == |s2| && i <= |s1|
    requires forall k :: i <= k < |s1| ==> FreeAt(s1, v1, k) == FreeAt(s2, v2, k)
    requires forall k :: i <= k < |s1| && !FreeAt(s1, v1, k) ==> s1[k] == s2[k]
    ensures ReplaceVarFrom(s1, v1, term, i) == ReplaceVarFrom(s2, v2, term, i)
    decreases |s1| - i
  {
    if i < |s1| {
      ReplaceVarFromCongruent(s1, v1, s2, v2, term, i + 1);
    }
  }

  /**
   * Renaming the bound variable `x` to a letter `y` that is not free in
   * the body gives a body that `alphaEqual` renames to the same text.
   */
  lemma RenameBody(body: string, x: char, y: char)
    requires IsAsciiLetter(x) && IsAsciiLetter(y)
    requires forall k :: 0 <= k < |body| ==> !FreeAt(body, y, k)
    ensures ReplaceVar(ReplaceVar(body, x, [y]), y, BoundName) == ReplaceVar(body, x, BoundName)
  {
    var renamed := ReplaceVar(body, x, [y]);
    ReplaceVarFromChar(body, x, y, 0);
    assert |renamed| == |body|;
    forall j | 0 <= j < |body| ensures renamed[j] == (if FreeAt(body, x, j) then y else body[j]) {
      assert renamed[j] == ReplaceVarFrom(body, x, [y], 0)[j];
    }
    forall k | 0 <= k < |body|
      ensures FreeAt(renamed, y, k) == FreeAt(body, x, k) && (!FreeAt(body, x, k) ==> renamed[k] == body[k])
    {
      RenameAt(body, renamed, x, y, k);
    }
    ReplaceVarFromCongruent(renamed, y, body, x, BoundName, 0);
  }

  /** One position of RenameBody. */
  lemma RenameAt(body: string, renamed: string, x: char, y: char, k: nat)
    requires IsAsciiLetter(x) && IsAsciiLetter(y)
    requires |renamed| == |body| && k < |body| && !FreeAt(body, y, k)
    requires forall j :: 0 <= j < |body| ==> renamed[j] == (if FreeAt(body, x, j) then y else body[j])
    ensures FreeAt(renamed, y, k) == FreeAt(body, x, k) && (!FreeAt(body, x, k) ==> renamed[k] == body[k])
  {
    if k > 0 {
      assert IsWordChar(renamed[k - 1]) == IsWordChar(body[k - 1]);
    }
    if k + 1 < |body| {
      assert IsWordChar(renamed[k + 1]) == IsWordChar(body[k + 1]);
    }
  }

  /** `alphaEqual` holds of every formula and itself. */
  lemma AlphaEqualReflexive(a: Option<string>)
    ensures AlphaEqual(a, a)
  {
  }

  /** `alphaEqual` does not depend on the order of its arguments. */
  lemma AlphaEqualSymmetric(a: Option<string>, b: Option<string>)
    ensures AlphaEqual(a, b) == AlphaEqual(b, a)
  {
  }

  /** Renaming to a letter keeps plain text plain. */
  lemma RenamedPlain(body: string, x: char, y: char)
    requires IsPlain(body) && IsAsciiLetter(y)
    ensures IsPlain(ReplaceVar(body, x, [y]))
  {
    var renamed := ReplaceVar(body, x, [y]);
    ReplaceVarFromChar(body, x, y, 0);
    forall j | 0 <= j < |renamed|
      ensures !IsSpace(renamed[j]) && !IsEngineAlias(renamed[j]) && renamed[j] != '=' && renamed[j] != '|'
    {
      assert renamed[j] == ReplaceVarFrom(body, x, [y], 0)[j];
    }
  }

  /** Two normalized quantified formulas of one kind whose renamed bodies agree are alpha-equal. */
  lemma AlphaEqualOfQuantified(fa: string, fb: string, a: Quantified, b: Quantified)
    requires NormalizeFormula(Some(fa)) == fa && NormalizeFormula(Some(fb)) == fb
    requires ParseQuantified(Some(fa)) == Some(a) && ParseQuantified(Some(fb)) == Some(b)
    requires a.kind == b.kind && ReplaceVar(a.body, a.v, BoundName) == ReplaceVar(b.body, b.v, BoundName)
    ensures AlphaEqual(Some(fa), Some(fb))
  {
  }

  /**
   * Alpha-equivalence: `Qx(P)` and `Qy(P[x := y])` are alpha-equal when
   * `y` is not free in `P` and `P` is plain, as for `forallx(P^x)` and
   * `forally(P^y)`.
   */
  lemma AlphaEqualRenamed(q: Quantifier, x: char, y: char, body: string)
    requires IsAsciiLetter(x) && IsAsciiLetter(y) && IsPlain(body)
    requires forall k :: 0 <= k < |body| ==> !FreeAt(body, y, k)
    ensures AlphaEqual(Some(QuantifiedText(Quantified(q, x, body))),
                       Some(QuantifiedText(Quantified(q, y, ReplaceVar(body, x, [y])))))
  {
    var a := Quantified(q, x, body);
    var b := Quantified(q, y, ReplaceVar(body, x, [y]));
    RenamedPlain(body, x, y);
    QuantifiedTextPlain(a);
    QuantifiedTextPlain(b);
    NormalizePlain(QuantifiedText(a));
    NormalizePlain(QuantifiedText(b));
    ParseQuantifiedPlain(a);
    ParseQuantifiedPlain(b);
    RenameBody(body, x, y);
    AlphaEqualOfQuantified(QuantifiedText(a), QuantifiedText(b), a, b);
  }

  // ---------------------------------------------------------------------
  // extractIdentifiers
  // ---------------------------------------------------------------------

  /** No element occurs twice. */
  predicate Distinct(ids: seq<string>) {
    forall a, b :: 0 <= a < b < |ids| ==> ids[a] != ids[b]
  }

  /**
   * The set the loop builds: what it started from, then every match that
   * is not a quantifier word, each once and in first-insertion order.
   */
  lemma {:induction false} CollectIdentifiersSpec(ms: seq<string>, ids: seq<string>)
    ensures forall t :: t in CollectIdentifiers(ms, ids) <==> t in ids || (t in ms && !IsQuantifierWord(t))
    ensures Distinct(ids) ==> Distinct(CollectIdentifiers(ms, ids))
    ensures ids <= CollectIdentifiers(ms, ids)
    decreases |ms|
  {
    if ms != [] {
      var next := AddIdentifier(ids, ms[0]);
      CollectIdentifiersSpec(ms[1..], next);
      assert ms == [ms[0]] + ms[1..];
    }
  }

  /**
   * `extractIdentifiers(s)` holds exactly the identifiers that occur in
   * `s` as maximal matches, other than `forall` and `exists`, each once.
   */
  lemma IdentifiersOfSpec(s: string)
    ensures forall t :: t in IdentifiersOf(s) <==> t in IdentMatches(s, 0) && !IsQuantifierWord(t)
    ensures forall t :: t in IdentifiersOf(s) ==> IsIdentifier(t)
    ensures Distinct(IdentifiersOf(s))
  {
    CollectIdentifiersSpec(IdentMatches(s, 0), []);
  }

  /**
   * The global match, scanning from `i`, finds the identifier that starts
   * at a letter `p` which does not continue a word.
   */
  lemma {:induction false} ScannerReaches(s: string, i: nat, p: nat)
    requires i <= p < |s| && IsAsciiLetter(s[p])
    requires p == i || !IsWordChar(s[p - 1])
    ensures s[p..IdentEnd(s, p + 1)] in IdentMatches(s, i)
    decreases p - i
  {
    if i < p {
      if IsAsciiLetter(s[i]) {
        var e := IdentEnd(s, i + 1);
        assert e <= p - 1;
        ScannerReaches(s, e, p);
      } else {
        ScannerReaches(s, i + 1, p);
      }
    }
  }

  // ---------------------------------------------------------------------
  // isInstanceOf
  // ---------------------------------------------------------------------

  /** What `replaceVar` puts in place of position `j`. */
  function Piece(s: string, v: char, term: string, j: nat): string
    requires j < |s|
  {
    if FreeAt(s, v, j) then term else [s[j]]
  }

  /** The replacement of the positions from `j` up to `i`. */
  function ReplacedRange(s: string, v: char, term: string, j: nat, i: nat): string
    requires j <= i <= |s|
    decreases i - j
  {
    if i == j then [] else ReplacedRange(s, v, term, j, i - 1) + Piece(s, v, term, i - 1)
  }

  /** The replacement splits at any position. */
  lemma {:induction false} ReplaceVarSplit(s: string, v: char, term: string, j: nat, i: nat)
    requires j <= i <= |s|
    ensures ReplaceVarFrom(s, v, term, j) == ReplacedRange(s, v, term, j, i) + ReplaceVarFrom(s, v, term, i)
    decreases i - j
  {
    if j < i {
      ReplaceVarSplit(s, v, term, j, i - 1);
      assert ReplaceVarFrom(s, v, term, i - 1) == Piece(s, v, term, i - 1) + ReplaceVarFrom(s, v, term, i);
    }
  }

  /** Substituting plain text into plain text gives plain text. */
  lemma {:induction false} ReplaceVarFromPlain(s: string, v: char, term: string, i: nat)
    requires IsPlain(s) && IsPlain(term)
    ensures IsPlain(ReplaceVarFrom(s, v, term, i))
    decreases |s| - i
  {
    if i < |s| {
      ReplaceVarFromPlain(s, v, term, i + 1);
      PlainConcat(Piece(s, v, term, i), ReplaceVarFrom(s, v, term, i + 1));
    }
  }

  /** Just before a free occurrence, the replacement ends in a character that is no word character. */
  lemma BeforeOccurrence(b: string, v: char, t: string, i: nat)
    requires IsAsciiLetter(v) && FreeAt(b, v, i)
    ensures var pre := ReplacedRange(b, v, t, 0, i);
            i == 0 || (|pre| > 0 && !IsWordChar(pre[|pre| - 1]))
  {
    if i > 0 {
      assert !FreeAt(b, v, i - 1);
      assert ReplacedRange(b, v, t, 0, i) == ReplacedRange(b, v, t, 0, i - 1) + [b[i - 1]];
    }
  }

  /** Just after a free occurrence, the replacement resumes with a character that is no word character. */
  lemma AfterOccurrence(b: string, v: char, t: string, i: nat)
    requires IsAsciiLetter(v) && FreeAt(b, v, i)
    ensures var post := ReplaceVarFrom(b, v, t, i + 1);
            post == [] || !IsWordChar(post[0])
  {
    if i + 1 < |b| {
      assert !FreeAt(b, v, i + 1);
      assert ReplaceVarFrom(b, v, t, i + 1) == [b[i + 1]] + ReplaceVarFrom(b, v, t, i + 2);
    }
  }

  /** An identifier standing between two non-word characters is one whole match. */
  lemma IdentifierBetween(pre: string, t: string, post: string)
    requires IsIdentifier(t)
    requires pre == [] || !IsWordChar(pre[|pre| - 1])
    requires post == [] || !IsWordChar(post[0])
    ensures t in IdentMatches(pre + t + post, 0)
  {
    var target := pre + t + post;
    var p, e := |pre|, |pre| + |t|;
    Surrounded(pre, t, post);
    IdentEndAt(target, p + 1, e);
    ScannerReaches(target, 0, p);
  }

  /** Where the middle part of `pre + t + post` sits, and its neighbours. */
  lemma Surrounded(pre: string, t: string, post: string)
    requires |t| > 0
    ensures var s, p, e := pre + t + post, |pre|, |pre| + |t|;
      e <= |s| && s[p..e] == t && (forall k :: p <= k < e ==> s[k] == t[k - p])
      && (e < |s| ==> s[e] == post[0]) && (p > 0 ==> s[p - 1] == pre[p - 1])
  {
    var s, p, e := pre + t + post, |pre|, |pre| + |t|;
    assert s == pre + (t + post);
    assert s[p..e] == t;
  }

  /**
   * Putting an identifier in place of a free occurrence of a letter makes
   * that identifier one of the matches of the result.
   */
  lemma SubstitutedOccurrence(b: string, v: char, t: string, i: nat)
    requires IsAsciiLetter(v) && IsIdentifier(t) && FreeAt(b, v, i)
    ensures t in IdentMatches(ReplaceVar(b, v, t), 0)
  {
    OccurrenceSplit(b, v, t, i);
    BeforeOccurrence(b, v, t, i);
    AfterOccurrence(b, v, t, i);
    IdentifierBetween(ReplacedRange(b, v, t, 0, i), t, ReplaceVarFrom(b, v, t, i + 1));
  }

  /** The replacement around one free occurrence. */
  lemma OccurrenceSplit(b: string, v: char, t: string, i: nat)
    requires FreeAt(b, v, i)
    ensures ReplaceVar(b, v, t) == ReplacedRange(b, v, t, 0, i) + t + ReplaceVarFrom(b, v, t, i + 1)
  {
    ReplaceVarSplit(b, v, t, 0, i);
    assert ReplaceVarFrom(b, v, t, i) == t + ReplaceVarFrom(b, v, t, i + 1);
  }

  /**
   * `isInstanceOf` recognises every substitution it is meant for: putting
   * an identifier other than a quantifier word in place of the variable,
   * wherever it occurs free in a plain body, gives a target the test
   * accepts.
   */
  lemma InstanceBySubstitution(b: string, v: char, t: string, i: nat)
    requires IsPlain(b) && IsAsciiLetter(v) && IsIdentifier(t) && !IsQuantifierWord(t) && FreeAt(b, v, i)
    ensures InstanceOf(b, v, ReplaceVar(b, v, t))
  {
    var target := ReplaceVar(b, v, t);
    AsciiPlain(t);
    ReplaceVarFromPlain(b, v, t, 0);
    NormalizePlain(b);
    NormalizePlain(target);
    SubstitutedOccurrence(b, v, t, i);
    IdentifiersOfSpec(target);
    var tokens := IdentifiersOf(target);
    var k :| 0 <= k < |tokens| && tokens[k] == t;
    assert Reproduces(b, v, tokens[k], target);
  }

  /**
   * And the test accepts nothing else: the normalized texts are equal, or
   * a non-quantifier identifier of the target, substituted for the
   * variable, reproduces the target.
   */
  lemma InstanceOfSound(b: string, v: char, target: string)
    requires InstanceOf(b, v, target)
    ensures var nb := NormalizeFormula(Some(b));
            var nt := NormalizeFormula(Some(target));
            nb == nt || exists tok :: IsIdentifier(tok) && tok in IdentMatches(nt, 0) && !IsQuantifierWord(tok)
                                      && Reproduces(nb, v, tok, nt)
  {
    var nb := NormalizeFormula(Some(b));
    var nt := NormalizeFormula(Some(target));
    var tokens := IdentifiersOf(nt);
    if nb != nt {
      IdentifiersOfSpec(nt);
      var k :| 0 <= k < |tokens| && Reproduces(nb, v, tokens[k], nt);
      assert tokens[k] in tokens;
    }
  }
}
