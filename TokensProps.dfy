/**
 * What the scanner promises about the token list, in general and on the
 * inputs that show its quirks: `v` is `or` only at the start of a token,
 * `<->` beats `->`, unknown characters vanish, and the ASCII double
 * arrow `=>` is not a connective here.
 */
module TokensProps {
  import opened Wrappers
  import opened Text
  import opened Ast
  import opened Tokens
  import opened Parser
  import opened ParserProps

  /** `<->` is recognised before `->` ever is, so `<` never starts an implication. */
  lemma IffBeforeImp(s: string, i: nat)
    requires i < |s| && StartsWithAt(s, "<->", i)
    ensures Scan(s, i) == (Some(Tok(IffTok, "<->")), i + 3)
  {
    assert s[i + 0] == "<->"[0];
  }

  /** A character that starts no token is skipped. */
  lemma UnknownSkipped(s: string, i: nat)
    requires i < |s| && !(s[i] in "()!^v") && !IsAsciiLetter(s[i])
    requires !StartsWithAt(s, "<->", i) && !StartsWithAt(s, "->", i)
    ensures Lex(s, i) == Lex(s, i + 1)
  {
  }

  /** A `v` right after a letter or digit of an identifier is part of that identifier. */
  lemma VInsideIdentifier(s: string, i: nat)
    requires i + 1 < |s| && IsAsciiLetter(s[i]) && s[i] != 'v' && s[i + 1] == 'v'
    ensures Scan(s, i).0.Some? && Scan(s, i).0.value.kind == Ident
    ensures |Scan(s, i).0.value.text| >= 2 && Scan(s, i).0.value.text[1] == 'v'
  {
    assert !StartsWithAt(s, "<->", i) by { assert s[i + 0] != "<->"[0]; }
    assert !StartsWithAt(s, "->", i) by { assert s[i + 0] != "->"[0]; }
    assert IsWordChar(s[i + 1]);
  }

  /** An identifier that does not start with `v`, ended by a non-word character or the end, is one token. */
  lemma ScanIdentifier(s: string, i: nat, e: nat)
    requires i < e <= |s| && IsIdentifier(s[i..e]) && s[i] != 'v'
    requires e == |s| || !IsWordChar(s[e])
    ensures Scan(s, i) == (Some(Tok(Ident, s[i..e])), e)
  {
    assert s[i] == s[i..e][0];
    assert !StartsWithAt(s, "<->", i) by { assert s[i + 0] != "<->"[0]; }
    assert !StartsWithAt(s, "->", i) by { assert s[i + 0] != "->"[0]; }
    forall k | i + 1 <= k < e ensures IsWordChar(s[k]) {
      assert s[k] == s[i..e][k - i];
    }
    IdentEndAt(s, i + 1, e);
  }

  /** Identifier characters are left alone by `normalize`. */
  lemma WordCharPlain(c: char)
    requires IsWordChar(c)
    ensures !IsSpace(c) && !IsAliasChar(c) && AliasText(c) == [c]
  {
  }

  lemma {:induction false} MapAliasesConcat(x: string, y: string)
    ensures MapAliases(x + y) == MapAliases(x) + MapAliases(y)
    decreases |x|
  {
    if x == [] {
      assert x + y == y;
    } else {
      assert (x + y)[1..] == x[1..] + y;
      MapAliasesConcat(x[1..], y);
      AppendAssoc(AliasText(x[0]), MapAliases(x[1..]), MapAliases(y));
    }
  }

  lemma {:induction false} MapAliasesIdentifier(s: string, i: nat)
    requires IsIdentifier(s) && i <= |s|
    ensures MapAliases(s[i..]) == s[i..]
    decreases |s| - i
  {
    if i < |s| {
      MapAliasesIdentifier(s, i + 1);
      assert s[i..][1..] == s[i + 1..];
      assert s[i..][0] == s[i];
      if i == 0 {
        assert IsWordChar(s[0]);
      }
      WordCharPlain(s[i]);
      assert s[i..] == [s[i]] + s[i + 1..];
    }
  }

  /** An identifier is its own normal form. */
  lemma MapAliasesOfIdentifier(s: string)
    requires IsIdentifier(s)
    ensures MapAliases(s) == s
  {
    MapAliasesIdentifier(s, 0);
    assert s[0..] == s;
  }

  /** `a` joined to `b` by `v` is one identifier, as in `AvB`. */
  lemma JoinedByV(a: string, b: string)
    requires IsIdentifier(a) && IsIdentifier(b)
    ensures IsIdentifier(a + "v" + b)
  {
    var s := a + "v" + b;
    forall k | 1 <= k < |s| ensures IsWordChar(s[k]) {
      if k < |a| {
        assert s[k] == a[k];
      } else if k > |a| {
        assert s[k] == b[k - |a| - 1];
      }
    }
  }

  /** An identifier not starting with `v` is lexed as one identifier token and `eof`. */
  lemma LexIdentifier(s: string)
    requires IsIdentifier(s) && s[0] != 'v'
    ensures Lex(s, 0) == [Tok(Ident, s), EofTok]
  {
    assert s[0..|s|] == s;
    ScanIdentifier(s, 0, |s|);
  }

  /** An identifier not starting with `v` is tokenized as itself. */
  lemma TokensOfIdentifier(s: string)
    requires IsIdentifier(s) && s[0] != 'v'
    ensures TokensOf(s) == [Tok(Ident, s), EofTok]
  {
    assert Normalize(s) == s by {
      NormalizeIsMap(s);
      MapAliasesOfIdentifier(s);
    }
    LexIdentifier(s);
  }

  /** `a` then `v` then `b`, e.g. `AvB`, tokenizes as one identifier, not a disjunction. */
  lemma VAfterLetterJoins(a: string, b: string)
    requires IsIdentifier(a) && IsIdentifier(b) && a[0] != 'v'
    ensures TokensOf(a + "v" + b) == [Tok(Ident, a + "v" + b), EofTok]
  {
    JoinedByV(a, b);
    assert (a + "v" + b)[0] == a[0];
    TokensOfIdentifier(a + "v" + b);
  }

  /** Reading one character in front of a string. */
  lemma MapAliasesCons(c: char, y: string)
    ensures MapAliases([c] + y) == AliasText(c) + MapAliases(y)
  {
    assert ([c] + y)[1..] == y;
  }

  /** `a v b` with spaces, e.g. `A v B`, is still the single variable `AvB`. */
  lemma SpacedVJoins(a: string, b: string)
    requires IsIdentifier(a) && IsIdentifier(b) && a[0] != 'v'
    ensures ParseFormula(a + " v " + b) == Ok(Var(a + "v" + b))
  {
    var s, t := a + " v " + b, a + "v" + b;
    assert MapAliases(s) == MapAliases(t) by {
      var tail := ['v'] + ([' '] + b);
      assert s == a + ([' '] + tail);
      assert t == a + (['v'] + b);
      MapAliasesConcat(a, [' '] + tail);
      MapAliasesConcat(a, ['v'] + b);
      MapAliasesCons(' ', tail);
      MapAliasesCons('v', [' '] + b);
      MapAliasesCons(' ', b);
      MapAliasesCons('v', b);
    }
    assert Normalize(s) == Normalize(t) by {
      NormalizeIsMap(s);
      NormalizeIsMap(t);
    }
    VAfterLetterJoins(a, b);
    IdentifierParses(t);
  }

  /** Text that normalization leaves alone is lexed as it is. */
  lemma TokensOfClean(s: string)
    requires Normalize(s) == s
    ensures TokensOf(s) == Lex(s, 0)
  {
  }

  /** A leading `v` is read as `or`. */
  lemma LexLeadingV(s: string)
    requires |s| > 0 && s[0] == 'v'
    ensures Lex(s, 0) == [Tok(OrTok, "v")] + Lex(s, 1)
  {
    assert Scan(s, 0) == (Some(Tok(OrTok, "v")), 1);
  }

  /** Text the character map leaves alone is left alone by `normalize`. */
  lemma NormalizeFixed(s: string)
    requires MapAliases(s) == s
    ensures Normalize(s) == s
  {
    NormalizeIsMap(s);
  }

  /** A leading `v` before an identifier survives normalization. */
  lemma NormalizeAfterV(s: string, b: string)
    requires IsIdentifier(b) && s == ['v'] + b
    ensures Normalize(s) == s
  {
    MapAliasesCons('v', b);
    MapAliasesOfIdentifier(b);
    NormalizeFixed(s);
  }

  /** After a leading `v`, an identifier is lexed as one token. */
  lemma LexAfterV(s: string, b: string)
    requires IsIdentifier(b) && b[0] != 'v' && s == ['v'] + b
    ensures Lex(s, 1) == [Tok(Ident, b), EofTok]
  {
    assert s[1..|s|] == b;
    assert s[1] == b[0];
    ScanIdentifier(s, 1, |s|);
  }

  /** A `v` that begins a token is `or`: `vx` is `or` followed by `x`. */
  lemma LeadingVIsOr(b: string)
    requires IsIdentifier(b) && b[0] != 'v'
    ensures TokensOf("v" + b) == [Tok(OrTok, "v"), Tok(Ident, b), EofTok]
  {
    var s := "v" + b;
    NormalizeAfterV(s, b);
    LexAfterV(s, b);
    TokensOfClean(s);
    LexLeadingV(s);
  }

  /** `=` and `>` are neither spaces nor aliases, so `a=>b` is left as it is. */
  lemma NormalizeDoubleArrow(s: string, a: string, b: string)
    requires IsIdentifier(a) && IsIdentifier(b) && s == a + (['='] + (['>'] + b))
    ensures Normalize(s) == s
  {
    MapAliasesConcat(a, ['='] + (['>'] + b));
    MapAliasesCons('=', ['>'] + b);
    MapAliasesCons('>', b);
    MapAliasesOfIdentifier(a);
    MapAliasesOfIdentifier(b);
    NormalizeFixed(s);
  }

  /** The first identifier of `a=>b` is one token, ending at the `=`. */
  lemma LexDoubleArrowHead(s: string, a: string, b: string)
    requires IsIdentifier(a) && a[0] != 'v' && s == a + (['='] + (['>'] + b))
    ensures Lex(s, 0) == [Tok(Ident, a)] + Lex(s, |a|)
  {
    assert s[0..|a|] == a;
    assert s[|a|] == '=';
    ScanIdentifier(s, 0, |a|);
  }

  /** `=` and `>` are skipped, and the second identifier is one token. */
  lemma LexDoubleArrowTail(s: string, a: string, b: string)
    requires IsIdentifier(b) && b[0] != 'v' && s == a + (['='] + (['>'] + b))
    ensures Lex(s, |a|) == [Tok(Ident, b), EofTok]
  {
    var i := |a|;
    assert s[i] == '=' && s[i + 1] == '>';
    assert !StartsWithAt(s, "<->", i) by { assert s[i + 0] != "<->"[0]; }
    assert !StartsWithAt(s, "->", i) by { assert s[i + 0] != "->"[0]; }
    UnknownSkipped(s, i);
    assert !StartsWithAt(s, "<->", i + 1) by { assert s[i + 1 + 0] != "<->"[0]; }
    assert !StartsWithAt(s, "->", i + 1) by { assert s[i + 1 + 0] != "->"[0]; }
    UnknownSkipped(s, i + 1);
    assert s[i + 2..|s|] == b;
    assert s[i + 2] == b[0];
    ScanIdentifier(s, i + 2, |s|);
  }

  /**
   * The ASCII double arrow is not a connective of the parser: `a=>b`
   * lexes as two identifiers side by side ...
   */
  lemma DoubleArrowTokens(a: string, b: string)
    requires IsIdentifier(a) && IsIdentifier(b) && a[0] != 'v' && b[0] != 'v'
    ensures TokensOf(a + "=>" + b) == [Tok(Ident, a), Tok(Ident, b), EofTok]
  {
    var s := a + "=>" + b;
    assert s == a + (['='] + (['>'] + b));
    NormalizeDoubleArrow(s, a, b);
    TokensOfClean(s);
    LexDoubleArrowHead(s, a, b);
    LexDoubleArrowTail(s, a, b);
  }

  /** ... and so the parse stops after `a` with the trailing-token error. */
  lemma DoubleArrowRejected(a: string, b: string)
    requires IsIdentifier(a) && IsIdentifier(b) && a[0] != 'v' && b[0] != 'v'
    ensures ParseFormula(a + "=>" + b) == Err(TrailingMessage)
  {
    DoubleArrowTokens(a, b);
    Lift([Id(a), Id(b), EofTok], 0, Var(a), 1);
  }

  /** One identifier parses to its variable. */
  lemma IdentifierParses(n: string)
    ensures ParseTokens([Tok(Ident, n), EofTok], 0) == Ok(Var(n))
  {
    var toks := [Tok(Ident, n), EofTok];
    assert ParseNotF(toks, 0) == Parsed(Var(n), 1);
    assert ParseAndF(toks, 0) == Parsed(Var(n), 1);
    assert ParseOrF(toks, 0) == Parsed(Var(n), 1);
    assert ParseImpF(toks, 0) == Parsed(Var(n), 1);
    assert ParseIffF(toks, 0) == Parsed(Var(n), 1);
  }
}
