/**
 * What the parser's grammar promises: a fully bracketed token rendering
 * of any tree parses back to that tree, brackets are transparent, the
 * connectives bind and associate as the grammar says, and the error cases
 * on concrete inputs.
 */
module ParserProps {
  import opened Wrappers
  import opened Ast
  import opened Tokens
  import opened Parser

  function OpTok(k: TokKind): Tok {
    match k
    case AndTok => Tok(AndTok, "^")
    case OrTok => Tok(OrTok, "v")
    case ImpTok => Tok(ImpTok, "->")
    case IffTok => Tok(IffTok, "<->")
    case NotTok => Tok(NotTok, "!")
    case LParen => Tok(LParen, "(")
    case RParen => Tok(RParen, ")")
    case Ident => Tok(Ident, "")
    case Eof => EofTok
  }

  const Open := OpTok(LParen)
  const Close := OpTok(RParen)

  /**
   * The tokens of a tree written with every compound subformula in
   * brackets: a variable is its identifier token, `!x` is `( ! x )` and a
   * binary node is `( l op r )`.
   */
  function Bracketed(a: Ast): (ts: seq<Tok>)
    ensures |ts| > 0 && (ts[0].kind == Ident || ts[0].kind == LParen)
  {
    match a
    case Var(n) => [Tok(Ident, n)]
    case Not(x) => [Open, OpTok(NotTok)] + Bracketed(x) + [Close]
    case And(l, r) => [Open] + Bracketed(l) + [OpTok(AndTok)] + Bracketed(r) + [Close]
    case Or(l, r) => [Open] + Bracketed(l) + [OpTok(OrTok)] + Bracketed(r) + [Close]
    case Imp(l, r) => [Open] + Bracketed(l) + [OpTok(ImpTok)] + Bracketed(r) + [Close]
    case Iff(l, r) => [Open] + Bracketed(l) + [OpTok(IffTok)] + Bracketed(r) + [Close]
  }

  /** `toks` holds `p` from position `i` on. */
  predicate HoldsAt(toks: seq<Tok>, i: nat, p: seq<Tok>) {
    i + |p| <= |toks| && forall k :: 0 <= k < |p| ==> toks[i + k] == p[k]
  }

  /** A tree parsed at one level stays the result at the looser levels when the next token does not continue it. */
  lemma AndLevel(toks: seq<Tok>, i: nat, a: Ast, j: nat)
    requires i <= |toks| && ParseNotF(toks, i) == Parsed(a, j) && j < |toks| && toks[j].kind != AndTok
    ensures ParseAndF(toks, i) == Parsed(a, j)
  {
  }

  lemma OrLevel(toks: seq<Tok>, i: nat, a: Ast, j: nat)
    requires i <= |toks| && ParseAndF(toks, i) == Parsed(a, j) && toks[j].kind != OrTok
    ensures ParseOrF(toks, i) == Parsed(a, j)
  {
  }

  lemma ImpLevel(toks: seq<Tok>, i: nat, a: Ast, j: nat)
    requires i <= |toks| && ParseOrF(toks, i) == Parsed(a, j) && toks[j].kind != ImpTok
    ensures ParseImpF(toks, i) == Parsed(a, j)
  {
  }

  lemma IffLevel(toks: seq<Tok>, i: nat, a: Ast, j: nat)
    requires i <= |toks| && ParseImpF(toks, i) == Parsed(a, j) && toks[j].kind != IffTok
    ensures ParseIffF(toks, i) == Parsed(a, j)
  {
  }

  /** An atom followed by a token that is no binary connective is the result at every level. */
  lemma AtomAllLevels(toks: seq<Tok>, i: nat, a: Ast, j: nat)
    requires i < |toks| && toks[i].kind != NotTok
    requires ParseAtomF(toks, i) == Parsed(a, j) && j < |toks|
    requires toks[j].kind !in {AndTok, OrTok, ImpTok, IffTok}
    ensures ParseIffF(toks, i) == Parsed(a, j)
  {
    AndLevel(toks, i, a, j);
    OrLevel(toks, i, a, j);
    ImpLevel(toks, i, a, j);
    IffLevel(toks, i, a, j);
  }

  /** A bracketed rendering is read back by `parseAtom` as the tree it renders. */
  lemma {:induction false} BracketedParses(a: Ast, toks: seq<Tok>, i: nat)
    requires HoldsAt(toks, i, Bracketed(a))
    ensures ParseAtomF(toks, i) == Parsed(a, i + |Bracketed(a)|)
    decreases Size(a), 2
  {
    match a
    case Var(_) => assert toks[i + 0] == Bracketed(a)[0];
    case Not(x) => NotCase(x, toks, i);
    case And(l, r) => AndCase(l, r, toks, i);
    case Or(l, r) => OrCase(l, r, toks, i);
    case Imp(l, r) => ImpCase(l, r, toks, i);
    case Iff(l, r) => IffCase(l, r, toks, i);
  }

  lemma {:induction false} NotCase(x: Ast, toks: seq<Tok>, i: nat)
    requires HoldsAt(toks, i, Bracketed(Not(x)))
    ensures ParseAtomF(toks, i) == Parsed(Not(x), i + |Bracketed(Not(x))|)
    decreases Size(x) + 1, 1
  {
    NotStep(x, toks, i);
    NotParses(x, toks, i, i + 2 + |Bracketed(x)|);
  }

  lemma {:induction false} AndCase(l: Ast, r: Ast, toks: seq<Tok>, i: nat)
    requires HoldsAt(toks, i, Bracketed(And(l, r)))
    ensures ParseAtomF(toks, i) == Parsed(And(l, r), i + |Bracketed(And(l, r))|)
    decreases Size(l) + Size(r) + 1, 1
  {
    var bl, br := Bracketed(l), Bracketed(r);
    var m := i + 1 + |bl|;
    var e := m + 1 + |br|;
    BinaryStep(bl, AndTok, br, toks, i);
    BracketedParses(l, toks, i + 1);
    BracketedParses(r, toks, m + 1);
    AndParses(l, r, toks, i, m, e);
  }

  lemma {:induction false} OrCase(l: Ast, r: Ast, toks: seq<Tok>, i: nat)
    requires HoldsAt(toks, i, Bracketed(Or(l, r)))
    ensures ParseAtomF(toks, i) == Parsed(Or(l, r), i + |Bracketed(Or(l, r))|)
    decreases Size(l) + Size(r) + 1, 1
  {
    var bl, br := Bracketed(l), Bracketed(r);
    var m := i + 1 + |bl|;
    var e := m + 1 + |br|;
    BinaryStep(bl, OrTok, br, toks, i);
    BracketedParses(l, toks, i + 1);
    BracketedParses(r, toks, m + 1);
    OrParses(l, r, toks, i, m, e);
  }

  lemma {:induction false} ImpCase(l: Ast, r: Ast, toks: seq<Tok>, i: nat)
    requires HoldsAt(toks, i, Bracketed(Imp(l, r)))
    ensures ParseAtomF(toks, i) == Parsed(Imp(l, r), i + |Bracketed(Imp(l, r))|)
    decreases Size(l) + Size(r) + 1, 1
  {
    var bl, br := Bracketed(l), Bracketed(r);
    var m := i + 1 + |bl|;
    var e := m + 1 + |br|;
    BinaryStep(bl, ImpTok, br, toks, i);
    BracketedParses(l, toks, i + 1);
    BracketedParses(r, toks, m + 1);
    ImpParses(l, r, toks, i, m, e);
  }

  lemma {:induction false} IffCase(l: Ast, r: Ast, toks: seq<Tok>, i: nat)
    requires HoldsAt(toks, i, Bracketed(Iff(l, r)))
    ensures ParseAtomF(toks, i) == Parsed(Iff(l, r), i + |Bracketed(Iff(l, r))|)
    decreases Size(l) + Size(r) + 1, 1
  {
    var bl, br := Bracketed(l), Bracketed(r);
    var m := i + 1 + |bl|;
    var e := m + 1 + |br|;
    BinaryStep(bl, IffTok, br, toks, i);
    BracketedParses(l, toks, i + 1);
    BracketedParses(r, toks, m + 1);
    IffParses(l, r, toks, i, m, e);
  }

  /** What BracketedParses needs of the operand of `( ! x )` at `i`. */
  lemma {:induction false} NotStep(x: Ast, toks: seq<Tok>, i: nat)
    requires HoldsAt(toks, i, [Open, OpTok(NotTok)] + Bracketed(x) + [Close])
    ensures var e := i + 2 + |Bracketed(x)|;
      e < |toks| && toks[i] == Open && toks[i + 1] == OpTok(NotTok) && toks[i + 2].kind != NotTok &&
      toks[e] == Close && ParseAtomF(toks, i + 2) == Parsed(x, e)
    decreases Size(x) + 1, 0
  {
    NotParts(Bracketed(x), toks, i);
    BracketedHead(x, toks, i + 2);
    BracketedParses(x, toks, i + 2);
  }

  /** Where the operands and the connective of `( l op r )` at `i` sit, for operand renderings `bl` and `br`. */
  lemma BinaryStep(bl: seq<Tok>, op: TokKind, br: seq<Tok>, toks: seq<Tok>, i: nat)
    requires |bl| > 0 && bl[0].kind != NotTok && |br| > 0 && br[0].kind != NotTok
    requires HoldsAt(toks, i, [Open] + bl + [OpTok(op)] + br + [Close])
    ensures var m := i + 1 + |bl|; var e := m + 1 + |br|;
      e < |toks| && toks[i] == Open && toks[m] == OpTok(op) && toks[e] == Close &&
      toks[i + 1].kind != NotTok && toks[m + 1].kind != NotTok &&
      HoldsAt(toks, i + 1, bl) && HoldsAt(toks, m + 1, br)
  {
    BinaryParts(bl, OpTok(op), br, toks, i);
    assert toks[i + 1 + 0] == bl[0];
    assert toks[i + 2 + |bl| + 0] == br[0];
  }

  /** The pieces of `( l op r )` at `i`, for any token lists `bl` and `br`. */
  lemma BinaryParts(bl: seq<Tok>, t: Tok, br: seq<Tok>, toks: seq<Tok>, i: nat)
    requires HoldsAt(toks, i, [Open] + bl + [t] + br + [Close])
    ensures HoldsAt(toks, i + 1, bl) && HoldsAt(toks, i + 2 + |bl|, br)
    ensures toks[i] == Open && toks[i + 1 + |bl|] == t && toks[i + 2 + |bl| + |br|] == Close
  {
    var p := [Open] + bl + [t] + br + [Close];
    forall k | 0 <= k < |bl| ensures toks[i + 1 + k] == bl[k] {
      assert p[1 + k] == bl[k];
    }
    forall k | 0 <= k < |br| ensures toks[i + 2 + |bl| + k] == br[k] {
      assert p[2 + |bl| + k] == br[k];
    }
    assert p[0] == Open && p[1 + |bl|] == t && p[2 + |bl| + |br|] == Close;
  }

  /** The pieces of `( ! x )` at `i`, for any token list `bx`. */
  lemma NotParts(bx: seq<Tok>, toks: seq<Tok>, i: nat)
    requires HoldsAt(toks, i, [Open, OpTok(NotTok)] + bx + [Close])
    ensures HoldsAt(toks, i + 2, bx)
    ensures toks[i] == Open && toks[i + 1] == OpTok(NotTok) && toks[i + 2 + |bx|] == Close
  {
    var p := [Open, OpTok(NotTok)] + bx + [Close];
    forall k | 0 <= k < |bx| ensures toks[i + 2 + k] == bx[k] {
      assert p[2 + k] == bx[k];
    }
    assert p[0] == Open && p[1] == OpTok(NotTok) && p[2 + |bx|] == Close;
  }

  /** A bracketed rendering never starts with `!`. */
  lemma BracketedHead(a: Ast, toks: seq<Tok>, i: nat)
    requires HoldsAt(toks, i, Bracketed(a))
    ensures i < |toks| && toks[i].kind != NotTok
  {
    assert toks[i + 0] == Bracketed(a)[0];
  }

  lemma NotParses(x: Ast, toks: seq<Tok>, i: nat, e: nat)
    requires e < |toks| && i + 2 < |toks|
    requires toks[i] == Open && toks[i + 1] == OpTok(NotTok) && toks[i + 2].kind != NotTok && toks[e] == Close
    requires ParseAtomF(toks, i + 2) == Parsed(x, e)
    ensures ParseAtomF(toks, i) == Parsed(Not(x), e + 1)
  {
    assert ParseNotF(toks, i + 2) == Parsed(x, e);
    assert ParseNotF(toks, i + 1) == Parsed(Not(x), e);
    AndLevel(toks, i + 1, Not(x), e);
    OrLevel(toks, i + 1, Not(x), e);
    ImpLevel(toks, i + 1, Not(x), e);
    IffLevel(toks, i + 1, Not(x), e);
  }

  lemma AndParses(l: Ast, r: Ast, toks: seq<Tok>, i: nat, m: nat, e: nat)
    requires i < m < e < |toks|
    requires toks[i] == Open && toks[m] == OpTok(AndTok) && toks[e] == Close
    requires toks[i + 1].kind != NotTok && toks[m + 1].kind != NotTok
    requires ParseAtomF(toks, i + 1) == Parsed(l, m) && ParseAtomF(toks, m + 1) == Parsed(r, e)
    ensures ParseAtomF(toks, i) == Parsed(And(l, r), e + 1)
  {
    assert ParseNotF(toks, i + 1) == Parsed(l, m);
    assert ParseNotF(toks, m + 1) == Parsed(r, e);
    assert AndRest(toks, And(l, r), e) == Parsed(And(l, r), e);
    assert AndRest(toks, l, m) == Parsed(And(l, r), e);
    assert ParseAndF(toks, i + 1) == Parsed(And(l, r), e);
    OrLevel(toks, i + 1, And(l, r), e);
    ImpLevel(toks, i + 1, And(l, r), e);
    IffLevel(toks, i + 1, And(l, r), e);
  }

  lemma OrParses(l: Ast, r: Ast, toks: seq<Tok>, i: nat, m: nat, e: nat)
    requires i < m < e < |toks|
    requires toks[i] == Open && toks[m] == OpTok(OrTok) && toks[e] == Close
    requires toks[i + 1].kind != NotTok && toks[m + 1].kind != NotTok
    requires ParseAtomF(toks, i + 1) == Parsed(l, m) && ParseAtomF(toks, m + 1) == Parsed(r, e)
    ensures ParseAtomF(toks, i) == Parsed(Or(l, r), e + 1)
  {
    assert ParseNotF(toks, i + 1) == Parsed(l, m);
    AndLevel(toks, i + 1, l, m);
    assert ParseNotF(toks, m + 1) == Parsed(r, e);
    AndLevel(toks, m + 1, r, e);
    assert OrRest(toks, Or(l, r), e) == Parsed(Or(l, r), e);
    assert OrRest(toks, l, m) == Parsed(Or(l, r), e);
    assert ParseOrF(toks, i + 1) == Parsed(Or(l, r), e);
    ImpLevel(toks, i + 1, Or(l, r), e);
    IffLevel(toks, i + 1, Or(l, r), e);
  }

  lemma ImpParses(l: Ast, r: Ast, toks: seq<Tok>, i: nat, m: nat, e: nat)
    requires i < m < e < |toks|
    requires toks[i] == Open && toks[m] == OpTok(ImpTok) && toks[e] == Close
    requires toks[i + 1].kind != NotTok && toks[m + 1].kind != NotTok
    requires ParseAtomF(toks, i + 1) == Parsed(l, m) && ParseAtomF(toks, m + 1) == Parsed(r, e)
    ensures ParseAtomF(toks, i) == Parsed(Imp(l, r), e + 1)
  {
    assert ParseNotF(toks, i + 1) == Parsed(l, m);
    AndLevel(toks, i + 1, l, m);
    OrLevel(toks, i + 1, l, m);
    assert ParseNotF(toks, m + 1) == Parsed(r, e);
    AndLevel(toks, m + 1, r, e);
    OrLevel(toks, m + 1, r, e);
    ImpLevel(toks, m + 1, r, e);
    assert ParseImpF(toks, i + 1) == Parsed(Imp(l, r), e);
    IffLevel(toks, i + 1, Imp(l, r), e);
  }

  lemma IffParses(l: Ast, r: Ast, toks: seq<Tok>, i: nat, m: nat, e: nat)
    requires i < m < e < |toks|
    requires toks[i] == Open && toks[m] == OpTok(IffTok) && toks[e] == Close
    requires toks[i + 1].kind != NotTok && toks[m + 1].kind != NotTok
    requires ParseAtomF(toks, i + 1) == Parsed(l, m) && ParseAtomF(toks, m + 1) == Parsed(r, e)
    ensures ParseAtomF(toks, i) == Parsed(Iff(l, r), e + 1)
  {
    assert ParseNotF(toks, i + 1) == Parsed(l, m);
    AndLevel(toks, i + 1, l, m);
    OrLevel(toks, i + 1, l, m);
    ImpLevel(toks, i + 1, l, m);
    assert ParseNotF(toks, m + 1) == Parsed(r, e);
    AndLevel(toks, m + 1, r, e);
    OrLevel(toks, m + 1, r, e);
    ImpLevel(toks, m + 1, r, e);
    assert IffRest(toks, Iff(l, r), e) == Parsed(Iff(l, r), e);
    assert IffRest(toks, l, m) == Parsed(Iff(l, r), e);
    assert ParseIffF(toks, i + 1) == Parsed(Iff(l, r), e);
  }

  /** Printing a tree fully bracketed and parsing it gives the tree back. */
  lemma BracketedRoundTrip(a: Ast)
    ensures ParseTokens(Bracketed(a) + [EofTok], 0) == Ok(a)
  {
    var b := Bracketed(a);
    var toks := b + [EofTok];
    forall k | 0 <= k < |b| ensures toks[0 + k] == b[k] { }
    BracketedParses(a, toks, 0);
    AtomAllLevels(toks, 0, a, |b|);
  }

  /** `( e )` reads as `e`: a bracketed expression is an atom with the inner tree. */
  lemma ParenTransparent(toks: seq<Tok>, i: nat, e: Ast, j: nat)
    requires i < |toks| && toks[i].kind == LParen
    requires ParseIffF(toks, i + 1) == Parsed(e, j) && toks[j].kind == RParen
    ensures ParseAtomF(toks, i) == Parsed(e, j + 1)
  {
  }

  function Id(n: string): Tok { Tok(Ident, n) }

  /** An atom is the result at each looser level up to the first one whose connective follows it. */
  lemma Lift(toks: seq<Tok>, i: nat, a: Ast, j: nat)
    requires i < |toks| && toks[i].kind != NotTok && ParseAtomF(toks, i) == Parsed(a, j) && j < |toks|
    ensures toks[j].kind != AndTok ==> ParseAndF(toks, i) == Parsed(a, j)
    ensures toks[j].kind != AndTok && toks[j].kind != OrTok ==> ParseOrF(toks, i) == Parsed(a, j)
    ensures toks[j].kind != AndTok && toks[j].kind != OrTok && toks[j].kind != ImpTok ==>
              ParseImpF(toks, i) == Parsed(a, j)
    ensures toks[j].kind != AndTok && toks[j].kind != OrTok && toks[j].kind != ImpTok && toks[j].kind != IffTok ==>
              ParseIffF(toks, i) == Parsed(a, j)
  {
    if toks[j].kind != AndTok {
      AndLevel(toks, i, a, j);
      if toks[j].kind != OrTok {
        OrLevel(toks, i, a, j);
        if toks[j].kind != ImpTok {
          ImpLevel(toks, i, a, j);
          if toks[j].kind != IffTok {
            IffLevel(toks, i, a, j);
          }
        }
      }
    }
  }

  /** `x -> y -> z` is `x -> (y -> z)`. */
  lemma ImpRightAssoc(x: string, y: string, z: string)
    ensures ParseTokens([Id(x), OpTok(ImpTok), Id(y), OpTok(ImpTok), Id(z), EofTok], 0)
         == Ok(Imp(Var(x), Imp(Var(y), Var(z))))
  {
    var toks := [Id(x), OpTok(ImpTok), Id(y), OpTok(ImpTok), Id(z), EofTok];
    Lift(toks, 4, Var(z), 5);
    Lift(toks, 2, Var(y), 3);
    assert ParseImpF(toks, 2) == Parsed(Imp(Var(y), Var(z)), 5);
    Lift(toks, 0, Var(x), 1);
    assert ParseImpF(toks, 0) == Parsed(Imp(Var(x), Imp(Var(y), Var(z))), 5);
    assert ParseIffF(toks, 0) == Parsed(Imp(Var(x), Imp(Var(y), Var(z))), 5);
  }

  /** `x <-> y <-> z` is `(x <-> y) <-> z`. */
  lemma IffLeftFold(x: string, y: string, z: string)
    ensures ParseTokens([Id(x), OpTok(IffTok), Id(y), OpTok(IffTok), Id(z), EofTok], 0)
         == Ok(Iff(Iff(Var(x), Var(y)), Var(z)))
  {
    var toks := [Id(x), OpTok(IffTok), Id(y), OpTok(IffTok), Id(z), EofTok];
    Lift(toks, 0, Var(x), 1);
    Lift(toks, 2, Var(y), 3);
    Lift(toks, 4, Var(z), 5);
    assert IffRest(toks, Iff(Iff(Var(x), Var(y)), Var(z)), 5) == Parsed(Iff(Iff(Var(x), Var(y)), Var(z)), 5);
    assert IffRest(toks, Iff(Var(x), Var(y)), 3) == Parsed(Iff(Iff(Var(x), Var(y)), Var(z)), 5);
    assert IffRest(toks, Var(x), 1) == Parsed(Iff(Iff(Var(x), Var(y)), Var(z)), 5);
  }

  /** `x v y v z` is `(x v y) v z`. */
  lemma OrLeftFold(x: string, y: string, z: string)
    ensures ParseTokens([Id(x), OpTok(OrTok), Id(y), OpTok(OrTok), Id(z), EofTok], 0)
         == Ok(Or(Or(Var(x), Var(y)), Var(z)))
  {
    var toks := [Id(x), OpTok(OrTok), Id(y), OpTok(OrTok), Id(z), EofTok];
    var t := Or(Or(Var(x), Var(y)), Var(z));
    Lift(toks, 0, Var(x), 1);
    Lift(toks, 2, Var(y), 3);
    Lift(toks, 4, Var(z), 5);
    assert OrRest(toks, t, 5) == Parsed(t, 5);
    assert OrRest(toks, Or(Var(x), Var(y)), 3) == Parsed(t, 5);
    assert OrRest(toks, Var(x), 1) == Parsed(t, 5);
    assert ParseImpF(toks, 0) == Parsed(t, 5);
    assert ParseIffF(toks, 0) == Parsed(t, 5);
  }

  /** `x ^ y ^ z` is `(x ^ y) ^ z`. */
  lemma AndLeftFold(x: string, y: string, z: string)
    ensures ParseTokens([Id(x), OpTok(AndTok), Id(y), OpTok(AndTok), Id(z), EofTok], 0)
         == Ok(And(And(Var(x), Var(y)), Var(z)))
  {
    var toks := [Id(x), OpTok(AndTok), Id(y), OpTok(AndTok), Id(z), EofTok];
    var t := And(And(Var(x), Var(y)), Var(z));
    assert ParseNotF(toks, 0) == Parsed(Var(x), 1);
    assert ParseNotF(toks, 2) == Parsed(Var(y), 3);
    assert ParseNotF(toks, 4) == Parsed(Var(z), 5);
    assert AndRest(toks, t, 5) == Parsed(t, 5);
    assert AndRest(toks, And(Var(x), Var(y)), 3) == Parsed(t, 5);
    assert ParseAndF(toks, 0) == Parsed(t, 5);
    assert ParseOrF(toks, 0) == Parsed(t, 5);
    assert ParseImpF(toks, 0) == Parsed(t, 5);
    assert ParseIffF(toks, 0) == Parsed(t, 5);
  }

  /** `x v y ^ z` is `x v (y ^ z)`. */
  lemma AndBeforeOrRight(x: string, y: string, z: string)
    ensures ParseTokens([Id(x), OpTok(OrTok), Id(y), OpTok(AndTok), Id(z), EofTok], 0)
         == Ok(Or(Var(x), And(Var(y), Var(z))))
  {
    var toks := [Id(x), OpTok(OrTok), Id(y), OpTok(AndTok), Id(z), EofTok];
    var t := Or(Var(x), And(Var(y), Var(z)));
    Lift(toks, 0, Var(x), 1);
    assert ParseNotF(toks, 2) == Parsed(Var(y), 3);
    assert ParseNotF(toks, 4) == Parsed(Var(z), 5);
    assert AndRest(toks, And(Var(y), Var(z)), 5) == Parsed(And(Var(y), Var(z)), 5);
    assert ParseAndF(toks, 2) == Parsed(And(Var(y), Var(z)), 5);
    assert OrRest(toks, Var(x), 1) == Parsed(t, 5);
    assert ParseImpF(toks, 0) == Parsed(t, 5);
    assert ParseIffF(toks, 0) == Parsed(t, 5);
  }

  /** `x ^ y v z` is `(x ^ y) v z`. */
  lemma AndBeforeOrLeft(x: string, y: string, z: string)
    ensures ParseTokens([Id(x), OpTok(AndTok), Id(y), OpTok(OrTok), Id(z), EofTok], 0)
         == Ok(Or(And(Var(x), Var(y)), Var(z)))
  {
    var toks := [Id(x), OpTok(AndTok), Id(y), OpTok(OrTok), Id(z), EofTok];
    var t := Or(And(Var(x), Var(y)), Var(z));
    assert ParseNotF(toks, 0) == Parsed(Var(x), 1);
    assert ParseNotF(toks, 2) == Parsed(Var(y), 3);
    assert AndRest(toks, And(Var(x), Var(y)), 3) == Parsed(And(Var(x), Var(y)), 3);
    assert ParseAndF(toks, 0) == Parsed(And(Var(x), Var(y)), 3);
    Lift(toks, 4, Var(z), 5);
    assert OrRest(toks, And(Var(x), Var(y)), 3) == Parsed(t, 5);
    assert ParseImpF(toks, 0) == Parsed(t, 5);
    assert ParseIffF(toks, 0) == Parsed(t, 5);
  }

  /** `x -> y v z` is `x -> (y v z)`. */
  lemma OrBeforeImpRight(x: string, y: string, z: string)
    ensures ParseTokens([Id(x), OpTok(ImpTok), Id(y), OpTok(OrTok), Id(z), EofTok], 0)
         == Ok(Imp(Var(x), Or(Var(y), Var(z))))
  {
    var toks := [Id(x), OpTok(ImpTok), Id(y), OpTok(OrTok), Id(z), EofTok];
    var t := Imp(Var(x), Or(Var(y), Var(z)));
    Lift(toks, 0, Var(x), 1);
    Lift(toks, 2, Var(y), 3);
    Lift(toks, 4, Var(z), 5);
    assert OrRest(toks, Var(y), 3) == Parsed(Or(Var(y), Var(z)), 5);
    assert ParseImpF(toks, 2) == Parsed(Or(Var(y), Var(z)), 5);
    assert ParseImpF(toks, 0) == Parsed(t, 5);
    assert ParseIffF(toks, 0) == Parsed(t, 5);
  }

  /** `x v y -> z` is `(x v y) -> z`. */
  lemma OrBeforeImpLeft(x: string, y: string, z: string)
    ensures ParseTokens([Id(x), OpTok(OrTok), Id(y), OpTok(ImpTok), Id(z), EofTok], 0)
         == Ok(Imp(Or(Var(x), Var(y)), Var(z)))
  {
    var toks := [Id(x), OpTok(OrTok), Id(y), OpTok(ImpTok), Id(z), EofTok];
    var t := Imp(Or(Var(x), Var(y)), Var(z));
    Lift(toks, 0, Var(x), 1);
    Lift(toks, 2, Var(y), 3);
    Lift(toks, 4, Var(z), 5);
    assert OrRest(toks, Var(x), 1) == Parsed(Or(Var(x), Var(y)), 3);
    assert ParseImpF(toks, 0) == Parsed(t, 5);
    assert ParseIffF(toks, 0) == Parsed(t, 5);
  }

  /** `x <-> y -> z` is `x <-> (y -> z)`. */
  lemma ImpBeforeIffRight(x: string, y: string, z: string)
    ensures ParseTokens([Id(x), OpTok(IffTok), Id(y), OpTok(ImpTok), Id(z), EofTok], 0)
         == Ok(Iff(Var(x), Imp(Var(y), Var(z))))
  {
    var toks := [Id(x), OpTok(IffTok), Id(y), OpTok(ImpTok), Id(z), EofTok];
    var t := Iff(Var(x), Imp(Var(y), Var(z)));
    Lift(toks, 0, Var(x), 1);
    Lift(toks, 2, Var(y), 3);
    Lift(toks, 4, Var(z), 5);
    assert ParseImpF(toks, 2) == Parsed(Imp(Var(y), Var(z)), 5);
    assert IffRest(toks, t, 5) == Parsed(t, 5);
    assert IffRest(toks, Var(x), 1) == Parsed(t, 5);
  }

  /** `x -> y <-> z` is `(x -> y) <-> z`. */
  lemma ImpBeforeIffLeft(x: string, y: string, z: string)
    ensures ParseTokens([Id(x), OpTok(ImpTok), Id(y), OpTok(IffTok), Id(z), EofTok], 0)
         == Ok(Iff(Imp(Var(x), Var(y)), Var(z)))
  {
    var toks := [Id(x), OpTok(ImpTok), Id(y), OpTok(IffTok), Id(z), EofTok];
    var t := Iff(Imp(Var(x), Var(y)), Var(z));
    Lift(toks, 0, Var(x), 1);
    Lift(toks, 2, Var(y), 3);
    Lift(toks, 4, Var(z), 5);
    assert ParseImpF(toks, 0) == Parsed(Imp(Var(x), Var(y)), 3);
    assert IffRest(toks, t, 5) == Parsed(t, 5);
    assert IffRest(toks, Imp(Var(x), Var(y)), 3) == Parsed(t, 5);
  }

  /** `!x ^ y` is `(!x) ^ y`. */
  lemma NotBeforeAnd(x: string, y: string)
    ensures ParseTokens([OpTok(NotTok), Id(x), OpTok(AndTok), Id(y), EofTok], 0)
         == Ok(And(Not(Var(x)), Var(y)))
  {
    var toks := [OpTok(NotTok), Id(x), OpTok(AndTok), Id(y), EofTok];
    var t := And(Not(Var(x)), Var(y));
    assert ParseNotF(toks, 1) == Parsed(Var(x), 2);
    assert ParseNotF(toks, 0) == Parsed(Not(Var(x)), 2);
    assert ParseNotF(toks, 3) == Parsed(Var(y), 4);
    assert AndRest(toks, Not(Var(x)), 2) == Parsed(t, 4);
    assert ParseOrF(toks, 0) == Parsed(t, 4);
    assert ParseImpF(toks, 0) == Parsed(t, 4);
    assert ParseIffF(toks, 0) == Parsed(t, 4);
  }

  /** `!!x` is `!(!x)`. */
  lemma DoubleNot(x: string)
    ensures ParseTokens([OpTok(NotTok), OpTok(NotTok), Id(x), EofTok], 0) == Ok(Not(Not(Var(x))))
  {
    var toks := [OpTok(NotTok), OpTok(NotTok), Id(x), EofTok];
    var t := Not(Not(Var(x)));
    assert ParseNotF(toks, 2) == Parsed(Var(x), 3);
    assert ParseNotF(toks, 0) == Parsed(t, 3);
    assert ParseAndF(toks, 0) == Parsed(t, 3);
    assert ParseOrF(toks, 0) == Parsed(t, 3);
    assert ParseImpF(toks, 0) == Parsed(t, 3);
    assert ParseIffF(toks, 0) == Parsed(t, 3);
  }

  /** A token left over after the expression is an error. */
  lemma TrailingTokenError(x: string)
    ensures ParseTokens([Id(x), Close, EofTok], 0) == Err(TrailingMessage)
  {
    Lift([Id(x), Close, EofTok], 0, Var(x), 1);
  }

  /** A missing `)` is `eat`'s error. */
  lemma MissingCloseError(x: string)
    ensures ParseTokens([Open, Id(x), EofTok], 0) == Err("Expected rparen but got eof")
  {
    var toks := [Open, Id(x), EofTok];
    Lift(toks, 1, Var(x), 2);
    var m := ExpectedMessage(RParen, Eof);
    assert m == "Expected rparen but got eof";
    assert ParseAtomF(toks, 0) == Failed(m);
    assert ParseNotF(toks, 0) == Failed(m);
    assert ParseAndF(toks, 0) == Failed(m);
    assert ParseOrF(toks, 0) == Failed(m);
    assert ParseImpF(toks, 0) == Failed(m);
  }

  /** After a trailing `^`, `eof` is consumed as `?` and the next peek reads past the end. */
  lemma DanglingAndError(x: string)
    ensures ParseTokens([Id(x), OpTok(AndTok), EofTok], 0) == Err(PastEndMessage)
  {
    var toks := [Id(x), OpTok(AndTok), EofTok];
    assert ParseNotF(toks, 0) == Parsed(Var(x), 1);
    assert ParseNotF(toks, 2) == Parsed(Var("?"), 3);
    assert AndRest(toks, And(Var(x), Var("?")), 3) == Failed(PastEndMessage);
    assert ParseAndF(toks, 0) == Failed(PastEndMessage);
    assert ParseOrF(toks, 0) == Failed(PastEndMessage);
    assert ParseImpF(toks, 0) == Failed(PastEndMessage);
  }

  /** The empty input fails the same way. */
  lemma EmptyInputError()
    ensures ParseTokens([EofTok], 0) == Err(PastEndMessage)
  {
    var toks := [EofTok];
    assert ParseNotF(toks, 0) == Parsed(Var("?"), 1);
    assert ParseAndF(toks, 0) == Failed(PastEndMessage);
    assert ParseOrF(toks, 0) == Failed(PastEndMessage);
    assert ParseImpF(toks, 0) == Failed(PastEndMessage);
  }

  /** A token out of place in atom position is consumed as the variable `?`. */
  lemma AtomFallback(x: string)
    ensures ParseTokens([Id(x), OpTok(AndTok), Close, EofTok], 0) == Ok(And(Var(x), Var("?")))
  {
    var toks := [Id(x), OpTok(AndTok), Close, EofTok];
    var t := And(Var(x), Var("?"));
    assert ParseNotF(toks, 0) == Parsed(Var(x), 1);
    assert ParseNotF(toks, 2) == Parsed(Var("?"), 3);
    assert AndRest(toks, t, 3) == Parsed(t, 3);
    assert ParseAndF(toks, 0) == Parsed(t, 3);
    assert ParseOrF(toks, 0) == Parsed(t, 3);
    assert ParseImpF(toks, 0) == Parsed(t, 3);
    assert ParseIffF(toks, 0) == Parsed(t, 3);
  }
}
