/**
 * The recursive-descent parser over the token list: one specification
 * function per grammar level, and the `Parser` class whose cursor `i`
 * the methods advance, each proved to compute what its function says.
 *
 *   expr := iff
 *   iff  := imp ( '<->' imp )*      left fold
 *   imp  := or  ( '->'  imp )?      right associative
 *   or   := and ( 'v' and )*        left fold
 *   and  := not ( '^' not )*        left fold
 *   not  := '!' not | atom
 *   atom := ident | '(' expr ')' | any other token, read as `?`
 */
module Parser {
  import opened Wrappers
  import opened Text
  import opened Ast
  import opened Tokens

  /** The outcome of parsing from a position: a tree and the position after it, or the exception's message. */
  datatype Step = Parsed(ast: Ast, pos: nat) | Failed(msg: string)

  /** What a reader of `.kind` on the `undefined` past the last token is thrown. */
  const PastEndMessage := "Cannot read properties of undefined (reading 'kind')"

  /** The message of `eat` on a kind mismatch. */
  function ExpectedMessage(want: TokKind, got: TokKind): string {
    "Expected " + KindName(want) + " but got " + KindName(got)
  }

  const TrailingMessage := "Unexpected tokens at end"

  /** Every identifier token's text leaves `)` out, as `tokenize`'s identifiers do. */
  predicate CleanNames(toks: seq<Tok>) {
    forall k :: 0 <= k < |toks| && toks[k].kind == Ident ==> ')' !in toks[k].text
  }

  /** `parseIff` from position `i`. */
  function ParseIffF(toks: seq<Tok>, i: nat): (r: Step)
    requires i <= |toks|
    ensures r.Parsed? ==> i < r.pos < |toks|
    ensures r.Parsed? && CleanNames(toks) ==> WellNamed(r.ast)
    decreases |toks| - i, 10
  {
    match ParseImpF(toks, i)
    case Failed(m) => Failed(m)
    case Parsed(l, j) => IffRest(toks, l, j)
  }

  /** The loop of `parseIff` with `left` built so far and the cursor at `j`. */
  function IffRest(toks: seq<Tok>, left: Ast, j: nat): (r: Step)
    requires j <= |toks|
    ensures r.Parsed? ==> j <= r.pos < |toks|
    ensures r.Parsed? && CleanNames(toks) && WellNamed(left) ==> WellNamed(r.ast)
    decreases |toks| - j, 9
  {
    if j == |toks| then Failed(PastEndMessage)
    else if toks[j].kind != IffTok then Parsed(left, j)
    else
      match ParseImpF(toks, j + 1)
      case Failed(m) => Failed(m)
      case Parsed(right, k) => IffRest(toks, Iff(left, right), k)
  }

  /** `parseImp` from position `i`: the right operand is parsed by `parseImp` again. */
  function ParseImpF(toks: seq<Tok>, i: nat): (r: Step)
    requires i <= |toks|
    ensures r.Parsed? ==> i < r.pos < |toks|
    ensures r.Parsed? && CleanNames(toks) ==> WellNamed(r.ast)
    decreases |toks| - i, 8
  {
    match ParseOrF(toks, i)
    case Failed(m) => Failed(m)
    case Parsed(left, j) =>
      if j == |toks| then Failed(PastEndMessage)
      else if toks[j].kind != ImpTok then Parsed(left, j)
      else
        match ParseImpF(toks, j + 1)
        case Failed(m) => Failed(m)
        case Parsed(right, k) => Parsed(Imp(left, right), k)
  }

  /** `parseOr` from position `i`. */
  function ParseOrF(toks: seq<Tok>, i: nat): (r: Step)
    requires i <= |toks|
    ensures r.Parsed? ==> i < r.pos < |toks|
    ensures r.Parsed? && CleanNames(toks) ==> WellNamed(r.ast)
    decreases |toks| - i, 7
  {
    match ParseAndF(toks, i)
    case Failed(m) => Failed(m)
    case Parsed(l, j) => OrRest(toks, l, j)
  }

  /** The loop of `parseOr`. */
  function OrRest(toks: seq<Tok>, left: Ast, j: nat): (r: Step)
    requires j <= |toks|
    ensures r.Parsed? ==> j <= r.pos < |toks|
    ensures r.Parsed? && CleanNames(toks) && WellNamed(left) ==> WellNamed(r.ast)
    decreases |toks| - j, 6
  {
    if j == |toks| then Failed(PastEndMessage)
    else if toks[j].kind != OrTok then Parsed(left, j)
    else
      match ParseAndF(toks, j + 1)
      case Failed(m) => Failed(m)
      case Parsed(right, k) => OrRest(toks, Or(left, right), k)
  }

  /** `parseAnd` from position `i`. */
  function ParseAndF(toks: seq<Tok>, i: nat): (r: Step)
    requires i <= |toks|
    ensures r.Parsed? ==> i < r.pos < |toks|
    ensures r.Parsed? && CleanNames(toks) ==> WellNamed(r.ast)
    decreases |toks| - i, 5
  {
    match ParseNotF(toks, i)
    case Failed(m) => Failed(m)
    case Parsed(l, j) => AndRest(toks, l, j)
  }

  /** The loop of `parseAnd`. */
  function AndRest(toks: seq<Tok>, left: Ast, j: nat): (r: Step)
    requires j <= |toks|
    ensures r.Parsed? ==> j <= r.pos < |toks|
    ensures r.Parsed? && CleanNames(toks) && WellNamed(left) ==> WellNamed(r.ast)
    decreases |toks| - j, 4
  {
    if j == |toks| then Failed(PastEndMessage)
    else if toks[j].kind != AndTok then Parsed(left, j)
    else
      match ParseNotF(toks, j + 1)
      case Failed(m) => Failed(m)
      case Parsed(right, k) => AndRest(toks, And(left, right), k)
  }

  /** `parseNot` from position `i`: any number of `!` before an atom. */
  function ParseNotF(toks: seq<Tok>, i: nat): (r: Step)
    requires i <= |toks|
    ensures r.Parsed? ==> i < r.pos <= |toks|
    ensures r.Parsed? && CleanNames(toks) ==> WellNamed(r.ast)
    decreases |toks| - i, 3
  {
    if i == |toks| then Failed(PastEndMessage)
    else if toks[i].kind != NotTok then ParseAtomF(toks, i)
    else
      match ParseNotF(toks, i + 1)
      case Failed(m) => Failed(m)
      case Parsed(a, k) => Parsed(Not(a), k)
  }

  /**
   * `parseAtom` from position `i`: an identifier, a parenthesised
   * expression whose `)` `eat` demands, or any other token consumed as `?`.
   */
  function ParseAtomF(toks: seq<Tok>, i: nat): (r: Step)
    requires i <= |toks|
    ensures r.Parsed? ==> i < r.pos <= |toks|
    ensures r.Parsed? && CleanNames(toks) ==> WellNamed(r.ast)
    decreases |toks| - i, 2
  {
    if i == |toks| then Failed(PastEndMessage)
    else if toks[i].kind == Ident then Parsed(Var(toks[i].text), i + 1)
    else if toks[i].kind == LParen then
      match ParseIffF(toks, i + 1)
      case Failed(m) => Failed(m)
      case Parsed(e, j) =>
        if toks[j].kind != RParen then Failed(ExpectedMessage(RParen, toks[j].kind))
        else Parsed(e, j + 1)
    else Parsed(Var("?"), i + 1)
  }

  /** `parse()` from position `i`: a whole expression, then nothing but `eof`. */
  function ParseTokens(toks: seq<Tok>, i: nat): (r: Result<Ast>)
    requires i <= |toks|
    ensures r.Ok? && CleanNames(toks) ==> WellNamed(r.value)
  {
    match ParseIffF(toks, i)
    case Failed(m) => Err(m)
    case Parsed(a, j) => if toks[j].kind != Eof then Err(TrailingMessage) else Ok(a)
  }

  /** `new Parser(src).parse()`. */
  function ParseFormula(src: string): (r: Result<Ast>)
    ensures r.Ok? ==> WellNamed(r.value)
  {
    TokensClean(src);
    ParseTokens(TokensOf(src), 0)
  }

  /** The tokens of any input have clean identifier names. */
  lemma TokensClean(src: string)
    ensures CleanNames(TokensOf(src))
  {
    var toks := TokensOf(src);
    LexShape(Normalize(src), 0);
    forall k | 0 <= k < |toks| && toks[k].kind == Ident ensures ')' !in toks[k].text {
      IdentifierHasNoClose(toks[k].text);
    }
  }

  lemma IdentifierHasNoClose(s: string)
    requires IsIdentifier(s)
    ensures ')' !in s
  {
    forall k | 0 <= k < |s| ensures s[k] != ')' {
      if k > 0 {
        assert IsWordChar(s[k]);
      }
    }
  }

  /** A method's outcome agrees with a step: the same tree and the cursor after it, or the same message. */
  predicate Agrees(s: Step, r: Result<Ast>, cursor: nat) {
    match s
    case Parsed(a, p) => r == Ok(a) && cursor == p
    case Failed(m) => r == Err(m)
  }

  /** The parser object: the token list of its input and a cursor into it. */
  class Parser {
    const toks: seq<Tok>
    var i: nat

    constructor(input: string)
      ensures toks == TokensOf(input) && i == 0
    {
      var ts := Tokenize(input);
      toks := ts;
      i := 0;
    }

    /** `peek()`: the token under the cursor, or None for the `undefined` past the end. */
    function Peek(): (t: Option<Tok>)
      reads this
      ensures t.Some? <==> i < |toks|
      ensures t.Some? ==> t.value == toks[i]
    {
      if i < |toks| then Some(toks[i]) else None
    }

    /**
     * `eat(kind)`: with a kind, the token must have it; the cursor moves
     * past the token only when no exception is thrown.
     */
    method Eat(kind: Option<TokKind>) returns (r: Result<Tok>)
      requires i <= |toks| && (i < |toks| || kind.Some?)
      modifies this
      ensures old(i) == |toks| ==> r == Err(PastEndMessage) && i == old(i)
      ensures old(i) < |toks| && kind.Some? && toks[old(i)].kind != kind.value ==>
                r == Err(ExpectedMessage(kind.value, toks[old(i)].kind)) && i == old(i)
      ensures old(i) < |toks| && (kind.None? || toks[old(i)].kind == kind.value) ==>
                r == Ok(toks[old(i)]) && i == old(i) + 1
    {
      if i == |toks| {
        return Err(PastEndMessage);
      }
      var t := toks[i];
      if kind.Some? && t.kind != kind.value {
        return Err(ExpectedMessage(kind.value, t.kind));
      }
      i := i + 1;
      r := Ok(t);
    }

    /** `parse()` */
    method Parse() returns (r: Result<Ast>)
      requires i <= |toks|
      modifies this
      ensures r == ParseTokens(toks, old(i))
    {
      r := ParseIff();
      if r.Err? {
        return;
      }
      var t := Peek();
      if t.value.kind != Eof {
        r := Err(TrailingMessage);
      }
    }

    method ParseIff() returns (r: Result<Ast>)
      requires i <= |toks|
      modifies this
      ensures i <= |toks| && Agrees(ParseIffF(toks, old(i)), r, i)
      decreases |toks| - i, 10
    {
      ghost var start := i;
      r := ParseImp();
      if r.Err? {
        return;
      }
      var left := r.value;
      while true
        invariant start <= i <= |toks|
        invariant ParseIffF(toks, start) == IffRest(toks, left, i)
        decreases |toks| - i
      {
        var t := Peek();
        if t.None? {
          return Err(PastEndMessage);
        }
        if t.value.kind != IffTok {
          break;
        }
        var _ := Eat(Some(IffTok));
        var right := ParseImp();
        if right.Err? {
          return right;
        }
        left := Iff(left, right.value);
      }
      r := Ok(left);
    }

    method ParseImp() returns (r: Result<Ast>)
      requires i <= |toks|
      modifies this
      ensures i <= |toks| && Agrees(ParseImpF(toks, old(i)), r, i)
      decreases |toks| - i, 8
    {
      r := ParseOr();
      if r.Err? {
        return;
      }
      var left := r.value;
      var t := Peek();
      if t.None? {
        return Err(PastEndMessage);
      }
      if t.value.kind == ImpTok {
        var _ := Eat(Some(ImpTok));
        var right := ParseImp();
        if right.Err? {
          return right;
        }
        return Ok(Imp(left, right.value));
      }
    }

    method ParseOr() returns (r: Result<Ast>)
      requires i <= |toks|
      modifies this
      ensures i <= |toks| && Agrees(ParseOrF(toks, old(i)), r, i)
      decreases |toks| - i, 7
    {
      ghost var start := i;
      r := ParseAnd();
      if r.Err? {
        return;
      }
      var left := r.value;
      while true
        invariant start <= i <= |toks|
        invariant ParseOrF(toks, start) == OrRest(toks, left, i)
        decreases |toks| - i
      {
        var t := Peek();
        if t.None? {
          return Err(PastEndMessage);
        }
        if t.value.kind != OrTok {
          break;
        }
        var _ := Eat(Some(OrTok));
        var right := ParseAnd();
        if right.Err? {
          return right;
        }
        left := Or(left, right.value);
      }
      r := Ok(left);
    }

    method ParseAnd() returns (r: Result<Ast>)
      requires i <= |toks|
      modifies this
      ensures i <= |toks| && Agrees(ParseAndF(toks, old(i)), r, i)
      decreases |toks| - i, 5
    {
      ghost var start := i;
      r := ParseNot();
      if r.Err? {
        return;
      }
      var left := r.value;
      while true
        invariant start <= i <= |toks|
        invariant ParseAndF(toks, start) == AndRest(toks, left, i)
        decreases |toks| - i
      {
        var t := Peek();
        if t.None? {
          return Err(PastEndMessage);
        }
        if t.value.kind != AndTok {
          break;
        }
        var _ := Eat(Some(AndTok));
        var right := ParseNot();
        if right.Err? {
          return right;
        }
        left := And(left, right.value);
      }
      r := Ok(left);
    }

    method ParseNot() returns (r: Result<Ast>)
      requires i <= |toks|
      modifies this
      ensures i <= |toks| && Agrees(ParseNotF(toks, old(i)), r, i)
      decreases |toks| - i, 3
    {
      var t := Peek();
      if t.None? {
        return Err(PastEndMessage);
      }
      if t.value.kind == NotTok {
        var _ := Eat(Some(NotTok));
        var a := ParseNot();
        if a.Err? {
          return a;
        }
        return Ok(Not(a.value));
      }
      r := ParseAtom();
    }

    method ParseAtom() returns (r: Result<Ast>)
      requires i <= |toks|
      modifies this
      ensures i <= |toks| && Agrees(ParseAtomF(toks, old(i)), r, i)
      decreases |toks| - i, 2
    {
      var t := Peek();
      if t.None? {
        return Err(PastEndMessage);
      }
      if t.value.kind == Ident {
        var _ := Eat(Some(Ident));
        return Ok(Var(t.value.text));
      }
      if t.value.kind == LParen {
        var _ := Eat(Some(LParen));
        var e := ParseIff();
        if e.Err? {
          return e;
        }
        var closing := Eat(Some(RParen));
        if closing.Err? {
          return Err(closing.error);
        }
        return e;
      }
      var _ := Eat(None);
      r := Ok(Var("?"));
    }
  }

  /** `new Parser(src).parse()`, as `parseAstSafe` runs it. */
  method ParseSource(src: string) returns (r: Result<Ast>)
    ensures r == ParseFormula(src)
  {
    var p := new Parser(src);
    r := p.Parse();
  }
}
