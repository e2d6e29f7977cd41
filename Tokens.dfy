/**
 * The parser's front end: alias normalisation of the connective symbols,
 * then a left-to-right character scan into tokens that always ends with
 * a single `eof` token.
 */
module Tokens {
  import opened Wrappers
  import opened Text

  /**
   * `normalize`: all `\s` removed, then `¬`/`~` to `!`, `∧`/`&` to `^`,
   * `∨` to `v`, `→` to `->` and `↔` to `<->`, one global replace after another.
   * The ASCII spellings `=>`, `||` and `<=>` are left as they are.
   */
  function Normalize(input: string): string {
    AliasStages(StripSpaces(input))
  }

  /** The five replacements of `normalize`, in order. */
  function AliasStages(s: string): string {
    Stage5(Stage4(Stage3(Stage2(Stage1(s)))))
  }

  function Stage1(s: string): string { ReplaceAll(s, ["¬", "~"], "!") }
  function Stage2(s: string): string { ReplaceAll(s, ["∧", "&"], "^") }
  function Stage3(s: string): string { ReplaceAll(s, ["∨"], "v") }
  function Stage4(s: string): string { ReplaceAll(s, ["→"], "->") }
  function Stage5(s: string): string { ReplaceAll(s, ["↔"], "<->") }

  /** The characters `normalize` rewrites. */
  predicate IsAliasChar(c: char) {
    c == '¬' || c == '~' || c == '∧' || c == '&' || c == '∨' || c == '→' || c == '↔'
  }

  /** What `normalize` makes of one character. */
  function AliasText(c: char): string {
    if IsSpace(c) then ""
    else if c == '¬' || c == '~' then "!"
    else if c == '∧' || c == '&' then "^"
    else if c == '∨' then "v"
    else if c == '→' then "->"
    else if c == '↔' then "<->"
    else [c]
  }

  /** The character-by-character reading of `normalize`. */
  function MapAliases(s: string): string {
    if s == [] then [] else AliasText(s[0]) + MapAliases(s[1..])
  }

  /**
   * The chain of replacements acts on each character on its own: no
   * replacement text contains a character a later stage rewrites.
   */
  lemma {:induction false} NormalizeIsMap(input: string)
    ensures Normalize(input) == MapAliases(input)
    decreases |input|
  {
    if input != [] {
      var c, rest := input[0], input[1..];
      NormalizeIsMap(rest);
      if IsSpace(c) {
        assert StripSpaces(input) == StripSpaces(rest);
      } else {
        assert StripSpaces(input) == [c] + StripSpaces(rest);
        AliasStagesConcat([c], StripSpaces(rest));
        AliasStagesChar(c);
      }
    }
  }

  lemma AliasStagesConcat(x: string, y: string)
    ensures AliasStages(x + y) == AliasStages(x) + AliasStages(y)
  {
    ReplaceAllConcat(x, y, ["¬", "~"], "!");
    var x1, y1 := Stage1(x), Stage1(y);
    ReplaceAllConcat(x1, y1, ["∧", "&"], "^");
    var x2, y2 := Stage2(x1), Stage2(y1);
    ReplaceAllConcat(x2, y2, ["∨"], "v");
    var x3, y3 := Stage3(x2), Stage3(y2);
    ReplaceAllConcat(x3, y3, ["→"], "->");
    var x4, y4 := Stage4(x3), Stage4(y3);
    ReplaceAllConcat(x4, y4, ["↔"], "<->");
  }

  /** Each stage leaves a one-character string alone unless it rewrites that character. */
  lemma StagesKeep(d: char)
    ensures d != '¬' && d != '~' ==> Stage1([d]) == [d]
    ensures d != '∧' && d != '&' ==> Stage2([d]) == [d]
    ensures d != '∨' ==> Stage3([d]) == [d]
    ensures d != '→' ==> Stage4([d]) == [d]
    ensures d != '↔' ==> Stage5([d]) == [d]
  {
    KeepPair(d, "¬", "~", "!");
    KeepPair(d, "∧", "&", "^");
    KeepSingle(d, "∨", "v");
    KeepSingle(d, "→", "->");
    KeepSingle(d, "↔", "<->");
  }

  lemma KeepPair(d: char, p: string, q: string, rep: string)
    requires |p| == 1 && |q| == 1
    ensures d != p[0] && d != q[0] ==> ReplaceAll([d], [p, q], rep) == [d]
  {
    ReplaceOne(d, [p, q], rep);
  }

  lemma KeepSingle(d: char, p: string, rep: string)
    requires |p| == 1
    ensures d != p[0] ==> ReplaceAll([d], [p], rep) == [d]
  {
    ReplaceOne(d, [p], rep);
  }

  lemma AliasStagesChar(c: char)
    requires !IsSpace(c)
    ensures AliasStages([c]) == AliasText(c)
  {
    StagesKeep(c);
    if c == '¬' || c == '~' {
      HitPair(c, "¬", "~", "!");
      StagesKeep('!');
    } else if c == '∧' || c == '&' {
      HitPair(c, "∧", "&", "^");
      StagesKeep('^');
    } else if c == '∨' {
      HitSingle(c, "∨", "v");
      StagesKeep('v');
    } else if c == '→' {
      HitSingle(c, "→", "->");
      ReplaceAllUntouched("->", ["↔"], "<->");
    } else if c == '↔' {
      HitSingle(c, "↔", "<->");
    }
  }

  lemma HitPair(d: char, p: string, q: string, rep: string)
    requires |p| == 1 && |q| == 1 && (d == p[0] || d == q[0])
    ensures ReplaceAll([d], [p, q], rep) == rep
  {
    ReplaceOne(d, [p, q], rep);
    if d == p[0] {
      assert [p, q][0][0] == d;
    } else {
      assert [p, q][1][0] == d;
    }
  }

  lemma HitSingle(d: char, p: string, rep: string)
    requires |p| == 1 && d == p[0]
    ensures ReplaceAll([d], [p], rep) == rep
  {
    ReplaceOne(d, [p], rep);
  }

  /** One character through one replacement stage. */
  lemma ReplaceOne(c: char, pats: seq<string>, rep: string)
    requires OneCharPatterns(pats)
    ensures ReplaceAll([c], pats, rep) == if NotOneCharPattern(c, pats) then [c] else rep
  {
    ReplaceAllCons(c, [], pats, rep);
    assert [c] + [] == [c];
  }

  /** After `normalize` no whitespace and no alias symbol is left. */
  lemma {:induction false} NormalizeClean(input: string)
    ensures forall k :: 0 <= k < |Normalize(input)| ==> !IsSpace(Normalize(input)[k]) && !IsAliasChar(Normalize(input)[k])
  {
    NormalizeIsMap(input);
    MapAliasesClean(input);
  }

  lemma {:induction false} MapAliasesClean(s: string)
    ensures forall k :: 0 <= k < |MapAliases(s)| ==> !IsSpace(MapAliases(s)[k]) && !IsAliasChar(MapAliases(s)[k])
    decreases |s|
  {
    if s != [] {
      MapAliasesClean(s[1..]);
      var a, m := AliasText(s[0]), MapAliases(s[1..]);
      forall k | 0 <= k < |a + m| ensures !IsSpace((a + m)[k]) && !IsAliasChar((a + m)[k]) {
        if k >= |a| {
          assert (a + m)[k] == m[k - |a|];
        }
      }
    }
  }

  /** A string without alias symbols only loses its whitespace. */
  lemma {:induction false} NormalizeWithoutAliases(input: string)
    requires forall k :: 0 <= k < |input| ==> !IsAliasChar(input[k])
    ensures Normalize(input) == StripSpaces(input)
    decreases |input|
  {
    NormalizeIsMap(input);
    if input != [] {
      NormalizeWithoutAliases(input[1..]);
      NormalizeIsMap(input[1..]);
    }
  }

  /** The kinds of `Tok`. */
  datatype TokKind = LParen | RParen | NotTok | AndTok | OrTok | ImpTok | IffTok | Ident | Eof

  /** The kind names used in the parser's error messages. */
  function KindName(k: TokKind): string {
    match k
    case LParen => "lparen"
    case RParen => "rparen"
    case NotTok => "not"
    case AndTok => "and"
    case OrTok => "or"
    case ImpTok => "imp"
    case IffTok => "iff"
    case Ident => "ident"
    case Eof => "eof"
  }

  datatype Tok = Tok(kind: TokKind, text: string)

  const EofTok := Tok(Eof, "")

  /** End of the identifier whose second character would be at `j`: `[a-zA-Z0-9_]*` from `j`. */
  function IdentEnd(s: string, j: nat): (e: nat)
    requires j <= |s|
    ensures j <= e <= |s|
    ensures forall k :: j <= k < e ==> IsWordChar(s[k])
    ensures e < |s| ==> !IsWordChar(s[e])
    decreases |s| - j
  {
    if j < |s| && IsWordChar(s[j]) then IdentEnd(s, j + 1) else j
  }

  /** Where an identifier's scan stops: at the first character that is no word character. */
  lemma {:induction false} IdentEndAt(s: string, j: nat, e: nat)
    requires j <= e <= |s|
    requires forall k :: j <= k < e ==> IsWordChar(s[k])
    requires e == |s| || !IsWordChar(s[e])
    ensures IdentEnd(s, j) == e
    decreases e - j
  {
    if j < e {
      IdentEndAt(s, j + 1, e);
    }
  }

  /**
   * One round of `tokenize`'s loop at `i`: the token pushed, if any, and
   * where scanning resumes. Single-character tokens are tested first, so a
   * `v` that begins a token is always `or`; `<->` is tested before `->`; an
   * identifier runs as far as `[a-zA-Z0-9_]` does; any other character is
   * skipped.
   */
  function Scan(s: string, i: nat): (r: (Option<Tok>, nat))
    requires i < |s|
    ensures i < r.1 <= |s|
  {
    var c := s[i];
    if c == '(' then (Some(Tok(LParen, "(")), i + 1)
    else if c == ')' then (Some(Tok(RParen, ")")), i + 1)
    else if c == '!' then (Some(Tok(NotTok, "!")), i + 1)
    else if c == '^' then (Some(Tok(AndTok, "^")), i + 1)
    else if c == 'v' then (Some(Tok(OrTok, "v")), i + 1)
    else if StartsWithAt(s, "<->", i) then (Some(Tok(IffTok, "<->")), i + 3)
    else if StartsWithAt(s, "->", i) then (Some(Tok(ImpTok, "->")), i + 2)
    else if IsAsciiLetter(c) then
      var j := IdentEnd(s, i + 1);
      (Some(Tok(Ident, s[i..j])), j)
    else (None, i + 1)
  }

  /** The tokens `tokenize` pushes for `s` from position `i` on, then `eof`: exactly one `eof`, at the end. */
  function Lex(s: string, i: nat): (toks: seq<Tok>)
    requires i <= |s|
    ensures |toks| >= 1 && toks[|toks| - 1] == EofTok
    decreases |s| - i
  {
    if i == |s| then [EofTok]
    else
      var (t, next) := Scan(s, i);
      if t.Some? then [t.value] + Lex(s, next) else Lex(s, next)
  }

  /** `tokenize(input)` */
  function TokensOf(input: string): seq<Tok> {
    Lex(Normalize(input), 0)
  }

  /**
   * The token list ends with its only `eof`, every identifier token holds
   * an identifier, and none of those begins with `v`.
   */
  lemma {:induction false} LexShape(s: string, i: nat)
    requires i <= |s|
    ensures forall k :: 0 <= k < |Lex(s, i)| - 1 ==> Lex(s, i)[k].kind != Eof
    ensures forall k :: 0 <= k < |Lex(s, i)| && Lex(s, i)[k].kind == Ident ==>
              IsIdentifier(Lex(s, i)[k].text) && Lex(s, i)[k].text[0] != 'v'
    decreases |s| - i
  {
    if i < |s| {
      var (t, next) := Scan(s, i);
      LexShape(s, next);
      if t.Some? {
        var toks := Lex(s, i);
        assert toks == [t.value] + Lex(s, next);
        forall k | 0 <= k < |toks|
          ensures k < |toks| - 1 ==> toks[k].kind != Eof
          ensures toks[k].kind == Ident ==> IsIdentifier(toks[k].text) && toks[k].text[0] != 'v'
        {
          if k > 0 {
            assert toks[k] == Lex(s, next)[k - 1];
          }
        }
      }
    }
  }

  /** `tokenize`: the character loop that advances `i` and pushes onto `toks`. */
  method Tokenize(input: string) returns (toks: seq<Tok>)
    ensures toks == TokensOf(input)
  {
    toks := LexAll(Normalize(input));
  }

  /** The loop of `tokenize` over the normalised string. */
  method LexAll(s: string) returns (toks: seq<Tok>)
    ensures toks == Lex(s, 0)
  {
    toks := [];
    var i := 0;
    while i < |s|
      invariant 0 <= i <= |s|
      invariant toks + Lex(s, i) == Lex(s, 0)
      decreases |s| - i
    {
      var t, next := ScanAt(s, i);
      if t.Some? {
        AppendAssoc(toks, [t.value], Lex(s, next));
        toks := toks + [t.value];
      }
      i := next;
    }
    toks := toks + [EofTok];
  }

  /** The body of `tokenize`'s loop, with the inner loop that scans an identifier. */
  method ScanAt(s: string, i: nat) returns (t: Option<Tok>, next: nat)
    requires i < |s|
    ensures (t, next) == Scan(s, i)
  {
    var c := s[i];
    if c == '(' {
      t, next := Some(Tok(LParen, "(")), i + 1;
    } else if c == ')' {
      t, next := Some(Tok(RParen, ")")), i + 1;
    } else if c == '!' {
      t, next := Some(Tok(NotTok, "!")), i + 1;
    } else if c == '^' {
      t, next := Some(Tok(AndTok, "^")), i + 1;
    } else if c == 'v' {
      t, next := Some(Tok(OrTok, "v")), i + 1;
    } else if i + 3 <= |s| && s[i..i + 3] == "<->" {
      t, next := Some(Tok(IffTok, "<->")), i + 3;
    } else if i + 2 <= |s| && s[i..i + 2] == "->" {
      t, next := Some(Tok(ImpTok, "->")), i + 2;
    } else if IsAsciiLetter(c) {
      var j := i + 1;
      while j < |s| && IsWordChar(s[j])
        invariant i + 1 <= j <= |s|
        invariant IdentEnd(s, j) == IdentEnd(s, i + 1)
      {
        j := j + 1;
      }
      t, next := Some(Tok(Ident, s[i..j])), j;
    } else {
      t, next := None, i + 1;
    }
  }
}
