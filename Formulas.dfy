/**
 * The string-level helpers of the proof engine: `normalizeFormula`, the
 * regular expressions that recognise a conjunction, a conditional, a
 * negation and a quantified formula, whole-identifier substitution,
 * alpha-equivalence of quantified formulas, identifier extraction and the
 * instance test of the quantifier rules. Every regular expression is
 * written out as the character-level test it performs.
 */
module Formulas {
  import opened Wrappers
  import opened Text
  import opened Tokens

  // ---------------------------------------------------------------------
  // normalizeFormula
  // ---------------------------------------------------------------------

  /** `.replace(/∧|&/g, "^")` */
  function EngineStage1(s: string): string { ReplaceAll(s, ["∧", "&"], "^") }

  /** `.replace(/→|=>/g, "->")` */
  function EngineStage2(s: string): string { ReplaceAll(s, ["→", "=>"], "->") }

  /** `.replace(/∨|\|\|/g, "v")` */
  function EngineStage3(s: string): string { ReplaceAll(s, ["∨", "||"], "v") }

  /** `.replace(/↔|<=>/g, "<->")` */
  function EngineStage4(s: string): string { ReplaceAll(s, ["↔", "<=>"], "<->") }

  /** `.replace(/¬|~/g, "!")` */
  function EngineStage5(s: string): string { ReplaceAll(s, ["¬", "~"], "!") }

  /** `.replace(/∀/g, "forall")` */
  function EngineStage6(s: string): string { ReplaceAll(s, ["∀"], "forall") }

  /** `.replace(/∃/g, "exists")` */
  function EngineStage7(s: string): string { ReplaceAll(s, ["∃"], "exists") }

  /** The replacement chain, applied after all white space is removed. */
  function EngineChain(s: string): string {
    EngineStage7(EngineStage6(EngineStage5(EngineStage4(EngineStage3(EngineStage2(EngineStage1(StripSpaces(s))))))))
  }

  /** `normalizeFormula(formula)`: a missing formula normalizes to the empty string. */
  function NormalizeFormula(f: Option<string>): string {
    if f.None? || f.value == [] then [] else EngineChain(f.value)
  }

  /** The characters `normalizeFormula` rewrites one at a time. */
  predicate IsEngineAlias(c: char) {
    c == '∧' || c == '&' || c == '→' || c == '∨' || c == '↔' || c == '¬' || c == '~' || c == '∀' || c == '∃'
  }

  /**
   * Text that `normalizeFormula` leaves as it is: no white space, no alias
   * character, and no `=` or `|` that could begin `=>`, `||` or `<=>`.
   */
  predicate IsPlain(s: string) {
    forall k :: 0 <= k < |s| ==> !IsSpace(s[k]) && !IsEngineAlias(s[k]) && s[k] != '=' && s[k] != '|'
  }

  // ---------------------------------------------------------------------
  // The shape tests: conjunction, conditional, negation
  // ---------------------------------------------------------------------

  /** No `(` and no `)`: what `[^()]+` accepts, once it is non-empty. */
  predicate NoParens(s: string) {
    forall k :: 0 <= k < |s| ==> s[k] != '(' && s[k] != ')'
  }

  /** `/^\([^()]+\^[^()]+\)$/.test(f)` */
  predicate IsConjunctionText(f: string) {
    |f| >= 5 && f[0] == '(' && f[|f| - 1] == ')' && NoParens(f[1..|f| - 1])
    && exists k :: 2 <= k <= |f| - 3 && f[k] == '^'
  }

  /** `isConjunction(formula)`, which normalizes first. */
  predicate IsConjunction(formula: string) {
    IsConjunctionText(NormalizeFormula(Some(formula)))
  }

  /**
   * `f.match(/^\((.+)OP(.+)\)$/)` for a literal operator `op`. The first
   * group is greedy, so the split is at the last occurrence of `op` that
   * leaves the second group non-empty.
   */
  function SplitOuter(f: string, op: string): Option<(string, string)>
    requires |op| > 0
  {
    if |f| < |op| + 4 || f[0] != '(' || f[|f| - 1] != ')' || !AllDotChars(f[1..|f| - 1]) then None
    else
      var p := LastAt(f, op, |f| - 2 - |op|);
      if p < 2 then None else Some((f[1..p], f[p + |op|..|f| - 1]))
  }

  /** The last place in `[2, k]` where `op` occurs, or 1 when there is none. */
  function LastAt(f: string, op: string, k: int): (p: int)
    ensures p == 1 || (2 <= p <= k && StartsWithAt(f, op, p))
    ensures forall q :: p < q <= k && 2 <= q ==> !StartsWithAt(f, op, q)
    decreases k
  {
    if k < 2 then 1
    else if StartsWithAt(f, op, k) then k
    else LastAt(f, op, k - 1)
  }

  /** `splitConjunction(formula)`, which normalizes first. */
  function SplitConjunction(formula: string): Option<(string, string)> {
    SplitOuter(NormalizeFormula(Some(formula)), "^")
  }

  /** `s.match(/^!(.+)$/)`: the negated text. */
  function NegatedText(s: string): Option<string> {
    if |s| >= 2 && s[0] == '!' && AllDotChars(s[1..]) then Some(s[1..]) else None
  }

  // ---------------------------------------------------------------------
  // Quantified formulas
  // ---------------------------------------------------------------------

  datatype Quantifier = Forall | Exists

  function QuantifierWord(q: Quantifier): string {
    match q
    case Forall => "forall"
    case Exists => "exists"
  }

  /** `{ kind, v, body }` of `parseQuantified`. */
  datatype Quantified = Quantified(kind: Quantifier, v: char, body: string)

  /** The text `WORDv(body)` that a quantified formula is written as. */
  function QuantifiedText(x: Quantified): string {
    QuantifierWord(x.kind) + [x.v] + "(" + x.body + ")"
  }

  /**
   * `s.match(/^WORD([a-zA-Z])\((.*)\)$/)` for the word of `q`, or with
   * `(.+)` when `nonEmpty`.
   */
  function MatchQuantifier(s: string, q: Quantifier, nonEmpty: bool): Option<Quantified> {
    var w := QuantifierWord(q);
    if |s| >= |w| + 3 + (if nonEmpty then 1 else 0) && s[..|w|] == w && IsAsciiLetter(s[|w|])
       && s[|w| + 1] == '(' && s[|s| - 1] == ')' && AllDotChars(s[|w| + 2..|s| - 1])
    then Some(Quantified(q, s[|w|], s[|w| + 2..|s| - 1]))
    else None
  }

  /** Both patterns of `parseQuantified`, `forall` tried before `exists`. */
  function MatchEitherQuantifier(s: string): Option<Quantified> {
    var m := MatchQuantifier(s, Forall, false);
    if m.Some? then m else MatchQuantifier(s, Exists, false)
  }

  /** `parseQuantified(src)` */
  function ParseQuantified(src: Option<string>): Option<Quantified> {
    MatchEitherQuantifier(NormalizeFormula(src))
  }

  /**
   * The variable `v` stands alone at `i`: the look-behind
   * `(?<![a-zA-Z0-9_])` and the look-ahead `(?![a-zA-Z0-9_])` both hold.
   */
  predicate FreeAt(s: string, v: char, i: nat) {
    i < |s| && s[i] == v && (i == 0 || !IsWordChar(s[i - 1])) && (i + 1 == |s| || !IsWordChar(s[i + 1]))
  }

  /** The replacement from position `i` on. */
  function ReplaceVarFrom(s: string, v: char, term: string, i: nat): string
    decreases |s| - i
  {
    if i >= |s| then [] else (if FreeAt(s, v, i) then term else [s[i]]) + ReplaceVarFrom(s, v, term, i + 1)
  }

  /**
   * `replaceVar(body, v, term)` for the one-letter variable `v`: every
   * occurrence of `v` that is not part of a longer identifier is replaced.
   */
  function ReplaceVar(body: string, v: char, term: string): string {
    ReplaceVarFrom(body, v, term, 0)
  }

  /** The name both bound variables are renamed to. */
  const BoundName := "_v"

  /** `alphaEqual(a, b)` */
  predicate AlphaEqual(a: Option<string>, b: Option<string>) {
    var sa := NormalizeFormula(a);
    var sb := NormalizeFormula(b);
    sa == sb
    || (var qa := ParseQuantified(Some(sa));
        var qb := ParseQuantified(Some(sb));
        qa.Some? && qb.Some? && qa.value.kind == qb.value.kind
        && ReplaceVar(qa.value.body, qa.value.v, BoundName) == ReplaceVar(qb.value.body, qb.value.v, BoundName))
  }

  // ---------------------------------------------------------------------
  // extractIdentifiers and isInstanceOf
  // ---------------------------------------------------------------------

  // `s.match(/[a-zA-Z][a-zA-Z0-9_]*/g)` from position `i` on: the
  // identifiers in order, each as long as possible.
  function IdentMatches(s: string, i: nat): (ms: seq<string>)
    requires i <= |s|
    ensures forall k :: 0 <= k < |ms| ==> IsIdentifier(ms[k])
    decreases |s| - i
  {
    if i == |s| then []
    else if IsAsciiLetter(s[i]) then
      var e := IdentEnd(s, i + 1);
      [s[i..e]] + IdentMatches(s, e)
    else IdentMatches(s, i + 1)
  }

  /** The quantifier words, which are not identifiers to substitute. */
  predicate IsQuantifierWord(t: string) {
    t == "forall" || t == "exists"
  }

  /** One step of the loop: `ids.add(t)` unless `t` is a quantifier word. */
  function AddIdentifier(ids: seq<string>, t: string): seq<string> {
    if IsQuantifierWord(t) || t in ids then ids else ids + [t]
  }

  /** The insertion-ordered set the loop builds from `ms`, starting from `ids`. */
  function CollectIdentifiers(ms: seq<string>, ids: seq<string>): seq<string>
    decreases |ms|
  {
    if ms == [] then ids else CollectIdentifiers(ms[1..], AddIdentifier(ids, ms[0]))
  }

  /** `extractIdentifiers(s)`: `Array.from` of the set, in insertion order. */
  function IdentifiersOf(s: string): seq<string> {
    CollectIdentifiers(IdentMatches(s, 0), [])
  }

  /** `extractIdentifiers(s)`, with its loop over the matches. */
  method ExtractIdentifiers(s: string) returns (ids: seq<string>)
    ensures ids == IdentifiersOf(s)
  {
    var m := IdentMatches(s, 0);
    ids := [];
    var k := 0;
    while k < |m|
      invariant 0 <= k <= |m|
      invariant CollectIdentifiers(m[k..], ids) == IdentifiersOf(s)
    {
      assert m[k..][1..] == m[k + 1..];
      var t := m[k];
      if !IsQuantifierWord(t) && t !in ids {
        ids := ids + [t];
      }
      k := k + 1;
    }
  }

  /**
   * `isInstanceOf(body, variable, target)`: the normalized body is the
   * normalized target, or substituting some identifier of the target for
   * the variable reproduces it.
   */
  predicate InstanceOf(body: string, v: char, target: string) {
    var nb := NormalizeFormula(Some(body));
    var nt := NormalizeFormula(Some(target));
    var tokens := IdentifiersOf(nt);
    nb == nt || exists k :: 0 <= k < |tokens| && Reproduces(nb, v, tokens[k], nt)
  }

  /** Substituting `tok` for `v` in `nb` gives `nt` once normalized. */
  predicate Reproduces(nb: string, v: char, tok: string, nt: string) {
    NormalizeFormula(Some(ReplaceVar(nb, v, tok))) == nt
  }

  /** `isInstanceOf`, with its loop over the target's identifiers. */
  method IsInstanceOf(body: string, v: char, target: string) returns (r: bool)
    ensures r == InstanceOf(body, v, target)
  {
    var nb := NormalizeFormula(Some(body));
    var nt := NormalizeFormula(Some(target));
    if nb == nt {
      return true;
    }
    var tokens := ExtractIdentifiers(nt);
    r := AnyReproduces(nb, v, tokens, nt);
  }

  /** The loop of `isInstanceOf`: whether some token reproduces the target. */
  method AnyReproduces(nb: string, v: char, tokens: seq<string>, nt: string) returns (r: bool)
    ensures r <==> exists k :: 0 <= k < |tokens| && Reproduces(nb, v, tokens[k], nt)
  {
    var k := 0;
    r := false;
    while k < |tokens| && !r
      invariant 0 <= k <= |tokens|
      invariant r <==> exists j :: 0 <= j < k && Reproduces(nb, v, tokens[j], nt)
    {
      r := Reproduces(nb, v, tokens[k], nt);
      k := k + 1;
    }
  }
}
