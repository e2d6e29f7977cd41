/**
 * Which rule a proof line cites. `validateProof` tries a chain of
 * case-insensitive patterns on the trimmed rule text and takes the first
 * that matches; a rule no pattern matches is not checked at all.
 *
 * Two names the editor offers land in the wrong branch of that chain:
 * "Biconditional Elim" contains "conditional elim" and is taken as
 * conditional elimination, so the biconditional elimination check is
 * never reached; "Double Negation Intro" contains "negation intro" and is
 * taken as negation introduction. `ClassifyAsWritten` is the chain as
 * `engine.ts` has it, and the engine uses it; `Classify` is the corrected
 * chain, which sends the first to biconditional elimination and leaves
 * the second unchecked, as the other rules without a check are.
 */
module Rules {
  import opened Text

  datatype RuleKind =
    | Premise
    | Reiteration
    | ConjIntro
    | ConjElim
    | CondElim
    | ModusTollens
    | BicondIntro
    | BicondElim
    | NegIntro
    | CondIntro
    | IndirectProof
    | UnivIntro
    | UnivElim
    | ExistIntro
    | ExistElim
    | Unchecked

  // The patterns, one predicate each.

  /** `rule === "" || /premise/i` */
  predicate NamesPremise(r: string) {
    r == "" || ContainsWordsCI(r, ["premise"])
  }

  /** `/reiteration/i` */
  predicate NamesReiteration(r: string) {
    ContainsWordsCI(r, ["reiteration"])
  }

  /** `/conjunction\s*intro/i` or `/\bci\b/i` */
  predicate NamesConjIntro(r: string) {
    ContainsWordsCI(r, ["conjunction", "intro"]) || ContainsWholeWordCI(r, "ci")
  }

  /** `/conjunction\s*elim/i` or `/\bce\b/i` */
  predicate NamesConjElim(r: string) {
    ContainsWordsCI(r, ["conjunction", "elim"]) || ContainsWholeWordCI(r, "ce")
  }

  /** `/conditional\s*elim/i`, `/modus\s*ponens/i` or `/\bmp\b/i` */
  predicate NamesCondElim(r: string) {
    ContainsWordsCI(r, ["conditional", "elim"]) || ContainsWordsCI(r, ["modus", "ponens"]) || ContainsWholeWordCI(r, "mp")
  }

  /** `/modus\s*tollens/i` or `/\bmt\b/i` */
  predicate NamesModusTollens(r: string) {
    ContainsWordsCI(r, ["modus", "tollens"]) || ContainsWholeWordCI(r, "mt")
  }

  /** `/biconditional\s*intro/i` */
  predicate NamesBicondIntro(r: string) {
    ContainsWordsCI(r, ["biconditional", "intro"])
  }

  /** `/biconditional\s*elim/i` */
  predicate NamesBicondElim(r: string) {
    ContainsWordsCI(r, ["biconditional", "elim"])
  }

  /** `/negation\s*intro/i` */
  predicate NamesNegIntro(r: string) {
    ContainsWordsCI(r, ["negation", "intro"])
  }

  /** `/conditional\s*intro/i` */
  predicate NamesCondIntro(r: string) {
    ContainsWordsCI(r, ["conditional", "intro"])
  }

  /** `/^(indirect\s*proof|ip)$/i` */
  predicate NamesIndirectProof(r: string) {
    IsWordsCI(r, ["indirect", "proof"]) || IsWordsCI(r, ["ip"])
  }

  /** `/^universal\s*intro$/i` */
  predicate NamesUnivIntro(r: string) {
    IsWordsCI(r, ["universal", "intro"])
  }

  /** `/^universal\s*elim$/i` */
  predicate NamesUnivElim(r: string) {
    IsWordsCI(r, ["universal", "elim"])
  }

  /** `/^existential\s*intro$/i` */
  predicate NamesExistIntro(r: string) {
    IsWordsCI(r, ["existential", "intro"])
  }

  /** `/^existential\s*elim$/i` */
  predicate NamesExistElim(r: string) {
    IsWordsCI(r, ["existential", "elim"])
  }

  /** The rule name of double negation introduction, `double\s*negation\s*intro`. */
  predicate NamesDoubleNegIntro(r: string) {
    ContainsWordsCI(r, ["double", "negation", "intro"])
  }

  /** Which of the patterns a rule text matches. */
  datatype Tests = Tests(
    premise: bool, reiteration: bool, conjIntro: bool, conjElim: bool, condElim: bool,
    modusTollens: bool, bicondIntro: bool, bicondElim: bool, negIntro: bool, condIntro: bool,
    indirectProof: bool, univIntro: bool, univElim: bool, existIntro: bool, existElim: bool)

  function TestsOf(r: string): Tests {
    Tests(NamesPremise(r), NamesReiteration(r), NamesConjIntro(r), NamesConjElim(r), NamesCondElim(r),
          NamesModusTollens(r), NamesBicondIntro(r), NamesBicondElim(r), NamesNegIntro(r), NamesCondIntro(r),
          NamesIndirectProof(r), NamesUnivIntro(r), NamesUnivElim(r), NamesExistIntro(r), NamesExistElim(r))
  }

  /** The first pattern that matches, in the order `engine.ts` tests them. */
  function FirstMatch(t: Tests): RuleKind {
    if t.premise then Premise
    else if t.reiteration then Reiteration
    else if t.conjIntro then ConjIntro
    else if t.conjElim then ConjElim
    else if t.condElim then CondElim
    else if t.modusTollens then ModusTollens
    else if t.bicondIntro then BicondIntro
    else if t.bicondElim then BicondElim
    else if t.negIntro then NegIntro
    else if t.condIntro then CondIntro
    else if t.indirectProof then IndirectProof
    else if t.univIntro then UnivIntro
    else if t.univElim then UnivElim
    else if t.existIntro then ExistIntro
    else if t.existElim then ExistElim
    else Unchecked
  }

  /** The branch of `validateProof` a trimmed rule text takes. */
  function ClassifyAsWritten(r: string): RuleKind {
    FirstMatch(TestsOf(r))
  }

  /**
   * The corrected chain: biconditional elimination is tested before
   * conditional elimination, and double negation introduction is not
   * negation introduction.
   */
  function Classify(r: string): RuleKind {
    var k := ClassifyAsWritten(r);
    if k == CondElim && NamesBicondElim(r) then BicondElim
    else if k == NegIntro && NamesDoubleNegIntro(r) then Unchecked
    else k
  }

  // ---------------------------------------------------------------------
  // The two misclassifications
  // ---------------------------------------------------------------------

  /** A case-insensitive match of `w` is also a match of every suffix of `w`. */
  lemma MatchesSuffix(s: string, i: nat, w: string, k: nat)
    requires MatchesAtCI(s, i, w) && k <= |w|
    ensures MatchesAtCI(s, i + k, w[k..])
  {
    forall j | 0 <= j < |w| - k ensures LowerAscii(s[i + k + j]) == w[k..][j] {
      assert LowerAscii(s[i + (k + j)]) == w[k + j];
    }
  }

  /** After its first word, a match of a word list goes on with the rest after the spaces. */
  lemma WordsStep(s: string, i: nat, w: string, rest: seq<string>)
    requires i <= |s| && |rest| > 0 && MatchWordsAt(s, i, [w] + rest).Some?
    ensures i + |w| <= |s|
    ensures MatchWordsAt(s, i, [w] + rest) == MatchWordsAt(s, SkipSpaces(s, i + |w|), rest)
  {
    assert ([w] + rest)[0] == w && ([w] + rest)[1..] == rest;
  }

  /** A match of a word list is also a match, `k` characters later, of the list with its first word shortened by `k`. */
  lemma WordsSuffix(s: string, i: nat, w: string, k: nat, rest: seq<string>)
    requires i <= |s| && |rest| > 0 && k < |w| && MatchWordsAt(s, i, [w] + rest).Some?
    ensures MatchWordsAt(s, i + k, [w[k..]] + rest) == MatchWordsAt(s, i, [w] + rest)
  {
    WordsStep(s, i, w, rest);
    assert MatchesAtCI(s, i, w);
    MatchesSuffix(s, i, w, k);
    assert ([w[k..]] + rest)[0] == w[k..] && ([w[k..]] + rest)[1..] == rest;
  }

  /** Where `biconditional\s*elim` matches, `conditional\s*elim` matches two characters later. */
  lemma BicondElimNamesCondElim(r: string)
    requires NamesBicondElim(r)
    ensures ContainsWordsCI(r, ["conditional", "elim"])
  {
    var words := ["biconditional", "elim"];
    var i :| 0 <= i <= |r| && MatchWordsAt(r, i, words).Some?;
    assert words == ["biconditional"] + ["elim"];
    WordsSuffix(r, i, "biconditional", 2, ["elim"]);
    assert ["biconditional"[2..]] + ["elim"] == ["conditional", "elim"];
  }

  /** Where `double\s*negation\s*intro` matches, `negation\s*intro` matches after the spaces. */
  lemma DoubleNegIntroNamesNegIntro(r: string)
    requires NamesDoubleNegIntro(r)
    ensures NamesNegIntro(r)
  {
    var words := ["double", "negation", "intro"];
    var i :| 0 <= i <= |r| && MatchWordsAt(r, i, words).Some?;
    assert words == ["double"] + ["negation", "intro"];
    WordsStep(r, i, "double", ["negation", "intro"]);
  }

  /**
   * As written, no rule text ever reaches the biconditional elimination
   * check: every text naming it also names conditional elimination, which
   * is tested first.
   */
  lemma BicondElimUnreachable(r: string)
    ensures ClassifyAsWritten(r) != BicondElim
  {
    if NamesBicondElim(r) {
      BicondElimNamesCondElim(r);
    }
    ShadowedBranch(TestsOf(r));
  }

  /** A branch whose pattern implies an earlier one's is never taken. */
  lemma ShadowedBranch(t: Tests)
    requires t.bicondElim ==> t.condElim
    ensures FirstMatch(t) != BicondElim
  {
  }

  /** Corrected: a rule naming biconditional elimination, and no rule tested before conditional elimination, gets that check. */
  lemma BicondElimReached(r: string)
    requires NamesBicondElim(r)
    requires !NamesPremise(r) && !NamesReiteration(r) && !NamesConjIntro(r) && !NamesConjElim(r)
    ensures Classify(r) == BicondElim
  {
    BicondElimNamesCondElim(r);
  }

  /**
   * As written, a rule naming double negation introduction, and none of
   * the rules tested before negation introduction, is checked as negation
   * introduction.
   */
  lemma DoubleNegIntroAsNegIntro(r: string)
    requires NamesDoubleNegIntro(r)
    requires !NamesPremise(r) && !NamesReiteration(r) && !NamesConjIntro(r) && !NamesConjElim(r)
    requires !NamesCondElim(r) && !NamesModusTollens(r) && !NamesBicondIntro(r) && !NamesBicondElim(r)
    ensures ClassifyAsWritten(r) == NegIntro
  {
    DoubleNegIntroNamesNegIntro(r);
  }

  /** Corrected: double negation introduction is never checked as negation introduction. */
  lemma DoubleNegIntroNotNegIntro(r: string)
    requires NamesDoubleNegIntro(r)
    ensures Classify(r) != NegIntro
  {
  }

  /** The correction changes the verdict only for those two names. */
  lemma ClassifyAgrees(r: string)
    requires !NamesBicondElim(r) && !NamesDoubleNegIntro(r)
    ensures Classify(r) == ClassifyAsWritten(r)
  {
  }
}
