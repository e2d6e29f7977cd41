/**
 * The per-rule checks of `validateProof`, one function each. A check
 * returns the messages it records, in the order it records them, and the
 * evidence it leaves. References are resolved through `lineByNo`, which
 * holds the lines checked so far, and, for the subproof rules, through
 * `lineIndexByNo` and the frames, which cover the whole proof.
 */
module Checks {
  import opened Wrappers
  import opened Text
  import opened Ast
  import opened Canonical
  import opened Parser
  import opened Formulas
  import opened Proofs
  import opened Frames

  /** What `lineByNo` holds for a checked line: the line as submitted and its parsed formula. */
  datatype Entry = Entry(raw: ProofLineInput, ast: Option<Ast>)

  /** The messages a check records, one constructor per message. */
  datatype Message =
    | LineNoRequired
    | FormulaRequired
    | ReiterationRefCount
    | RefLineNotFound
    | ReiterationMismatch
    | ConjIntroRefCount
    | NotConjunctionAst
    | ConjunctsOutOfOrder
    | NotConjunctionText
    | RefLinesMissing
    | LeftConjunctMismatch
    | RightConjunctMismatch
    | ConjElimRefCount
    | RefNotConjunction
    | NotAConjunct
    | CondElimRefCount
    | NotDetachment
    | ModusTollensRefCount
    | NotContraposition
    | BicondIntroRefCount
    | NotTwoConditionals
    | NotBothDirections
    | BicondElimRefCount
    | NoMatchingSide
    | NegIntroNotNegation
    | NegIntroNoRefs
    | NoFrameForAssumption
    | NoContradiction
    | IndirectProofNoFormula
    | NoFrameForNegation
    | CondIntroNotConditional
    | CondIntroRefs
    | NoFrameAtRef
    | DerivedOutside
    | AntecedentMismatch
    | ConsequentMismatch
    | UnivIntroNotForall
    | UnivIntroRefCount
    | UnivIntroNotInstance
    | UnivElimRefCount
    | UnivElimNotForall
    | UnivElimNotInstance
    | ExistIntroRefCount
    | ExistIntroNotExists
    | ExistIntroNotInstance
    | ExistElimRefCount
    | ExistElimNotExists

  /** The text `validateProof` records for each message. */
  function MessageText(m: Message): string {
    match m
    case LineNoRequired => "Line number required"
    case FormulaRequired => "Formula required"
    case ReiterationRefCount => "Reiteration needs exactly 1 reference"
    case RefLineNotFound => "Referenced line not found"
    case ReiterationMismatch => "Reiteration formula must match referenced line"
    case ConjIntroRefCount => "Conjunction Introduction needs 2 references"
    case NotConjunctionAst => "Conclusion must be a conjunction A^B"
    case ConjunctsOutOfOrder => "Conjuncts must match referenced lines in order"
    case NotConjunctionText => "Formula must be a conjunction like (A ^ B)"
    case RefLinesMissing => "Referenced lines missing"
    case LeftConjunctMismatch => "Left conjunct must match first reference"
    case RightConjunctMismatch => "Right conjunct must match second reference"
    case ConjElimRefCount => "Conjunction Elimination needs 1 reference"
    case RefNotConjunction => "Referenced line is not a conjunction"
    case NotAConjunct => "Result must be one conjunct of the referenced conjunction"
    case CondElimRefCount => "Conditional Elim needs 2 references"
    case NotDetachment => "References must be A and (A->B); conclusion must be B"
    case ModusTollensRefCount => "Modus Tollens needs 2 references"
    case NotContraposition => "References must be (A->B) and !B; conclusion must be !A"
    case BicondIntroRefCount => "Biconditional Intro needs 2 references"
    case NotTwoConditionals => "Must use two conditionals to conclude a biconditional"
    case NotBothDirections => "Conditionals must match both directions of the biconditional"
    case BicondElimRefCount => "Biconditional Elim needs 2 references"
    case NoMatchingSide => "One reference must be a biconditional, the other a matching side"
    case NegIntroNotNegation => "¬Intro conclusion must be a negation !A"
    case NegIntroNoRefs => "¬Intro expects references inside the subproof"
    case NoFrameForAssumption => "No subproof frame found for assumption A"
    case NoContradiction => "No contradiction found inside subproof"
    case IndirectProofNoFormula => "IP conclusion must be a formula A"
    case NoFrameForNegation => "No subproof frame found with assumption !A"
    case CondIntroNotConditional => "→Intro conclusion must be a conditional (A->B)"
    case CondIntroRefs => "→Intro expects [assumptionLine, derivedLine]"
    case NoFrameAtRef => "No subproof frame matches the assumption ref"
    case DerivedOutside => "Derived line must be inside the subproof"
    case AntecedentMismatch => "Assumption must match antecedent"
    case ConsequentMismatch => "Derived line must match conditional consequent"
    case UnivIntroNotForall => "Universal Intro: conclusion must be forallx(P(x))"
    case UnivIntroRefCount => "Universal Intro needs one reference"
    case UnivIntroNotInstance => "Reference must match body up to alpha-equivalence"
    case UnivElimRefCount => "Universal Elim needs one reference"
    case UnivElimNotForall => "Reference must be forallx(P(x))"
    case UnivElimNotInstance => "Conclusion must be instance of body (capture-avoiding)"
    case ExistIntroRefCount => "Existential Intro needs one reference"
    case ExistIntroNotExists => "Conclusion must be existsx(P(x))"
    case ExistIntroNotInstance => "Reference must be instance of body"
    case ExistElimRefCount => "Existential Elim needs exists premise and subproof result"
    case ExistElimNotExists => "First reference must be existsx(P(x))"
  }

  /** The texts of a list of messages, in order. */
  function Texts(ms: seq<Message>): (ts: seq<string>)
    ensures |ts| == |ms|
    ensures forall k :: 0 <= k < |ms| ==> ts[k] == MessageText(ms[k])
  {
    seq(|ms|, k requires 0 <= k < |ms| => MessageText(ms[k]))
  }

  /** What a check records. */
  datatype Verdict = Verdict(messages: seq<Message>, evidence: Option<LineEvidence>)

  /** The line being checked: as submitted, its normalized formula, its references and its parse. */
  datatype Claim = Claim(raw: ProofLineInput, formula: string, refs: seq<string>, ast: Option<Ast>)

  /** What the subproof rules consult about the whole proof: the lines, the frames and `lineIndexByNo`. */
  datatype Context = Context(lines: seq<ProofLineInput>, frames: seq<Frame>, indexOf: map<string, nat>)

  /** `parseAstSafe(src)`: the parse of `src ?? ""`, or nothing when the parser throws. */
  function ParseAstSafe(src: Option<string>): (a: Option<Ast>)
    ensures a.Some? ==> WellNamed(a.value)
  {
    match ParseFormula(src.GetOr(""))
    case Ok(t) => Some(t)
    case Err(_) => None
  }

  /** `if (c) messages.push(m)` */
  function When(c: bool, m: Message): seq<Message> {
    if c then [m] else []
  }

  /** `equalsCanonical` on two formulas that are both there. */
  predicate Equiv(a: Ast, b: Ast) {
    EqualsCanonical(Some(a), Some(b))
  }

  // ---------------------------------------------------------------------
  // Resolving references
  // ---------------------------------------------------------------------

  /** `lineByNo.get(ref)`: a missing reference finds nothing. */
  function Lookup(byNo: map<string, Entry>, ref: Option<string>): Option<Entry> {
    if ref.Some? && ref.value in byNo then Some(byNo[ref.value]) else None
  }

  /** `getAst(refs[k])` */
  function RefAst(byNo: map<string, Entry>, refs: seq<string>, k: nat): Option<Ast> {
    var e := Lookup(byNo, Nth(refs, k));
    if e.Some? then e.value.ast else None
  }

  /** `lineByNo.get(ref)?.raw.formula` */
  function RefFormula(byNo: map<string, Entry>, ref: Option<string>): Option<string> {
    var e := Lookup(byNo, ref);
    if e.Some? then e.value.raw.formula else None
  }

  /** `normalizeFormula(lineByNo.get(refs[k])?.raw.formula)`, empty when there is no such reference. */
  function RefText(byNo: map<string, Entry>, refs: seq<string>, k: nat): string {
    NormalizeFormula(RefFormula(byNo, Nth(refs, k)))
  }

  /** `String(refs[k])`: past the end of the references this is the text "undefined". */
  function KeyAt(refs: seq<string>, k: nat): string {
    if k < |refs| then refs[k] else "undefined"
  }

  /** A string JavaScript treats as true: present and not empty. */
  predicate Truthy(s: Option<string>) {
    s.Some? && s.value != ""
  }

  /** `lines[idx]?.formula`: nothing outside the lines. */
  function FormulaAt(lines: seq<ProofLineInput>, idx: int): Option<string> {
    if 0 <= idx < |lines| then lines[idx].formula else None
  }

  /** `lineIndexByNo.get(key)` */
  function IndexLookup(indexOf: map<string, nat>, key: string): Option<nat> {
    if key in indexOf then Some(indexOf[key]) else None
  }

  // ---------------------------------------------------------------------
  // Premise and reiteration
  // ---------------------------------------------------------------------

  /** A premise is accepted as it stands. */
  function PremiseCheck(): Verdict {
    Verdict([], Some(LineEvidence("Premise", [], None)))
  }

  /** Reiteration: one reference to an earlier line with the same normalized formula. */
  function ReiterationCheck(c: Claim, byNo: map<string, Entry>): Verdict {
    var refFormula := RefFormula(byNo, Nth(c.refs, 0));
    Verdict(
      When(|c.refs| != 1, ReiterationRefCount)
      + When(!Truthy(refFormula), RefLineNotFound)
      + When(Truthy(refFormula) && NormalizeFormula(refFormula) != c.formula, ReiterationMismatch),
      Some(LineEvidence("Reiteration", c.refs, None)))
  }

  // ---------------------------------------------------------------------
  // Conjunction
  // ---------------------------------------------------------------------

  /**
   * Conjunction introduction. When the conclusion and both references
   * parse, the conclusion must be their conjunction in order; otherwise the
   * texts are compared.
   */
  function ConjIntroCheck(c: Claim, byNo: map<string, Entry>): Verdict {
    var a1 := RefAst(byNo, c.refs, 0);
    var a2 := RefAst(byNo, c.refs, 1);
    var shape :=
      if c.ast.Some? && a1.Some? && a2.Some? then
        if !c.ast.value.And? then [NotConjunctionAst]
        else When(!Equiv(c.ast.value.left, a1.value) || !Equiv(c.ast.value.right, a2.value),
                  ConjunctsOutOfOrder)
      else
        When(!IsConjunction(c.formula), NotConjunctionText) + ConjunctTexts(c, byNo);
    Verdict(When(|c.refs| != 2, ConjIntroRefCount) + shape,
            Some(LineEvidence("Conjunction Intro", c.refs, None)))
  }

  /** The text comparison of conjunction introduction, once the conclusion splits at its last `^`. */
  function ConjunctTexts(c: Claim, byNo: map<string, Entry>): seq<Message> {
    match SplitConjunction(c.formula)
    case None => []
    case Some((left, right)) =>
      var r1 := RefText(byNo, c.refs, 0);
      var r2 := RefText(byNo, c.refs, 1);
      When(r1 == "" || r2 == "", RefLinesMissing)
      + When(r1 != "" && r1 != left, LeftConjunctMismatch)
      + When(r2 != "" && r2 != right, RightConjunctMismatch)
  }

  /** Conjunction elimination: the conclusion is one conjunct of the referenced conjunction. */
  function ConjElimCheck(c: Claim, byNo: map<string, Entry>): Verdict {
    var refA := RefAst(byNo, c.refs, 0);
    var shape :=
      if c.ast.Some? && refA.Some? then
        if !refA.value.And? then [RefNotConjunction]
        else When(!Equiv(c.ast.value, refA.value.left) && !Equiv(c.ast.value, refA.value.right),
                  NotAConjunct)
      else [];
    Verdict(When(|c.refs| != 1, ConjElimRefCount) + shape,
            Some(LineEvidence("Conjunction Elim", c.refs, None)))
  }

  // ---------------------------------------------------------------------
  // Conditional and biconditional
  // ---------------------------------------------------------------------

  /** `check(prem, cond)` of conditional elimination: `cond` is `prem -> concl`. */
  predicate Detaches(prem: Ast, cond: Ast, concl: Ast) {
    cond.Imp? && Equiv(cond.left, prem) && Equiv(concl, cond.right)
  }

  /** Conditional elimination: from A and (A->B), in either order, conclude B. */
  function CondElimCheck(c: Claim, byNo: map<string, Entry>): Verdict {
    var a1 := RefAst(byNo, c.refs, 0);
    var a2 := RefAst(byNo, c.refs, 1);
    Verdict(
      When(|c.refs| != 2, CondElimRefCount)
      + When(c.ast.Some? && a1.Some? && a2.Some?
             && !Detaches(a1.value, a2.value, c.ast.value) && !Detaches(a2.value, a1.value, c.ast.value),
             NotDetachment),
      Some(LineEvidence("Conditional Elim", c.refs, None)))
  }

  /** `check(cond, notB)` of modus tollens: `cond` is `A -> B`, `notB` is `!B` and `concl` is `!A`. */
  predicate Contraposes(cond: Ast, notB: Ast, concl: Ast) {
    cond.Imp? && notB.Not? && Equiv(notB.arg, cond.right) && concl.Not? && Equiv(concl.arg, cond.left)
  }

  /** Modus tollens: from (A->B) and !B, in either order, conclude !A. */
  function ModusTollensCheck(c: Claim, byNo: map<string, Entry>): Verdict {
    var a1 := RefAst(byNo, c.refs, 0);
    var a2 := RefAst(byNo, c.refs, 1);
    Verdict(
      When(|c.refs| != 2, ModusTollensRefCount)
      + When(c.ast.Some? && a1.Some? && a2.Some?
             && !Contraposes(a1.value, a2.value, c.ast.value) && !Contraposes(a2.value, a1.value, c.ast.value),
             NotContraposition),
      Some(LineEvidence("Modus Tollens", c.refs, None)))
  }

  /** The two conditionals run both ways between the sides of the biconditional, in either order. */
  predicate BothDirections(r1: Ast, r2: Ast, bicond: Ast) {
    r1.Imp? && r2.Imp? && bicond.Iff?
    && (var cl, cr := bicond.left, bicond.right;
        (Equiv(r1.left, cl) && Equiv(r1.right, cr) && Equiv(r2.left, cr) && Equiv(r2.right, cl))
        || (Equiv(r1.left, cr) && Equiv(r1.right, cl) && Equiv(r2.left, cl) && Equiv(r2.right, cr)))
  }

  /** Biconditional introduction: from (A->B) and (B->A) conclude (A<->B). */
  function BicondIntroCheck(c: Claim, byNo: map<string, Entry>): Verdict {
    var r1 := RefAst(byNo, c.refs, 0);
    var r2 := RefAst(byNo, c.refs, 1);
    var shape :=
      if c.ast.Some? && r1.Some? && r2.Some? then
        if !c.ast.value.Iff? || !r1.value.Imp? || !r2.value.Imp? then [NotTwoConditionals]
        else When(!BothDirections(r1.value, r2.value, c.ast.value), NotBothDirections)
      else [];
    Verdict(When(|c.refs| != 2, BicondIntroRefCount) + shape,
            Some(LineEvidence("Biconditional Intro", c.refs, None)))
  }

  /** `sideFromIff`: given one side of a biconditional, the other. */
  function OtherSide(l: Ast, r: Ast, side: Ast): Option<Ast> {
    if Equiv(side, l) then Some(r) else if Equiv(side, r) then Some(l) else None
  }

  /** `iff` is a biconditional, `side` one of its sides and `concl` the other. */
  predicate Releases(iff: Ast, side: Ast, concl: Ast) {
    iff.Iff? && (var o := OtherSide(iff.left, iff.right, side); o.Some? && Equiv(concl, o.value))
  }

  /** Biconditional elimination: from (A<->B) and one side, in either order, conclude the other side. */
  function BicondElimCheck(c: Claim, byNo: map<string, Entry>): Verdict {
    var a1 := RefAst(byNo, c.refs, 0);
    var a2 := RefAst(byNo, c.refs, 1);
    Verdict(
      When(|c.refs| != 2, BicondElimRefCount)
      + When(c.ast.Some? && a1.Some? && a2.Some?
             && !Releases(a1.value, a2.value, c.ast.value) && !Releases(a2.value, a1.value, c.ast.value),
             NoMatchingSide),
      Some(LineEvidence("Biconditional Elim", c.refs, None)))
  }

  // ---------------------------------------------------------------------
  // Subproofs: frames and contradictions
  // ---------------------------------------------------------------------

  /** The three tests the subproof rules look for a frame with. */
  datatype FrameTest =
    | AssumesText(text: Option<string>)   // the assumption is alpha-equal to this text
    | StartsAt(ref: Option<string>)       // the frame starts at the line with this number
    | AssumesNegationOf(ast: Option<Ast>) // the assumption is the negation of this formula

  /** Whether a frame passes a test. */
  predicate Passes(t: FrameTest, fr: Frame) {
    match t
    case AssumesText(a) => a.Some? && AlphaEqual(fr.assumptionFormula, Some(a.value))
    case StartsAt(ref) => SameNumber(Some(fr.startLineNo), ref)
    case AssumesNegationOf(a) =>
      var m := NegatedText(NormalizeFormula(fr.assumptionFormula));
      m.Some? && EqualsCanonical(ParseAstSafe(Some(m.value)), a)
  }

  /** `frames.find(...)`: the first frame that passes the test. */
  function FindFrame(frames: seq<Frame>, t: FrameTest): (r: Option<Frame>)
    ensures r.Some? ==> r.value in frames && Passes(t, r.value)
    ensures r.None? ==> forall f :: f in frames ==> !Passes(t, f)
  {
    FindFrameFrom(frames, t, 0)
  }

  /** The first frame from index `i` on that passes the test. */
  function FindFrameFrom(frames: seq<Frame>, t: FrameTest, i: nat): (r: Option<Frame>)
    requires i <= |frames|
    ensures r.Some? ==> r.value in frames[i..] && Passes(t, r.value)
    ensures r.None? ==> forall f :: f in frames[i..] ==> !Passes(t, f)
    decreases |frames| - i
  {
    if i == |frames| then None
    else if Passes(t, frames[i]) then Some(frames[i])
    else
      assert forall f :: f in frames[i..] ==> f == frames[i] || f in frames[i + 1..];
      FindFrameFrom(frames, t, i + 1)
  }

  /**
   * The contradiction test, corrected: one formula is the negation of the
   * other, whichever of the two it is. The engine does not use it; it is
   * the intended test that `ClashAsWritten` falls short of.
   */
  predicate Clash(x: Option<Ast>, y: Option<Ast>) {
    x.Some? && y.Some?
    && ((x.value.Not? && Equiv(x.value.arg, y.value)) || (y.value.Not? && Equiv(y.value.arg, x.value)))
  }

  /**
   * The contradiction test of `engine.ts` as written, which both
   * contradiction searches use: when `x` is a negation, only "`x` negates
   * `y`" is tried, so `y` negating `x` is missed.
   */
  predicate ClashAsWritten(x: Option<Ast>, y: Option<Ast>) {
    x.Some? && y.Some?
    && (if x.value.Not? then Equiv(x.value.arg, y.value) else y.value.Not? && Equiv(y.value.arg, x.value))
  }

  /** `inside(ref)`: the reference names a line within the frame. */
  predicate Inside(indexOf: map<string, nat>, fr: Frame, ref: string) {
    ref in indexOf && indexOf[ref] >= fr.startIdx && (fr.endIdx.None? || indexOf[ref] <= fr.endIdx.value)
  }

  /** `refIndices`: the indices of the references inside the frame, in reference order. */
  function RefIndices(indexOf: map<string, nat>, fr: Frame, refs: seq<string>): (ris: seq<nat>)
    ensures forall k :: 0 <= k < |ris| ==> fr.startIdx <= ris[k] && (fr.endIdx.Some? ==> ris[k] <= fr.endIdx.value)
    ensures forall i :: i in ris ==> exists r :: r in refs && Inside(indexOf, fr, r) && indexOf[r] == i
    decreases |refs|
  {
    if refs == [] then []
    else
      var last := refs[|refs| - 1];
      var earlier := RefIndices(indexOf, fr, refs[..|refs| - 1]);
      var added := if Inside(indexOf, fr, last) then [indexOf[last]] else [];
      assert forall r :: r in refs[..|refs| - 1] ==> r in refs;
      assert forall i :: i in added ==> Inside(indexOf, fr, last) && indexOf[last] == i;
      earlier + added
  }

  /** `parseAstSafe(lines[idx]?.formula)` */
  function AstAt(lines: seq<ProofLineInput>, idx: int): Option<Ast> {
    ParseAstSafe(FormulaAt(lines, idx))
  }

  /** The line at `idx` is written `(X^Y)` and the test as written finds `X` and `Y` contradictory. */
  predicate ClashingConjunction(lines: seq<ProofLineInput>, idx: int) {
    match SplitOuter(NormalizeFormula(FormulaAt(lines, idx)), "^")
    case None => false
    case Some((l, r)) => ClashAsWritten(ParseAstSafe(Some(l)), ParseAstSafe(Some(r)))
  }

  /** The first loop of the search, from `k` on: some referenced line is a clashing conjunction. */
  predicate ConjunctionFrom(lines: seq<ProofLineInput>, ris: seq<nat>, k: nat)
    decreases |ris| - k
  {
    k < |ris| && (ClashingConjunction(lines, ris[k]) || ConjunctionFrom(lines, ris, k + 1))
  }

  /** The formulas of the referenced lines, parsed, in reference order. */
  function ParsedRefs(lines: seq<ProofLineInput>, ris: seq<nat>): (asts: seq<Option<Ast>>)
    ensures |asts| == |ris|
  {
    if ris == [] then [] else ParsedRefs(lines, ris[..|ris| - 1]) + [AstAt(lines, ris[|ris| - 1])]
  }

  /** Entry `k` of the parsed references is the parse of the line `ris[k]` names. */
  lemma {:induction false} ParsedRefsAt(lines: seq<ProofLineInput>, ris: seq<nat>, k: nat)
    requires k < |ris|
    ensures ParsedRefs(lines, ris)[k] == AstAt(lines, ris[k])
    decreases |ris|
  {
    if k < |ris| - 1 {
      ParsedRefsAt(lines, ris[..|ris| - 1], k);
    }
  }

  /** The inner loop of the second search, from `j` on: formula `i` clashes with formula `j` or a later one. */
  predicate PartnerFrom(asts: seq<Option<Ast>>, i: nat, j: nat)
    requires i < |asts|
    decreases |asts| - j
  {
    j < |asts| && (ClashAsWritten(asts[i], asts[j]) || PartnerFrom(asts, i, j + 1))
  }

  /** The outer loop of the second search, over its first `i` rounds: some formula before formula `i` clashes with a later one. */
  predicate PairBelow(asts: seq<Option<Ast>>, i: nat)
    requires i <= |asts|
  {
    i > 0 && (PairBelow(asts, i - 1) || PartnerFrom(asts, i - 1, i))
  }

  /** Among the referenced lines, one is `(X^!X)`, or two are X and `!X`, as the two loops find it. */
  predicate Contradiction(lines: seq<ProofLineInput>, ris: seq<nat>) {
    ConjunctionFrom(lines, ris, 0) || PairBelow(ParsedRefs(lines, ris), |ris|)
  }

  /** The references inside the frame hold a contradiction. */
  predicate ContradictionIn(ctx: Context, fr: Frame, refs: seq<string>) {
    Contradiction(ctx.lines, RefIndices(ctx.indexOf, fr, refs))
  }

  /** The note naming the line a frame starts at. */
  function FrameNote(prefix: string, fr: Option<Frame>): Option<string> {
    if fr.Some? then Some(prefix + fr.value.startLineNo) else None
  }

  /** Negation introduction: a frame assuming A, a contradiction inside it, and the conclusion !A. */
  function NegIntroCheck(c: Claim, ctx: Context): Verdict {
    var notM := NegatedText(c.formula);
    var frame := FindFrame(ctx.frames, AssumesText(notM));
    var contradiction := frame.Some? && ContradictionIn(ctx, frame.value, c.refs);
    Verdict(
      When(notM.None?, NegIntroNotNegation)
      + When(|c.refs| < 1, NegIntroNoRefs)
      + When(frame.None?, NoFrameForAssumption)
      + When(!contradiction, NoContradiction),
      Some(LineEvidence("Negation Intro", c.refs, FrameNote("Assumption @", frame))))
  }

  /** Indirect proof: a frame assuming !A and a contradiction inside it conclude A. */
  function IndirectProofCheck(c: Claim, ctx: Context): Verdict {
    var frame := FindFrame(ctx.frames, AssumesNegationOf(c.ast));
    var contradiction := frame.Some? && ContradictionIn(ctx, frame.value, c.refs);
    Verdict(
      When(c.ast.None?, IndirectProofNoFormula)
      + When(frame.None?, NoFrameForNegation)
      + When(!contradiction, NoContradiction),
      Some(LineEvidence("Indirect Proof", c.refs, FrameNote("Assumption @", frame))))
  }

  /** The derived line lies outside the frame, or is not a line at all. */
  predicate Outside(fr: Frame, idx: Option<nat>) {
    idx.None? || idx.value < fr.startIdx || (fr.endIdx.Some? && idx.value > fr.endIdx.value)
  }

  /**
   * Conditional introduction: the first reference is the line a frame
   * starts at, the frame assumes the antecedent, and the second reference
   * is a line inside it whose formula is the consequent.
   */
  function CondIntroCheck(c: Claim, ctx: Context): Verdict {
    var imp := SplitOuter(c.formula, "->");
    var assRef := Nth(c.refs, 0);
    var frame := FindFrame(ctx.frames, StartsAt(assRef));
    var derivedIdx := IndexLookup(ctx.indexOf, KeyAt(c.refs, 1));
    var body :=
      if imp.Some? && frame.Some? then
        var derivedAst := AstAt(ctx.lines, if derivedIdx.Some? then derivedIdx.value else -1);
        var consAst := ParseAstSafe(Some(imp.value.1));
        When(!AlphaEqual(frame.value.assumptionFormula, Some(imp.value.0)), AntecedentMismatch)
        + When(!EqualsCanonical(derivedAst, consAst), ConsequentMismatch)
      else [];
    Verdict(
      When(imp.None?, CondIntroNotConditional)
      + When(|c.refs| != 2, CondIntroRefs)
      + When(frame.None?, NoFrameAtRef)
      + When(frame.Some? && Outside(frame.value, derivedIdx), DerivedOutside)
      + body,
      Some(LineEvidence("Conditional Intro", c.refs, FrameNote("Discharged @", frame))))
  }

  // ---------------------------------------------------------------------
  // Quantifiers
  // ---------------------------------------------------------------------

  /** The normalized formula of the line the first reference names. */
  function FirstRefText(c: Claim, byNo: map<string, Entry>): string {
    NormalizeFormula(RefFormula(byNo, Some(KeyAt(c.refs, 0))))
  }

  /** Universal introduction: the conclusion is `forallx(P)` and the reference an instance of `P`. */
  function UnivIntroCheck(c: Claim, byNo: map<string, Entry>): Verdict {
    var m := MatchQuantifier(c.formula, Forall, true);
    Verdict(
      When(m.None?, UnivIntroNotForall)
      + When(|c.refs| != 1, UnivIntroRefCount)
      + (if m.Some? then When(!InstanceOf(m.value.body, m.value.v, FirstRefText(c, byNo)),
                              UnivIntroNotInstance)
         else []),
      Some(LineEvidence("Universal Intro", c.refs, None)))
  }

  /** Universal elimination: the reference is `forallx(P)` and the conclusion an instance of `P`. */
  function UnivElimCheck(c: Claim, byNo: map<string, Entry>): Verdict {
    var qm := ParseQuantified(Some(FirstRefText(c, byNo)));
    Verdict(
      When(|c.refs| != 1, UnivElimRefCount)
      + (if qm.None? || qm.value.kind != Forall then [UnivElimNotForall]
         else When(!InstanceOf(qm.value.body, qm.value.v, c.formula), UnivElimNotInstance)),
      Some(LineEvidence("Universal Elim", c.refs, None)))
  }

  /** Existential introduction: the conclusion is `existsx(P)` and the reference an instance of `P`. */
  function ExistIntroCheck(c: Claim, byNo: map<string, Entry>): Verdict {
    var qm := ParseQuantified(Some(c.formula));
    Verdict(
      When(|c.refs| != 1, ExistIntroRefCount)
      + When(qm.None? || qm.value.kind != Exists, ExistIntroNotExists)
      + (if qm.Some? then When(!InstanceOf(qm.value.body, qm.value.v, FirstRefText(c, byNo)), ExistIntroNotInstance)
         else []),
      Some(LineEvidence("Existential Intro", c.refs, None)))
  }

  /** Existential elimination: only the shape is checked. */
  function ExistElimCheck(c: Claim, byNo: map<string, Entry>): Verdict {
    var q := ParseQuantified(Some(FirstRefText(c, byNo)));
    Verdict(
      When(|c.refs| < 2, ExistElimRefCount)
      + When(q.None? || q.value.kind != Exists, ExistElimNotExists),
      Some(LineEvidence("Existential Elim", c.refs, None)))
  }
}
