/**
 * `validateProof`: every line is checked in order against the rule it
 * cites, with references resolved through the lines checked before it, and
 * the proof is accepted when every line is and a conclusion is given.
 *
 * The first half states the verdict as functions; the second half is the
 * loops of `engine.ts` and its parse memo, proved to compute that verdict.
 */
module Engine {
  import opened Wrappers
  import opened Text
  import opened Ast
  import opened Parser
  import opened Formulas
  import opened Proofs
  import opened Frames
  import opened Rules
  import opened Checks

  /** The line as the rule checks see it. */
  function ClaimOf(line: ProofLineInput): Claim {
    Claim(line, NormalizeFormula(line.formula), line.refs.GetOr([]), ParseAstSafe(line.formula))
  }

  /** The rule a line cites, read from its trimmed rule text by the chain of `engine.ts` as written. */
  function RuleOf(line: ProofLineInput): RuleKind {
    ClassifyAsWritten(Trim(line.rule.GetOr("")))
  }

  /** What the check of rule `k` records. A rule without a check records nothing. */
  function RuleVerdict(k: RuleKind, c: Claim, ctx: Context, byNo: map<string, Entry>): Verdict {
    match k
    case Premise => PremiseCheck()
    case Reiteration => ReiterationCheck(c, byNo)
    case ConjIntro => ConjIntroCheck(c, byNo)
    case ConjElim => ConjElimCheck(c, byNo)
    case CondElim => CondElimCheck(c, byNo)
    case ModusTollens => ModusTollensCheck(c, byNo)
    case BicondIntro => BicondIntroCheck(c, byNo)
    case BicondElim => BicondElimCheck(c, byNo)
    case NegIntro => NegIntroCheck(c, ctx)
    case CondIntro => CondIntroCheck(c, ctx)
    case IndirectProof => IndirectProofCheck(c, ctx)
    case UnivIntro => UnivIntroCheck(c, byNo)
    case UnivElim => UnivElimCheck(c, byNo)
    case ExistIntro => ExistIntroCheck(c, byNo)
    case ExistElim => ExistElimCheck(c, byNo)
    case Unchecked => Verdict([], None)
  }

  /** The two messages any line can get before its rule is checked. */
  function Required(c: Claim): seq<Message> {
    When(c.raw.lineNo == "", LineNoRequired) + When(c.formula == "", FormulaRequired)
  }

  /** The verdict on one line, given `lineByNo` as the lines before it left it. */
  function LineVerdict(ctx: Context, byNo: map<string, Entry>, line: ProofLineInput): LineValidation {
    var c := ClaimOf(line);
    var r := RuleVerdict(RuleOf(line), c, ctx, byNo);
    var messages := Required(c) + r.messages;
    LineValidation(line.lineNo, messages == [], Texts(messages), r.evidence)
  }

  /** What `lineByNo` records for a line once it is checked. */
  function Entered(line: ProofLineInput): Entry {
    Entry(line, ParseAstSafe(line.formula))
  }

  /** `lineIndexByNo` after the first `k` lines: each line number maps to the last of those lines that has it. */
  function IndexUpTo(lines: seq<ProofLineInput>, k: nat): (m: map<string, nat>)
    requires k <= |lines|
    ensures forall key :: key in m ==> m[key] < k
  {
    if k == 0 then map[] else IndexUpTo(lines, k - 1)[lines[k - 1].lineNo := k - 1]
  }

  /** `lineByNo` once the first `k` lines are checked: each line number holds the last of them that has it. */
  function ByNoUpTo(lines: seq<ProofLineInput>, k: nat): map<string, Entry>
    requires k <= |lines|
  {
    var index := IndexUpTo(lines, k);
    map key | key in index :: Entered(lines[index[key]])
  }

  /** Checking line `i` enters it into `lineByNo`, over any earlier line with the same number. */
  lemma ByNoStep(lines: seq<ProofLineInput>, i: nat)
    requires i < |lines|
    ensures ByNoUpTo(lines, i + 1) == ByNoUpTo(lines, i)[lines[i].lineNo := Entered(lines[i])]
  {
  }

  /** `lineIndexByNo`, built from all the lines before any is checked. */
  function IndexOf(lines: seq<ProofLineInput>): map<string, nat> {
    IndexUpTo(lines, |lines|)
  }

  /** The whole-proof facts the subproof rules consult. */
  function ContextOf(lines: seq<ProofLineInput>): Context {
    Context(lines, FramesOf(lines), IndexOf(lines))
  }

  /** The check of one line, given `lineByNo` as the lines before it left it. */
  function Checker(ctx: Context): (map<string, Entry>, ProofLineInput) -> LineValidation {
    (byNo: map<string, Entry>, line: ProofLineInput) => LineVerdict(ctx, byNo, line)
  }

  /** The verdicts of `check` on the first `k` lines, each seeing only the lines before it. */
  function VerdictsUpTo(check: (map<string, Entry>, ProofLineInput) -> LineValidation, lines: seq<ProofLineInput>, k: nat)
    : (vs: seq<LineValidation>)
    requires k <= |lines|
    ensures |vs| == k
    ensures forall j :: 0 <= j < k ==> vs[j] == check(ByNoUpTo(lines, j), lines[j])
  {
    if k == 0 then []
    else
      var earlier := VerdictsUpTo(check, lines, k - 1);
      var v := check(ByNoUpTo(lines, k - 1), lines[k - 1]);
      assert forall j :: 0 <= j < k - 1 ==> (earlier + [v])[j] == earlier[j];
      earlier + [v]
  }

  /** `results.every((r) => r.ok)` */
  predicate AllOk(vs: seq<LineValidation>) {
    forall k :: 0 <= k < |vs| ==> vs[k].ok
  }

  /** `validateProof(premises, conclusion, lines, rules)` */
  function Validate(conclusion: string, lines: seq<ProofLineInput>): ProofValidationResult {
    var vs := VerdictsUpTo(Checker(ContextOf(lines)), lines, |lines|);
    ProofValidationResult(AllOk(vs) && conclusion != "", vs, Subproofs(FramesOf(lines)))
  }

  // ---------------------------------------------------------------------
  // The parse memo
  // ---------------------------------------------------------------------

  /** `parseMemo`: the successful parses so far, keyed by source text. */
  class ParseMemo {
    var cache: map<string, Ast>

    /** Every cached tree is the parse of its key. */
    ghost predicate Valid()
      reads this
    {
      forall k {:trigger ParseFormula(k)} :: k in cache ==> ParseFormula(k) == Ok(cache[k])
    }

    constructor ()
      ensures Valid() && cache == map[]
    {
      cache := map[];
    }

    /** `parseAstSafe(src)`: a cached tree, or a fresh parse that is cached when it succeeds. */
    method Parse(src: Option<string>) returns (a: Option<Ast>)
      requires Valid()
      modifies this
      ensures Valid()
      ensures a == ParseAstSafe(src)
      ensures cache == if a.Some? then old(cache)[src.GetOr("") := a.value] else old(cache)
    {
      var key := src.GetOr("");
      if key in cache {
        a := Some(cache[key]);
        assert cache[key := a.value] == cache;
        return;
      }
      var r := ParseSource(key);
      if r.Ok? {
        cache := cache[key := r.value];
        a := Some(r.value);
      } else {
        a := None;
      }
    }
  }

  // ---------------------------------------------------------------------
  // The loops
  // ---------------------------------------------------------------------

  /** `lines.forEach((l, idx) => lineIndexByNo.set(String(l.lineNo), idx))` */
  method IndexLines(lines: seq<ProofLineInput>) returns (m: map<string, nat>)
    ensures m == IndexOf(lines)
  {
    m := map[];
    for i := 0 to |lines|
      invariant m == IndexUpTo(lines, i)
    {
      m := m[lines[i].lineNo := i];
    }
  }

  /** `refs.filter(inside).map(...)`: the indices of the references inside the frame. */
  method CollectRefIndices(indexOf: map<string, nat>, fr: Frame, refs: seq<string>) returns (ris: seq<nat>)
    ensures ris == RefIndices(indexOf, fr, refs)
  {
    ris := [];
    for k := 0 to |refs|
      invariant ris == RefIndices(indexOf, fr, refs[..k])
    {
      assert refs[..k + 1][..k] == refs[..k];
      if Inside(indexOf, fr, refs[k]) {
        ris := ris + [indexOf[refs[k]]];
      }
    }
    assert refs[..|refs|] == refs;
  }

  /**
   * The contradiction search: first a referenced line `(X^!X)`, then a
   * pair of referenced lines X and `!X`.
   */
  method FindContradiction(memo: ParseMemo, lines: seq<ProofLineInput>, ris: seq<nat>) returns (found: bool)
    requires memo.Valid()
    modifies memo
    ensures memo.Valid()
    ensures found == Contradiction(lines, ris)
  {
    found := ScanConjunctions(memo, lines, ris);
    if !found {
      found := ScanPairs(memo, lines, ris);
    }
  }

  /** The first loop of the search, which a hit ends. */
  method ScanConjunctions(memo: ParseMemo, lines: seq<ProofLineInput>, ris: seq<nat>) returns (found: bool)
    requires memo.Valid()
    modifies memo
    ensures memo.Valid()
    ensures found == ConjunctionFrom(lines, ris, 0)
  {
    found := false;
    for k := 0 to |ris|
      invariant memo.Valid()
      invariant ConjunctionFrom(lines, ris, 0) == ConjunctionFrom(lines, ris, k)
    {
      var hit := ConjunctionClashes(memo, lines, ris[k]);
      if hit {
        found := true;
        break;
      }
    }
  }

  /** The second loop of the search, over the pairs `i < j`; a hit ends only the inner loop. */
  method ScanPairs(memo: ParseMemo, lines: seq<ProofLineInput>, ris: seq<nat>) returns (found: bool)
    requires memo.Valid()
    modifies memo
    ensures memo.Valid()
    ensures found == PairBelow(ParsedRefs(lines, ris), |ris|)
  {
    ghost var asts := ParsedRefs(lines, ris);
    found := false;
    for i := 0 to |ris|
      invariant memo.Valid()
      invariant found == PairBelow(asts, i)
    {
      var hit := ScanPartners(memo, lines, ris, i);
      if hit {
        found := true;
      }
    }
  }

  /** The inner loop: whether the formula of line `ris[i]` clashes with a later one. */
  method ScanPartners(memo: ParseMemo, lines: seq<ProofLineInput>, ris: seq<nat>, i: nat) returns (hit: bool)
    requires i < |ris| && memo.Valid()
    modifies memo
    ensures memo.Valid()
    ensures hit == PartnerFrom(ParsedRefs(lines, ris), i, i + 1)
  {
    ghost var asts := ParsedRefs(lines, ris);
    hit := false;
    for j := i + 1 to |ris|
      invariant memo.Valid()
      invariant PartnerFrom(asts, i, i + 1) == PartnerFrom(asts, i, j)
    {
      var clash := LinesClash(memo, lines, ris, i, j);
      if clash {
        hit := true;
        break;
      }
    }
  }

  /** One round of the first loop: the line at `idx` is a conjunction whose sides clash. */
  method ConjunctionClashes(memo: ParseMemo, lines: seq<ProofLineInput>, idx: nat) returns (hit: bool)
    requires memo.Valid()
    modifies memo
    ensures memo.Valid()
    ensures hit == ClashingConjunction(lines, idx)
  {
    var m := SplitOuter(NormalizeFormula(FormulaAt(lines, idx)), "^");
    hit := false;
    if m.Some? {
      var a1 := memo.Parse(Some(m.value.0));
      var a2 := memo.Parse(Some(m.value.1));
      hit := ClashAsWritten(a1, a2);
    }
  }

  /** One round of the inner loop of the second: the formulas of lines `ris[i]` and `ris[j]` clash. */
  method LinesClash(memo: ParseMemo, lines: seq<ProofLineInput>, ris: seq<nat>, i: nat, j: nat) returns (hit: bool)
    requires i < |ris| && j < |ris| && memo.Valid()
    modifies memo
    ensures memo.Valid()
    ensures hit == ClashAsWritten(ParsedRefs(lines, ris)[i], ParsedRefs(lines, ris)[j])
  {
    var x := memo.Parse(FormulaAt(lines, ris[i]));
    var y := memo.Parse(FormulaAt(lines, ris[j]));
    ParsedRefsAt(lines, ris, i);
    ParsedRefsAt(lines, ris, j);
    hit := ClashAsWritten(x, y);
  }

  /** Negation introduction, with its contradiction search. */
  method NegIntroStep(memo: ParseMemo, c: Claim, ctx: Context) returns (r: Verdict)
    requires memo.Valid()
    modifies memo
    ensures memo.Valid()
    ensures r == NegIntroCheck(c, ctx)
  {
    var notM := NegatedText(c.formula);
    var frame := FindFrame(ctx.frames, AssumesText(notM));
    var contradiction := false;
    if frame.Some? {
      var ris := CollectRefIndices(ctx.indexOf, frame.value, c.refs);
      contradiction := FindContradiction(memo, ctx.lines, ris);
    }
    r := Verdict(
      When(notM.None?, NegIntroNotNegation)
      + When(|c.refs| < 1, NegIntroNoRefs)
      + When(frame.None?, NoFrameForAssumption)
      + When(!contradiction, NoContradiction),
      Some(LineEvidence("Negation Intro", c.refs, FrameNote("Assumption @", frame))));
  }

  /** Indirect proof, with its contradiction search. */
  method IndirectProofStep(memo: ParseMemo, c: Claim, ctx: Context) returns (r: Verdict)
    requires memo.Valid()
    modifies memo
    ensures memo.Valid()
    ensures r == IndirectProofCheck(c, ctx)
  {
    var frame := FindFrame(ctx.frames, AssumesNegationOf(c.ast));
    var contradiction := false;
    if frame.Some? {
      var ris := CollectRefIndices(ctx.indexOf, frame.value, c.refs);
      contradiction := FindContradiction(memo, ctx.lines, ris);
    }
    r := Verdict(
      When(c.ast.None?, IndirectProofNoFormula)
      + When(frame.None?, NoFrameForNegation)
      + When(!contradiction, NoContradiction),
      Some(LineEvidence("Indirect Proof", c.refs, FrameNote("Assumption @", frame))));
  }

  /** Universal introduction, with the loop of `isInstanceOf`. */
  method UnivIntroStep(c: Claim, byNo: map<string, Entry>) returns (r: Verdict)
    ensures r == UnivIntroCheck(c, byNo)
  {
    var m := MatchQuantifier(c.formula, Forall, true);
    var instance := [];
    if m.Some? {
      var ok := IsInstanceOf(m.value.body, m.value.v, FirstRefText(c, byNo));
      instance := When(!ok, UnivIntroNotInstance);
    }
    r := Verdict(
      When(m.None?, UnivIntroNotForall)
      + When(|c.refs| != 1, UnivIntroRefCount)
      + instance,
      Some(LineEvidence("Universal Intro", c.refs, None)));
  }

  /** Universal elimination, with the loop of `isInstanceOf`. */
  method UnivElimStep(c: Claim, byNo: map<string, Entry>) returns (r: Verdict)
    ensures r == UnivElimCheck(c, byNo)
  {
    var qm := ParseQuantified(Some(FirstRefText(c, byNo)));
    var shape: seq<Message>;
    if qm.None? || qm.value.kind != Forall {
      shape := [UnivElimNotForall];
    } else {
      var ok := IsInstanceOf(qm.value.body, qm.value.v, c.formula);
      shape := When(!ok, UnivElimNotInstance);
    }
    r := Verdict(When(|c.refs| != 1, UnivElimRefCount) + shape,
                 Some(LineEvidence("Universal Elim", c.refs, None)));
  }

  /** Existential introduction, with the loop of `isInstanceOf`. */
  method ExistIntroStep(c: Claim, byNo: map<string, Entry>) returns (r: Verdict)
    ensures r == ExistIntroCheck(c, byNo)
  {
    var qm := ParseQuantified(Some(c.formula));
    var instance := [];
    if qm.Some? {
      var ok := IsInstanceOf(qm.value.body, qm.value.v, FirstRefText(c, byNo));
      instance := When(!ok, ExistIntroNotInstance);
    }
    r := Verdict(
      When(|c.refs| != 1, ExistIntroRefCount)
      + When(qm.None? || qm.value.kind != Exists, ExistIntroNotExists)
      + instance,
      Some(LineEvidence("Existential Intro", c.refs, None)));
  }

  /** The body of the line loop: the verdict on one line, and its parsed formula for `lineByNo`. */
  method CheckLine(memo: ParseMemo, ctx: Context, byNo: map<string, Entry>, line: ProofLineInput)
    returns (v: LineValidation, ast: Option<Ast>)
    requires memo.Valid()
    modifies memo
    ensures memo.Valid()
    ensures v == LineVerdict(ctx, byNo, line)
    ensures ast == ParseAstSafe(line.formula)
  {
    var formula := NormalizeFormula(line.formula);
    var rule := Trim(line.rule.GetOr(""));
    var refs := line.refs.GetOr([]);
    ast := memo.Parse(line.formula);
    var c := Claim(line, formula, refs, ast);
    var r := RuleStep(memo, ClassifyAsWritten(rule), c, ctx, byNo);
    var messages := When(line.lineNo == "", LineNoRequired) + When(formula == "", FormulaRequired) + r.messages;
    v := LineValidation(line.lineNo, messages == [], Texts(messages), r.evidence);
  }

  /** The rule dispatch: the checks with loops run as methods, the others as they are stated. */
  method RuleStep(memo: ParseMemo, kind: RuleKind, c: Claim, ctx: Context, byNo: map<string, Entry>) returns (r: Verdict)
    requires memo.Valid()
    modifies memo
    ensures memo.Valid()
    ensures r == RuleVerdict(kind, c, ctx, byNo)
  {
    match kind {
      case NegIntro => r := NegIntroStep(memo, c, ctx);
      case IndirectProof => r := IndirectProofStep(memo, c, ctx);
      case UnivIntro => r := UnivIntroStep(c, byNo);
      case UnivElim => r := UnivElimStep(c, byNo);
      case ExistIntro => r := ExistIntroStep(c, byNo);
      case _ => r := RuleVerdict(kind, c, ctx, byNo);
    }
  }

  /** `results.every((r) => r.ok)` */
  method EveryOk(vs: seq<LineValidation>) returns (b: bool)
    ensures b == AllOk(vs)
  {
    b := true;
    var k := 0;
    while k < |vs| && b
      invariant 0 <= k <= |vs|
      invariant b <==> forall j :: 0 <= j < k ==> vs[j].ok
    {
      b := vs[k].ok;
      k := k + 1;
    }
  }

  /**
   * `validateProof(premises, conclusion, lines, rules)`: the premises are
   * parsed into `knownAst`, which nothing reads, so they only fill the
   * memo; the frames and the line index are built; then every line is
   * checked and entered into `lineByNo`.
   */
  method ValidateProof(memo: ParseMemo, premises: seq<string>, conclusion: string, lines: seq<ProofLineInput>)
    returns (r: ProofValidationResult)
    requires memo.Valid()
    modifies memo
    ensures memo.Valid()
    ensures r == Validate(conclusion, lines)
  {
    for k := 0 to |premises|
      invariant memo.Valid()
    {
      var parsed := memo.Parse(Some(premises[k]));
    }
    var frames := TrackFrames(lines);
    var indexOf := IndexLines(lines);
    var ctx := Context(lines, frames, indexOf);
    var byNo: map<string, Entry> := map[];
    var results: seq<LineValidation> := [];
    for i := 0 to |lines|
      invariant memo.Valid()
      invariant byNo == ByNoUpTo(lines, i)
      invariant results == VerdictsUpTo(Checker(ctx), lines, i)
    {
      var v, ast := CheckLine(memo, ctx, byNo, lines[i]);
      ByNoStep(lines, i);
      byNo := byNo[lines[i].lineNo := Entry(lines[i], ast)];
      results := results + [v];
    }
    var allOk := EveryOk(results);
    r := ProofValidationResult(allOk && conclusion != "", results, Subproofs(frames));
  }
}
