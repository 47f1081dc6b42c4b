/**
  The rule evaluator (compliance/evaluator.py): an ordered chain of gates for each
  condition, and a three-valued verdict for each rule. Time is a parameter.
*/
module Evaluator {
  import opened Basics
  import opened Rules
  import opened Findings

  datatype AttributeView = AttributeView(
    value: Value,
    observedAtNs: int,
    validUntilNs: Option<int>,
    evidenceRef: Option<string>)
  {
    predicate IsStale(now: int) {
      validUntilNs.Some? && now > validUntilNs.value
    }
  }

  datatype ObjectView = ObjectView(
    objectId: string,
    classId: string,
    cameraId: string,
    attributes: map<string, AttributeView>)

  datatype Coverage = Coverage(observableFraction: real, unavailable: seq<(string, string)>) {
    predicate FullyObservable() {
      observableFraction >= 1.0 && unavailable == []
    }
  }

  /** What the caller passes beside the subject: the platform's gaps and coverage. */
  datatype Context = Context(coverage: Option<Coverage>, gaps: set<string>)

  function Held(view: ObjectView, key: string): Option<AttributeView> {
    if key in view.attributes then Some(view.attributes[key]) else None
  }

  /** `_compare`; `None` when the comparison is not meaningful. */
  function Compare(c: Condition, held: Value): Option<bool> {
    match c.operator
    case Eq => Some(Same(held, c.expected))
    case Ne => Some(!Same(held, c.expected))
    case In => Some(Among(held, c.expected))
    case NotIn => Some(!Among(held, c.expected))
    case Present => None
    case Gt => Ordered(held, c.expected, (a, b) => a > b)
    case Gte => Ordered(held, c.expected, (a, b) => a >= b)
    case Lt => Ordered(held, c.expected, (a, b) => a < b)
    case Lte => Ordered(held, c.expected, (a, b) => a <= b)
  }

  predicate Among(held: Value, expected: Value) {
    expected.Items? && exists i :: 0 <= i < |expected.items| && Same(held, expected.items[i])
  }

  /** Numbers are ordered; a boolean or anything else is not. */
  function Ordered(held: Value, expected: Value, holds: (real, real) -> bool): Option<bool> {
    if held.Number? && expected.Number? then Some(holds(held.number, expected.number)) else None
  }

  predicate StaleFor(held: AttributeView, evidence: EvidenceRequirements, now: int) {
    || held.IsStale(now)
    || (evidence.maxStalenessNs.Some? && now - held.observedAtNs > evidence.maxStalenessNs.value)
  }

  predicate Uncorroborated(view: ObjectView, evidence: EvidenceRequirements, now: int) {
    exists i :: 0 <= i < |evidence.corroboration| && MissingOrStale(view, evidence.corroboration[i], now)
  }

  predicate MissingOrStale(view: ObjectView, key: string, now: int) {
    key !in view.attributes || view.attributes[key].IsStale(now)
  }

  predicate CoverageDenied(evidence: EvidenceRequirements, ctx: Context) {
    evidence.requireFullCoverage && ctx.coverage.Some? && !ctx.coverage.value.FullyObservable()
  }

  /** What the gates conclude about one condition: held, failed, or a reason. */
  function Assessment(c: Condition, view: ObjectView, evidence: EvidenceRequirements, now: int, ctx: Context)
    : Result<bool, UnknownReason>
  {
    if c.attribute in ctx.gaps then Err(CapabilityGap)
    else if CoverageDenied(evidence, ctx) then Err(CoverageGap)
    else if c.operator.Present? then Ok(c.attribute in view.attributes)
    else if c.attribute !in view.attributes then Err(AttributeAbsent)
    else
      var held := view.attributes[c.attribute];
      if held.value.AsText() in c.unknownValues then Err(NotObservable)
      else if StaleFor(held, evidence, now) then Err(AttributeStale)
      else if Uncorroborated(view, evidence, now) then Err(EvidenceUnverified)
      else match Compare(c, held.value)
        case None => Err(ValueUnparseable)
        case Some(b) => Ok(b)
  }

  /** `_assess`: that conclusion with what was compared and seen. */
  function Assess(c: Condition, view: ObjectView, evidence: EvidenceRequirements, now: int, ctx: Context)
    : ConditionOutcome
  {
    var held := Held(view, c.attribute);
    var a := Assessment(c, view, evidence, now, ctx);
    ConditionOutcome(c.attribute, c.operator, c.expected,
                     if held.Some? then held.value.value else Null,
                     if a.Ok? then Some(a.value) else None,
                     if a.Err? then Some(a.error) else None,
                     if held.Some? then Some(held.value.observedAtNs) else None,
                     if held.Some? then held.value.evidenceRef else None,
                     c.message)
  }

  function AssessAll(cs: seq<Condition>, view: ObjectView, evidence: EvidenceRequirements, now: int, ctx: Context)
    : (outcomes: seq<ConditionOutcome>)
    ensures |outcomes| == |cs|
    ensures forall i :: 0 <= i < |cs| ==> outcomes[i] == Assess(cs[i], view, evidence, now, ctx)
  {
    seq(|cs|, i requires 0 <= i < |cs| => Assess(cs[i], view, evidence, now, ctx))
  }

  /** The state and the outcomes a rule reports for a subject. */
  function Verdict(rule: Rule, view: ObjectView, now: int, ctx: Context): (ComplianceState, seq<ConditionOutcome>) {
    var guard := AssessAll(rule.when, view, rule.evidence, now, ctx);
    if AnyFailed(guard) then (NotApplicable, guard)
    else if AnyUnresolved(guard) then (Unknown, guard)
    else
      var required := AssessAll(rule.require, view, rule.evidence, now, ctx);
      (if AnyFailed(required) then Violation else if AnyUnresolved(required) then Unknown else Compliant,
       guard + required)
  }

  function StateOf(rule: Rule, view: ObjectView, now: int, ctx: Context): ComplianceState {
    Verdict(rule, view, now, ctx).0
  }

  /** `evaluate_rule`, through the finding's own guards. */
  function EvaluateRule(rulesetVersion: string, rule: Rule, view: ObjectView, now: int, ctx: Context,
                        displayName: string)
    : Result<Finding, string>
  {
    var (state, outcomes) := Verdict(rule, view, now, ctx);
    Checked(Finding(rule.ruleId, rule.version, rulesetVersion, state,
                    SubjectRef(view.objectId, view.classId, view.cameraId, displayName), now, outcomes, rule.severity,
                    if ctx.coverage.Some? then ctx.coverage.value.observableFraction else 1.0))
  }

  /* ------------------------------------------------------ the gates, in order */

  /** What each reason means by itself, on the values, whatever the other gates would say. */
  ghost predicate Applies(reason: UnknownReason, c: Condition, view: ObjectView,
                          evidence: EvidenceRequirements, now: int, ctx: Context)
  {
    var key := c.attribute;
    var compared := c.operator != Present && key in view.attributes;
    match reason
    case CapabilityGap => key in ctx.gaps
    case CoverageGap =>
      && evidence.requireFullCoverage && ctx.coverage.Some?
      && (ctx.coverage.value.observableFraction < 1.0 || ctx.coverage.value.unavailable != [])
    case AttributeAbsent => c.operator != Present && key !in view.attributes
    case NotObservable => compared && Shown(view.attributes[key].value) in c.unknownValues
    case AttributeStale =>
      && compared
      && (Past(view.attributes[key].validUntilNs, now)
          || (evidence.maxStalenessNs.Some? && now - view.attributes[key].observedAtNs > evidence.maxStalenessNs.value))
    case EvidenceUnverified =>
      && compared
      && exists k :: k in evidence.corroboration
                     && (k in view.attributes ==> Past(view.attributes[k].validUntilNs, now))
    case ValueUnparseable =>
      && compared && c.operator in {Gt, Gte, Lt, Lte}
      && !(view.attributes[key].value.Number? && c.expected.Number?)
  }

  /** An instant that has gone by: at the instant itself a value is still good. */
  predicate Past(instant: Option<int>, now: int) {
    instant.Some? && instant.value < now
  }

  /** How Python shows a value as text. */
  function Shown(v: Value): string {
    if v == Null then "None" else if v == Flag(true) then "True" else if v == Flag(false) then "False"
    else if v.Text? then v.text else v.shown
  }

  /** The condition is met, on the values: equality and membership by what a value is, order among numbers. */
  ghost predicate Meets(c: Condition, view: ObjectView) {
    if c.operator == Present then c.attribute in view.attributes
    else
      && c.attribute in view.attributes
      && var held, expected := view.attributes[c.attribute].value, c.expected;
         var isMember := expected.Items? && exists i :: 0 <= i < |expected.items|
                                                        && PlainOf(held) == PlainOf(expected.items[i]);
         var bothNumbers := held.Number? && expected.Number?;
         match c.operator
         case Eq => PlainOf(held) == PlainOf(expected)
         case Ne => PlainOf(held) != PlainOf(expected)
         case In => isMember
         case NotIn => !isMember
         case Gt => bothNumbers && held.number > expected.number
         case Gte => bothNumbers && held.number >= expected.number
         case Lt => bothNumbers && held.number < expected.number
         case Lte => bothNumbers && held.number <= expected.number
         case Present => true
  }

  /** How much a reason explains: a smaller number is reported first. */
  function Rank(reason: UnknownReason): nat {
    match reason
    case CapabilityGap => 0
    case CoverageGap => 1
    case AttributeAbsent => 2
    case NotObservable => 3
    case AttributeStale => 4
    case EvidenceUnverified => 5
    case ValueUnparseable => 6
  }

  lemma MembershipIsByEquality(held: Value, expected: Value)
    ensures Among(held, expected) <==>
              expected.Items? && exists i :: 0 <= i < |expected.items| && PlainOf(held) == PlainOf(expected.items[i])
  {
    if expected.Items? {
      forall i | 0 <= i < |expected.items|
        ensures Same(held, expected.items[i]) <==> PlainOf(held) == PlainOf(expected.items[i])
      {
        SameIsEqualityOfPlain(held, expected.items[i]);
      }
    }
  }

  /**
    The comparison against its meaning: no answer exactly for an order that is not between
    numbers, else the right one.
  */
  lemma CompareAnswers(c: Condition, view: ObjectView)
    requires c.operator != Present && c.attribute in view.attributes
    ensures
      var held := view.attributes[c.attribute].value;
      && (Compare(c, held).None? <==> c.operator in {Gt, Gte, Lt, Lte} && !(held.Number? && c.expected.Number?))
      && (Compare(c, held).Some? ==> (Compare(c, held).value <==> Meets(c, view)))
  {
    var held := view.attributes[c.attribute].value;
    SameIsEqualityOfPlain(held, c.expected);
    MembershipIsByEquality(held, c.expected);
  }

  lemma CorroborationGate(view: ObjectView, evidence: EvidenceRequirements, now: int)
    ensures Uncorroborated(view, evidence, now) <==>
              exists k :: k in evidence.corroboration
                          && (k in view.attributes ==> Past(view.attributes[k].validUntilNs, now))
  {
    if Uncorroborated(view, evidence, now) {
      var i :| 0 <= i < |evidence.corroboration| && MissingOrStale(view, evidence.corroboration[i], now);
      assert evidence.corroboration[i] in evidence.corroboration;
    }
    if k :| k in evidence.corroboration && (k in view.attributes ==> Past(view.attributes[k].validUntilNs, now)) {
      var i :| 0 <= i < |evidence.corroboration| && evidence.corroboration[i] == k;
      assert MissingOrStale(view, evidence.corroboration[i], now);
    }
  }

  /**
    The chain against the meaning of its gates: a condition is unresolved exactly when some
    reason applies, it then reports the applicable reason that explains most, and otherwise
    it says whether the condition is met.
  */
  lemma GatesReportWhatExplainsMost(c: Condition, view: ObjectView, evidence: EvidenceRequirements, now: int,
                                    ctx: Context)
    ensures
      var a := Assessment(c, view, evidence, now, ctx);
      && (a.Err? <==> exists r :: Applies(r, c, view, evidence, now, ctx))
      && (a.Err? ==> Applies(a.error, c, view, evidence, now, ctx))
      && (a.Err? ==> forall r :: Applies(r, c, view, evidence, now, ctx) ==> Rank(a.error) <= Rank(r))
      && (a.Ok? ==> (a.value <==> Meets(c, view)))
  {
    var a := Assessment(c, view, evidence, now, ctx);
    CorroborationGate(view, evidence, now);
    if c.operator != Present && c.attribute in view.attributes {
      CompareAnswers(c, view);
    }
    if a.Err? {
      assert Applies(a.error, c, view, evidence, now, ctx);
    } else {
      forall r
        ensures !Applies(r, c, view, evidence, now, ctx)
      {
        match r
        case CapabilityGap =>
        case CoverageGap =>
        case AttributeAbsent =>
        case NotObservable =>
        case AttributeStale =>
        case EvidenceUnverified =>
        case ValueUnparseable =>
      }
    }
  }

  /** The answers kind by kind, for a condition that no reason keeps from being decided. */
  lemma AnswersByKind(c: Condition, view: ObjectView, evidence: EvidenceRequirements, now: int, ctx: Context)
    requires c.attribute in view.attributes && forall r :: !Applies(r, c, view, evidence, now, ctx)
    ensures
      var a, held, expected := Assessment(c, view, evidence, now, ctx), view.attributes[c.attribute].value, c.expected;
      && (held.Text? && expected.Text? ==>
            && (c.operator.Eq? ==> a == Ok(held.text == expected.text))
            && (c.operator.Ne? ==> a == Ok(held.text != expected.text)))
      && (held.Number? && expected.Number? ==>
            && (c.operator.Eq? ==> a == Ok(held.number == expected.number))
            && (c.operator.Ne? ==> a == Ok(held.number != expected.number))
            && (c.operator.Gt? ==> a == Ok(held.number > expected.number))
            && (c.operator.Gte? ==> a == Ok(held.number >= expected.number))
            && (c.operator.Lt? ==> a == Ok(held.number < expected.number))
            && (c.operator.Lte? ==> a == Ok(held.number <= expected.number)))
      && (held.Flag? && expected.Flag? && c.operator.Eq? ==> a == Ok(held.flag == expected.flag))
      && (held.Flag? && expected.Number? && c.operator.Eq? ==>
            a == Ok(if held.flag then expected.number == 1.0 else expected.number == 0.0))
      && (held.Text? && expected.Number? && c.operator.Eq? ==> a == Ok(false))
      && (held.Text? && expected.Items? && c.operator.In? ==>
            a == Ok(exists i :: 0 <= i < |expected.items| && expected.items[i] == held))
      && (held.Text? && expected.Items? && c.operator.NotIn? ==>
            a == Ok(forall i :: 0 <= i < |expected.items| ==> expected.items[i] != held))
      && (c.operator.Present? ==> a == Ok(true))
  {
    GatesReportWhatExplainsMost(c, view, evidence, now, ctx);
    var held, expected := view.attributes[c.attribute].value, c.expected;
    if held.Text? && expected.Items? {
      assert forall v: Value :: PlainOf(v) == PlainOf(held) <==> v == held;
    }
  }

  /* -------------------------------------------------- the verdict as a formula */

  datatype Tri = True | False | Undetermined

  function And(a: Tri, b: Tri): Tri {
    if a.False? || b.False? then False
    else if a.Undetermined? || b.Undetermined? then Undetermined
    else True
  }

  function TriOf(o: ConditionOutcome): Tri {
    if o.satisfied.None? then Undetermined else if o.satisfied.value then True else False
  }

  /** Kleene conjunction of a list of outcomes. */
  function Conjunction(outcomes: seq<ConditionOutcome>): Tri {
    if outcomes == [] then True else And(TriOf(outcomes[0]), Conjunction(outcomes[1..]))
  }

  /** "If the guard then the requirement", in three values plus "says nothing". */
  function Formula(guard: Tri, requirement: Tri): ComplianceState {
    match guard
    case False => NotApplicable
    case Undetermined => Unknown
    case True =>
      match requirement
      case False => Violation
      case Undetermined => Unknown
      case True => Compliant
  }

  lemma {:induction false} ConjunctionByCases(outcomes: seq<ConditionOutcome>)
    ensures Conjunction(outcomes).False? <==> AnyFailed(outcomes)
    ensures Conjunction(outcomes).Undetermined? <==> !AnyFailed(outcomes) && AnyUnresolved(outcomes)
    decreases |outcomes|
  {
    if outcomes != [] {
      var rest := outcomes[1..];
      ConjunctionByCases(rest);
      assert forall i :: 0 <= i < |rest| ==> rest[i] == outcomes[i + 1];
      if AnyFailed(rest) {
        var i :| 0 <= i < |rest| && rest[i].Failed();
        assert outcomes[i + 1].Failed();
      }
      if AnyUnresolved(rest) {
        var i :| 0 <= i < |rest| && rest[i].Unresolved();
        assert outcomes[i + 1].Unresolved();
      }
      if AnyFailed(outcomes) && !outcomes[0].Failed() {
        var i :| 0 <= i < |outcomes| && outcomes[i].Failed();
        assert rest[i - 1].Failed();
      }
      if AnyUnresolved(outcomes) && !outcomes[0].Unresolved() {
        var i :| 0 <= i < |outcomes| && outcomes[i].Unresolved();
        assert rest[i - 1].Unresolved();
      }
    }
  }

  /** The branching of `evaluate_rule` is the three-valued formula, so a failure outranks an unknown. */
  lemma VerdictIsKleene(rule: Rule, view: ObjectView, now: int, ctx: Context)
    ensures
      var guard := AssessAll(rule.when, view, rule.evidence, now, ctx);
      var required := AssessAll(rule.require, view, rule.evidence, now, ctx);
      && StateOf(rule, view, now, ctx) == Formula(Conjunction(guard), Conjunction(required))
      && Verdict(rule, view, now, ctx).1 == guard + (if Conjunction(guard).True? then required else [])
  {
    var guard := AssessAll(rule.when, view, rule.evidence, now, ctx);
    ConjunctionByCases(guard);
    ConjunctionByCases(AssessAll(rule.require, view, rule.evidence, now, ctx));
    assert guard + [] == guard;
  }

  lemma AppendedKeeps(guard: seq<ConditionOutcome>, required: seq<ConditionOutcome>)
    ensures AnyFailed(required) ==> AnyFailed(guard + required)
    ensures AnyUnresolved(required) ==> AnyUnresolved(guard + required)
  {
    if AnyFailed(required) {
      var i :| 0 <= i < |required| && required[i].Failed();
      assert (guard + required)[|guard| + i].Failed();
    }
    if AnyUnresolved(required) {
      var i :| 0 <= i < |required| && required[i].Unresolved();
      assert (guard + required)[|guard| + i].Unresolved();
    }
  }

  /** A violation names a failed condition, an unknown an unresolved one, and every outcome a verdict or a reason. */
  lemma VerdictIsSupported(rule: Rule, view: ObjectView, now: int, ctx: Context)
    ensures
      var (state, outcomes) := Verdict(rule, view, now, ctx);
      && (state.Violation? ==> AnyFailed(outcomes))
      && (state.Unknown? ==> AnyUnresolved(outcomes))
      && (forall o :: o in outcomes ==> (o.satisfied == None <==> o.unknownReason != None))
  {
    AppendedKeeps(AssessAll(rule.when, view, rule.evidence, now, ctx),
                  AssessAll(rule.require, view, rule.evidence, now, ctx));
  }

  /**
    No verdict is refused for want of support: `evaluate_rule` raises exactly when the rule
    has no id or version or the coverage fraction is outside [0, 1], whatever the subject.
  */
  lemma FindingsAlwaysConstruct(version: string, rule: Rule, view: ObjectView, now: int, ctx: Context,
                                displayName: string)
    ensures EvaluateRule(version, rule, view, now, ctx, displayName).Ok? <==>
              && rule.ruleId != "" && rule.version != ""
              && (ctx.coverage.Some? ==> 0.0 <= ctx.coverage.value.observableFraction <= 1.0)
  {
    VerdictIsSupported(rule, view, now, ctx);
  }

  /* ------------------------------------------------------ verdicts on the values */

  /** The condition can be decided, and is met. */
  ghost predicate Holds(c: Condition, view: ObjectView, evidence: EvidenceRequirements, now: int, ctx: Context) {
    (forall r :: !Applies(r, c, view, evidence, now, ctx)) && Meets(c, view)
  }

  /** The condition can be decided, and is not met. */
  ghost predicate Fails(c: Condition, view: ObjectView, evidence: EvidenceRequirements, now: int, ctx: Context) {
    (forall r :: !Applies(r, c, view, evidence, now, ctx)) && !Meets(c, view)
  }

  lemma AssessOnValues(c: Condition, view: ObjectView, evidence: EvidenceRequirements, now: int, ctx: Context)
    ensures
      var o := Assess(c, view, evidence, now, ctx);
      && (o.satisfied == Some(true) <==> Holds(c, view, evidence, now, ctx))
      && (o.satisfied == Some(false) <==> Fails(c, view, evidence, now, ctx))
  {
    GatesReportWhatExplainsMost(c, view, evidence, now, ctx);
  }

  lemma AllOnValues(cs: seq<Condition>, view: ObjectView, evidence: EvidenceRequirements, now: int, ctx: Context,
                    i: nat)
    requires i < |cs|
    ensures
      var o := AssessAll(cs, view, evidence, now, ctx)[i];
      && (o.Failed() <==> Fails(cs[i], view, evidence, now, ctx))
      && (!o.Failed() && !o.Unresolved() <==> Holds(cs[i], view, evidence, now, ctx))
  {
    AssessOnValues(cs[i], view, evidence, now, ctx);
  }

  lemma FailuresOnValues(cs: seq<Condition>, view: ObjectView, evidence: EvidenceRequirements, now: int, ctx: Context)
    ensures AnyFailed(AssessAll(cs, view, evidence, now, ctx))
       <==> exists c :: c in cs && Fails(c, view, evidence, now, ctx)
  {
    var outcomes := AssessAll(cs, view, evidence, now, ctx);
    if AnyFailed(outcomes) {
      var i :| 0 <= i < |outcomes| && outcomes[i].Failed();
      AllOnValues(cs, view, evidence, now, ctx, i);
      assert cs[i] in cs;
    }
    if c :| c in cs && Fails(c, view, evidence, now, ctx) {
      var i :| 0 <= i < |cs| && cs[i] == c;
      AllOnValues(cs, view, evidence, now, ctx, i);
    }
  }

  lemma SuccessOnValues(cs: seq<Condition>, view: ObjectView, evidence: EvidenceRequirements, now: int, ctx: Context)
    ensures
      var outcomes := AssessAll(cs, view, evidence, now, ctx);
      !AnyFailed(outcomes) && !AnyUnresolved(outcomes) <==> forall c :: c in cs ==> Holds(c, view, evidence, now, ctx)
  {
    var outcomes := AssessAll(cs, view, evidence, now, ctx);
    forall i | 0 <= i < |cs|
      ensures !outcomes[i].Failed() && !outcomes[i].Unresolved() <==> Holds(cs[i], view, evidence, now, ctx)
    {
      AllOnValues(cs, view, evidence, now, ctx, i);
    }
    if !AnyFailed(outcomes) && !AnyUnresolved(outcomes) {
      forall c | c in cs
        ensures Holds(c, view, evidence, now, ctx)
      {
        var i :| 0 <= i < |cs| && cs[i] == c;
        assert !outcomes[i].Failed() && !outcomes[i].Unresolved();
      }
    }
  }

  /**
    What a verdict says about the subject, on the values alone: COMPLIANT exactly when every
    guard and every requirement can be decided and is met; VIOLATION exactly when every guard
    is and some requirement is decided and not met; NOT_APPLICABLE exactly when some guard is
    decided and not met.
  */
  lemma VerdictOnValues(rule: Rule, view: ObjectView, now: int, ctx: Context)
    ensures
      var state, ev := StateOf(rule, view, now, ctx), rule.evidence;
      var guarded := forall c :: c in rule.when ==> Holds(c, view, ev, now, ctx);
      && (state == Compliant <==> guarded && forall c :: c in rule.require ==> Holds(c, view, ev, now, ctx))
      && (state == Violation <==> guarded && exists c :: c in rule.require && Fails(c, view, ev, now, ctx))
      && (state == NotApplicable <==> exists c :: c in rule.when && Fails(c, view, ev, now, ctx))
  {
    FailuresOnValues(rule.when, view, rule.evidence, now, ctx);
    SuccessOnValues(rule.when, view, rule.evidence, now, ctx);
    FailuresOnValues(rule.require, view, rule.evidence, now, ctx);
    SuccessOnValues(rule.require, view, rule.evidence, now, ctx);
  }

  /** What an outcome shows: what was asked, what was held when anything was, and an answer or a reason. */
  lemma OutcomeShowsWhatWasHeld(c: Condition, view: ObjectView, evidence: EvidenceRequirements, now: int, ctx: Context)
    ensures
      var o, a := Assess(c, view, evidence, now, ctx), Assessment(c, view, evidence, now, ctx);
      && o.attributeKey == c.attribute && o.operator == c.operator && o.expected == c.expected && o.message == c.message
      && (c.attribute in view.attributes ==>
            var held := view.attributes[c.attribute];
            o.observed == held.value && o.observedAtNs == Some(held.observedAtNs) && o.evidenceRef == held.evidenceRef)
      && (c.attribute !in view.attributes ==> o.observed == Null && o.observedAtNs == None && o.evidenceRef == None)
      && (a.Ok? ==> o.satisfied == Some(a.value) && o.unknownReason == None)
      && (a.Err? ==> o.satisfied == None && o.unknownReason == Some(a.error))
  {
  }

  /* ---------------------------------------------------------- order of verdicts */

  /** A list of outcomes that is the other with some verdicts withdrawn. */
  ghost predicate Withdraws(before: seq<ConditionOutcome>, after: seq<ConditionOutcome>) {
    && |before| == |after|
    && forall i :: 0 <= i < |before| ==>
         after[i].satisfied == before[i].satisfied || after[i].satisfied.None?
  }

  /** Withdrawing verdicts can only move a rule's state to UNKNOWN. */
  lemma WithdrawalDecays(guard: seq<ConditionOutcome>, guard': seq<ConditionOutcome>,
                         required: seq<ConditionOutcome>, required': seq<ConditionOutcome>)
    requires Withdraws(guard, guard') && Withdraws(required, required')
    ensures
      var before := Formula(Conjunction(guard), Conjunction(required));
      var after := Formula(Conjunction(guard'), Conjunction(required'));
      after == before || after.Unknown?
  {
    WithdrawalOfList(guard, guard');
    WithdrawalOfList(required, required');
  }

  lemma WithdrawalOfList(before: seq<ConditionOutcome>, after: seq<ConditionOutcome>)
    requires Withdraws(before, after)
    ensures Conjunction(after) == Conjunction(before) || Conjunction(after).Undetermined?
  {
    ConjunctionByCases(before);
    ConjunctionByCases(after);
    if AnyFailed(after) {
      var i :| 0 <= i < |after| && after[i].Failed();
      assert before[i].Failed();
    } else if AnyUnresolved(before) {
      var i :| 0 <= i < |before| && before[i].Unresolved();
      assert after[i].Unresolved();
    } else if AnyFailed(before) {
      var i :| 0 <= i < |before| && before[i].Failed();
      assert after[i].Unresolved();
    }
  }

  /** Time acts on one condition only by making its evidence too old. */
  lemma AgeingWithdraws(c: Condition, view: ObjectView, evidence: EvidenceRequirements, now: int, later: int,
                        ctx: Context)
    requires now <= later
    ensures
      var before := Assess(c, view, evidence, now, ctx);
      var after := Assess(c, view, evidence, later, ctx);
      after.satisfied == before.satisfied || after.satisfied.None?
  {
    if Uncorroborated(view, evidence, now) {
      var i :| 0 <= i < |evidence.corroboration| && MissingOrStale(view, evidence.corroboration[i], now);
      assert MissingOrStale(view, evidence.corroboration[i], later);
    }
  }

  /**
    Ageing only decays: with everything else fixed, the passage of time leaves a rule's
    state alone or turns it into UNKNOWN, and never creates any other verdict.
  */
  lemma AgeingOnlyDecays(rule: Rule, view: ObjectView, now: int, later: int, ctx: Context)
    requires now <= later
    ensures StateOf(rule, view, later, ctx) == StateOf(rule, view, now, ctx) || StateOf(rule, view, later, ctx).Unknown?
  {
    var ev := rule.evidence;
    forall c
      ensures Assess(c, view, ev, later, ctx).satisfied == Assess(c, view, ev, now, ctx).satisfied
           || Assess(c, view, ev, later, ctx).satisfied.None?
    {
      AgeingWithdraws(c, view, ev, now, later, ctx);
    }
    VerdictIsKleene(rule, view, now, ctx);
    VerdictIsKleene(rule, view, later, ctx);
    WithdrawalDecays(AssessAll(rule.when, view, ev, now, ctx), AssessAll(rule.when, view, ev, later, ctx),
                     AssessAll(rule.require, view, ev, now, ctx), AssessAll(rule.require, view, ev, later, ctx));
  }

  /** `wider` holds everything `view` holds, unchanged. */
  ghost predicate Extends(view: ObjectView, wider: ObjectView) {
    && view.objectId == wider.objectId && view.classId == wider.classId && view.cameraId == wider.cameraId
    && forall k :: k in view.attributes ==> k in wider.attributes && wider.attributes[k] == view.attributes[k]
  }

  /** No `present` condition of the rule asks about a key that `wider` adds. */
  ghost predicate PresenceUntouched(rule: Rule, view: ObjectView, wider: ObjectView) {
    forall c :: (c in rule.when || c in rule.require) && c.operator.Present? && c.attribute in wider.attributes
      ==> c.attribute in view.attributes
  }

  lemma ExtensionConfirms(c: Condition, view: ObjectView, wider: ObjectView,
                          evidence: EvidenceRequirements, now: int, ctx: Context)
    requires Extends(view, wider)
    requires c.operator.Present? && c.attribute in wider.attributes ==> c.attribute in view.attributes
    ensures
      var before := Assess(c, view, evidence, now, ctx);
      var after := Assess(c, wider, evidence, now, ctx);
      before.satisfied == after.satisfied || before.satisfied.None?
  {
    if Uncorroborated(wider, evidence, now) {
      var i :| 0 <= i < |evidence.corroboration| && MissingOrStale(wider, evidence.corroboration[i], now);
      assert MissingOrStale(view, evidence.corroboration[i], now);
    }
  }

  /**
    More evidence never overturns: adding attributes without changing held ones keeps every
    COMPLIANT, VIOLATION and NOT_APPLICABLE verdict, through every gate, as long as no
    `present` condition asks about an added key (so for every rule without one).
  */
  lemma MoreEvidenceNeverOverturns(rule: Rule, view: ObjectView, wider: ObjectView, now: int, ctx: Context)
    requires Extends(view, wider) && PresenceUntouched(rule, view, wider)
    ensures !StateOf(rule, view, now, ctx).Unknown? ==> StateOf(rule, wider, now, ctx) == StateOf(rule, view, now, ctx)
  {
    var ev := rule.evidence;
    forall c | c in rule.when || c in rule.require
      ensures Assess(c, view, ev, now, ctx).satisfied == Assess(c, wider, ev, now, ctx).satisfied
           || Assess(c, view, ev, now, ctx).satisfied.None?
    {
      ExtensionConfirms(c, view, wider, ev, now, ctx);
    }
    VerdictIsKleene(rule, view, now, ctx);
    VerdictIsKleene(rule, wider, now, ctx);
    WithdrawalDecays(AssessAll(rule.when, wider, ev, now, ctx), AssessAll(rule.when, view, ev, now, ctx),
                     AssessAll(rule.require, wider, ev, now, ctx), AssessAll(rule.require, view, ev, now, ctx));
  }

  /** The `present` proviso is needed: one added attribute turns this violation into a pass. */
  lemma PresenceCanOverturn(held: AttributeView, now: int)
    ensures
      var c := Condition("badge", Present, Null, "", []);
      var rule := Rule("r", "1", [c], [], [], [], EvidenceRequirements(None, [], false), "high");
      var view := ObjectView("o", "person", "cam", map[]);
      var wider := view.(attributes := map["badge" := held]);
      var ctx := Context(None, {});
      Extends(view, wider) && StateOf(rule, view, now, ctx).Violation? && StateOf(rule, wider, now, ctx).Compliant?
  {
    var c := Condition("badge", Present, Null, "", []);
    var ev := EvidenceRequirements(None, [], false);
    var view := ObjectView("o", "person", "cam", map[]);
    var ctx := Context(None, {});
    var required := AssessAll([c], view, ev, now, ctx);
    assert required[0].Failed();
    assert !AnyFailed(AssessAll([], view, ev, now, ctx)) && !AnyUnresolved(AssessAll([], view, ev, now, ctx));
  }

  /** A requirement no model can serve is never reported as met. */
  lemma NeverCompliantOverGap(rule: Rule, view: ObjectView, now: int, ctx: Context, c: Condition)
    requires c in rule.require && c.attribute in ctx.gaps
    ensures !StateOf(rule, view, now, ctx).Compliant?
  {
    var required := AssessAll(rule.require, view, rule.evidence, now, ctx);
    var i :| 0 <= i < |rule.require| && rule.require[i] == c;
    assert required[i].Unresolved();
  }

  /* ------------------------------------------------------------- dependencies */

  ghost predicate AgreeOn(a: ObjectView, b: ObjectView, keys: seq<string>) {
    && a.objectId == b.objectId && a.classId == b.classId && a.cameraId == b.cameraId
    && forall k :: k in keys ==> Held(a, k) == Held(b, k)
  }

  /** A condition reads its own attribute and the corroborating ones, and nothing else. */
  lemma AssessReads(c: Condition, a: ObjectView, b: ObjectView, evidence: EvidenceRequirements, now: int, ctx: Context)
    requires Held(a, c.attribute) == Held(b, c.attribute)
    requires forall k :: k in evidence.corroboration ==> Held(a, k) == Held(b, k)
    ensures Assess(c, a, evidence, now, ctx) == Assess(c, b, evidence, now, ctx)
  {
    assert forall k :: k in evidence.corroboration ==> Held(a, k) == Held(b, k);
    assert forall i :: 0 <= i < |evidence.corroboration| ==>
             Held(a, evidence.corroboration[i]) == Held(b, evidence.corroboration[i])
             && MissingOrStale(a, evidence.corroboration[i], now) == MissingOrStale(b, evidence.corroboration[i], now);
    assert Uncorroborated(a, evidence, now) == Uncorroborated(b, evidence, now);
  }

  lemma AssessAllReads(cs: seq<Condition>, a: ObjectView, b: ObjectView, evidence: EvidenceRequirements, now: int,
                       ctx: Context)
    requires forall c :: c in cs ==> Held(a, c.attribute) == Held(b, c.attribute)
    requires forall k :: k in evidence.corroboration ==> Held(a, k) == Held(b, k)
    ensures AssessAll(cs, a, evidence, now, ctx) == AssessAll(cs, b, evidence, now, ctx)
  {
    forall i | 0 <= i < |cs|
      ensures Assess(cs[i], a, evidence, now, ctx) == Assess(cs[i], b, evidence, now, ctx)
    {
      AssessReads(cs[i], a, b, evidence, now, ctx);
    }
  }

  /** `Rule.attributes` is a sound dependency set: views that agree on it get the same finding, outcomes and all. */
  lemma AttributesSuffice(version: string, rule: Rule, a: ObjectView, b: ObjectView, now: int, ctx: Context,
                          displayName: string)
    requires AgreeOn(a, b, AddAllNew([], Mentions(rule)))
    ensures Verdict(rule, a, now, ctx) == Verdict(rule, b, now, ctx)
    ensures EvaluateRule(version, rule, a, now, ctx, displayName)
         == EvaluateRule(version, rule, b, now, ctx, displayName)
  {
    AddAllNewIsUnion([], Mentions(rule));
    MentionsAreDependencies(rule);
    AssessAllReads(rule.when, a, b, rule.evidence, now, ctx);
    AssessAllReads(rule.require, a, b, rule.evidence, now, ctx);
  }

  /* --------------------------------------------------------- several subjects */

  type Outcome = Result<seq<Finding>, string>

  /** One list after another; the first exception wins. */
  function Append(a: Outcome, b: Outcome): Outcome {
    if a.Err? then a else if b.Err? then b else Ok(a.value + b.value)
  }

  function EvaluateRules(version: string, rules: seq<Rule>, view: ObjectView, now: int, ctx: Context,
                         displayName: string)
    : Outcome
  {
    if rules == [] then Ok([])
    else
      var rest := EvaluateRules(version, rules[1..], view, now, ctx, displayName);
      if !rules[0].CoversCamera(view.cameraId) then rest
      else match EvaluateRule(version, rules[0], view, now, ctx, displayName)
        case Err(e) => Err(e)
        case Ok(f) => Append(Ok([f]), rest)
  }

  /** `evaluate_object`: the rules for the subject's class and camera, in document order. */
  function EvaluateObject(rules: RuleSet, view: ObjectView, now: int, ctx: Context, displayName: string): Outcome {
    EvaluateRules(rules.version, ForClass(rules.rules, view.classId), view, now, ctx, displayName)
  }

  function LabelOf(labels: map<string, string>, view: ObjectView): string {
    if view.objectId in labels then labels[view.objectId] else ""
  }

  function EvaluateAll(rules: RuleSet, views: seq<ObjectView>, now: int, ctx: Context, labels: map<string, string>)
    : Outcome
  {
    if views == [] then Ok([])
    else Append(EvaluateObject(rules, views[0], now, ctx, LabelOf(labels, views[0])),
                EvaluateAll(rules, views[1..], now, ctx, labels))
  }

  lemma AppendAssociates(a: Outcome, b: Outcome, c: Outcome)
    ensures Append(Append(a, b), c) == Append(a, Append(b, c))
  {
    if a.Ok? && b.Ok? && c.Ok? {
      assert (a.value + b.value) + c.value == a.value + (b.value + c.value);
    }
  }

  /** Subjects are independent: evaluating two groups together is evaluating each and concatenating. */
  lemma {:induction false} SubjectsAreIndependent(rules: RuleSet, xs: seq<ObjectView>, ys: seq<ObjectView>,
                                                  now: int, ctx: Context, labels: map<string, string>)
    ensures EvaluateAll(rules, xs + ys, now, ctx, labels)
         == Append(EvaluateAll(rules, xs, now, ctx, labels), EvaluateAll(rules, ys, now, ctx, labels))
    decreases |xs|
  {
    if xs == [] {
      assert xs + ys == ys;
      var r := EvaluateAll(rules, ys, now, ctx, labels);
      assert r.Ok? ==> [] + r.value == r.value;
    } else {
      assert (xs + ys)[1..] == xs[1..] + ys;
      SubjectsAreIndependent(rules, xs[1..], ys, now, ctx, labels);
      AppendAssociates(EvaluateObject(rules, xs[0], now, ctx, LabelOf(labels, xs[0])),
                       EvaluateAll(rules, xs[1..], now, ctx, labels), EvaluateAll(rules, ys, now, ctx, labels));
    }
  }

  lemma EvaluateOneMore(rules: RuleSet, views: seq<ObjectView>, i: nat, now: int, ctx: Context, labels: map<string,
                        string>)
    requires i < |views|
    ensures EvaluateAll(rules, views[..i + 1], now, ctx, labels)
         == Append(EvaluateAll(rules, views[..i], now, ctx, labels),
                   EvaluateObject(rules, views[i], now, ctx, LabelOf(labels, views[i])))
  {
    var one := EvaluateObject(rules, views[i], now, ctx, LabelOf(labels, views[i]));
    assert views[..i + 1] == views[..i] + [views[i]] && [views[i]][1..] == [];
    assert Append(one, Ok([])) == one by {
      assert one.Ok? ==> one.value + [] == one.value;
    }
    SubjectsAreIndependent(rules, views[..i], [views[i]], now, ctx, labels);
  }

  lemma FirstErrorWins(rules: RuleSet, views: seq<ObjectView>, i: nat, now: int, ctx: Context, labels: map<string,
                       string>)
    requires i <= |views| && EvaluateAll(rules, views[..i], now, ctx, labels).Err?
    ensures EvaluateAll(rules, views, now, ctx, labels) == EvaluateAll(rules, views[..i], now, ctx, labels)
  {
    assert views == views[..i] + views[i..];
    SubjectsAreIndependent(rules, views[..i], views[i..], now, ctx, labels);
  }

  /** `evaluate`: the accumulating loop. */
  method Evaluate(rules: RuleSet, views: seq<ObjectView>, now: int, ctx: Context, labels: map<string, string>)
    returns (r: Outcome)
    ensures r == EvaluateAll(rules, views, now, ctx, labels)
  {
    var found: seq<Finding> := [];
    for i := 0 to |views|
      invariant EvaluateAll(rules, views[..i], now, ctx, labels) == Ok(found)
    {
      EvaluateOneMore(rules, views, i, now, ctx, labels);
      var one := EvaluateObject(rules, views[i], now, ctx, LabelOf(labels, views[i]));
      if one.Err? {
        FirstErrorWins(rules, views, i + 1, now, ctx, labels);
        return one;
      }
      found := found + one.value;
    }
    assert views[..|views|] == views;
    return Ok(found);
  }
}
