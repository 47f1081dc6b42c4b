/** Verdicts and their construction guards (compliance/finding.py). */
module Findings {
  import opened Basics
  import opened Rules

  datatype ComplianceState = Compliant | Violation | Unknown | NotApplicable

  datatype UnknownReason =
    | CapabilityGap
    | CoverageGap
    | AttributeAbsent
    | NotObservable
    | AttributeStale
    | EvidenceUnverified
    | ValueUnparseable

  datatype SubjectRef = SubjectRef(objectId: string, classId: string, cameraId: string, displayName: string)

  datatype ConditionOutcome = ConditionOutcome(
    attributeKey: string,
    operator: Operator,
    expected: Value,
    observed: Value,
    satisfied: Option<bool>,
    unknownReason: Option<UnknownReason>,
    observedAtNs: Option<int>,
    evidenceRef: Option<string>,
    message: string)
  {
    predicate Failed() {
      satisfied == Some(false)
    }

    predicate Unresolved() {
      satisfied.None?
    }
  }

  predicate AnyFailed(outcomes: seq<ConditionOutcome>) {
    exists i :: 0 <= i < |outcomes| && outcomes[i].Failed()
  }

  predicate AnyUnresolved(outcomes: seq<ConditionOutcome>) {
    exists i :: 0 <= i < |outcomes| && outcomes[i].Unresolved()
  }

  datatype Finding = Finding(
    ruleId: string,
    ruleVersion: string,
    rulesetVersion: string,
    state: ComplianceState,
    subject: SubjectRef,
    evaluatedAtNs: int,
    conditions: seq<ConditionOutcome>,
    severity: string,
    coverageFraction: real)

  /** `Finding.__post_init__`: the first guard that fails is the error raised. */
  function Checked(f: Finding): Result<Finding, string>
  {
    if f.ruleId == "" || f.ruleVersion == "" then Err("a finding must name the rule and version that produced it")
    else if f.state.Violation? && !AnyFailed(f.conditions) then Err("a violation with no failed condition")
    else if f.state.Unknown? && !AnyUnresolved(f.conditions) then Err("unknown with no unresolved condition")
    else if !(0.0 <= f.coverageFraction <= 1.0) then Err("coverage_fraction must be in [0,1]")
    else Ok(f)
  }

  /** What a finding has to carry to exist at all: its rule, and a condition that bears its state out. */
  lemma CheckedAcceptsIff(f: Finding)
    ensures Checked(f).Ok? <==>
              && f.ruleId != "" && f.ruleVersion != "" && 0.0 <= f.coverageFraction <= 1.0
              && (f.state == Violation ==>
                    exists i :: 0 <= i < |f.conditions| && f.conditions[i].satisfied == Some(false))
              && (f.state == Unknown ==> exists i :: 0 <= i < |f.conditions| && f.conditions[i].satisfied == None)
    ensures Checked(f).Ok? ==> Checked(f).value == f
  {
    forall i | 0 <= i < |f.conditions|
      ensures f.conditions[i].Failed() <==> f.conditions[i].satisfied == Some(false)
      ensures f.conditions[i].Unresolved() <==> f.conditions[i].satisfied == None
    {
    }
  }
}
