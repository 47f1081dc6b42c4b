/**
  The counters of one compliance pass (`CompliancePass.record`, app/vision/compliance_driver.py).
  NOT_APPLICABLE has no counter of its own: it is added to `unknown`, but gets its own
  entry in the rule's bucket.
*/
module DriverPass {
  import opened Findings

  datatype CompliancePass = CompliancePass(
    findings: nat,
    compliant: nat,
    violations: nat,
    unknown: nat,
    byRule: map<string, map<ComplianceState, nat>>)

  const EMPTY_PASS := CompliancePass(0, 0, 0, 0, map[])

  const NEW_BUCKET: map<ComplianceState, nat> := map[Compliant := 0, Violation := 0, Unknown := 0]

  function Entry(bucket: map<ComplianceState, nat>, state: ComplianceState): nat {
    if state in bucket then bucket[state] else 0
  }

  function BucketOf(p: CompliancePass, ruleId: string): map<ComplianceState, nat> {
    if ruleId in p.byRule then p.byRule[ruleId] else NEW_BUCKET
  }

  function Record(p: CompliancePass, f: Finding): CompliancePass {
    var bucket := BucketOf(p, f.ruleId);
    CompliancePass(
      p.findings + 1,
      p.compliant + (if f.state.Compliant? then 1 else 0),
      p.violations + (if f.state.Violation? then 1 else 0),
      p.unknown + (if f.state.Violation? || f.state.Compliant? then 0 else 1),
      p.byRule[f.ruleId := bucket[f.state := Entry(bucket, f.state) + 1]])
  }

  function CountState(fs: seq<Finding>, state: ComplianceState): nat {
    if fs == [] then 0
    else CountState(fs[..|fs| - 1], state) + (if fs[|fs| - 1].state == state then 1 else 0)
  }

  function CountRule(fs: seq<Finding>, ruleId: string, state: ComplianceState): nat {
    if fs == [] then 0
    else CountRule(fs[..|fs| - 1], ruleId, state)
         + (if fs[|fs| - 1].ruleId == ruleId && fs[|fs| - 1].state == state then 1 else 0)
  }

  /** What the totals mean, without saying how they are kept. */
  ghost predicate TotalsCount(p: CompliancePass, fs: seq<Finding>) {
    && p.findings == |fs| == p.compliant + p.violations + p.unknown
    && p.compliant == CountState(fs, Compliant)
    && p.violations == CountState(fs, Violation)
    && p.unknown == CountState(fs, Unknown) + CountState(fs, NotApplicable)
  }

  /** What the buckets mean: one for each rule seen, with that rule's findings by state. */
  ghost predicate BucketsCount(p: CompliancePass, fs: seq<Finding>) {
    && (forall id :: id in p.byRule <==> exists i :: 0 <= i < |fs| && fs[i].ruleId == id)
    && (forall id, state :: Entry(BucketOf(p, id), state) == CountRule(fs, id, state))
  }

  lemma RecordKeepsTotals(p: CompliancePass, fs: seq<Finding>, f: Finding)
    requires TotalsCount(p, fs)
    ensures TotalsCount(Record(p, f), fs + [f])
  {
    assert (fs + [f])[..|fs|] == fs;
  }

  lemma RecordKeepsBuckets(p: CompliancePass, fs: seq<Finding>, f: Finding)
    requires BucketsCount(p, fs)
    ensures BucketsCount(Record(p, f), fs + [f])
  {
    var p', fs' := Record(p, f), fs + [f];
    assert fs'[..|fs|] == fs;
    forall id, state
      ensures Entry(BucketOf(p', id), state) == CountRule(fs', id, state)
    {
      assert Entry(BucketOf(p, id), state) == CountRule(fs, id, state);
    }
    forall id
      ensures id in p'.byRule <==> exists i :: 0 <= i < |fs'| && fs'[i].ruleId == id
    {
      if id == f.ruleId {
        assert fs'[|fs|].ruleId == id;
      } else if id in p.byRule {
        var i :| 0 <= i < |fs| && fs[i].ruleId == id;
        assert fs'[i].ruleId == id;
      }
    }
  }

  /** The `unknown` total is the number of UNKNOWN findings exactly when none was NOT_APPLICABLE. */
  lemma UnknownIsExactIff(p: CompliancePass, fs: seq<Finding>)
    requires TotalsCount(p, fs)
    ensures p.unknown == CountState(fs, Unknown) <==> forall i :: 0 <= i < |fs| ==> !fs[i].state.NotApplicable?
  {
    NoneCountedIff(fs, NotApplicable);
  }

  lemma {:induction false} NoneCountedIff(fs: seq<Finding>, state: ComplianceState)
    ensures CountState(fs, state) == 0 <==> forall i :: 0 <= i < |fs| ==> fs[i].state != state
    decreases |fs|
  {
    if fs != [] {
      NoneCountedIff(fs[..|fs| - 1], state);
    }
  }

  /** One finding that a rule does not apply is enough: it is reported as unknown. */
  lemma NotApplicableReadsUnknown(f: Finding)
    requires f.state.NotApplicable?
    ensures TotalsCount(Record(EMPTY_PASS, f), [f])
    ensures Record(EMPTY_PASS, f).unknown == 1 && CountState([f], Unknown) == 0
  {
    RecordKeepsTotals(EMPTY_PASS, [], f);
    assert [] + [f] == [f];
    assert [f][..0] == [];
  }

  /** The loop over the findings in `ComplianceDriver.evaluate`. */
  method RecordAll(findings: seq<Finding>) returns (p: CompliancePass)
    ensures TotalsCount(p, findings) && BucketsCount(p, findings)
  {
    p := EMPTY_PASS;
    for i := 0 to |findings|
      invariant TotalsCount(p, findings[..i]) && BucketsCount(p, findings[..i])
    {
      RecordKeepsTotals(p, findings[..i], findings[i]);
      RecordKeepsBuckets(p, findings[..i], findings[i]);
      assert findings[..i + 1] == findings[..i] + [findings[i]];
      p := Record(p, findings[i]);
    }
    assert findings[..|findings|] == findings;
  }
}
