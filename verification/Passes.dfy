/**
  The evaluator and the incident table together: a compliance pass decides every rule for
  every subject (compliance/evaluator.py) and applies the findings to the table
  (app/vision/compliance_driver.py). What one pass settles, the passage of time alone does
  not unsettle.
*/
module Passes {
  import opened Basics
  import opened Evaluator
  import opened Findings
  import opened Incidents
  import opened Rules
  import opened Text

  /* ----------------------------------------------------- who is judged by which rule */

  /** The rule is about this subject: its camera, and its class or one above it. */
  ghost predicate Concerns(r: Rule, view: ObjectView) {
    && OnCamera(r, view.cameraId)
    && (r.subjectClasses == [] || exists k :: 0 <= k < |r.subjectClasses|
                                              && SplitOn(r.subjectClasses[k], '.') <= SplitOn(view.classId, '.'))
  }

  /** The finding is this rule's verdict on this subject, at this instant, and says so. */
  ghost predicate Judges(f: Finding, version: string, r: Rule, view: ObjectView, now: int, ctx: Context, name: string) {
    && f.ruleId == r.ruleId && f.ruleVersion == r.version && f.rulesetVersion == version && f.severity == r.severity
    && f.subject.objectId == view.objectId && f.subject.classId == view.classId
    && f.subject.cameraId == view.cameraId && f.subject.displayName == name
    && f.evaluatedAtNs == now && (f.state, f.conditions) == Verdict(r, view, now, ctx)
    && f.coverageFraction == (match ctx.coverage case None => 1.0 case Some(c) => c.observableFraction)
  }

  lemma {:induction false} ForClassMembers(rules: seq<Rule>, classId: string)
    ensures forall r :: r in ForClass(rules, classId) <==>
              && r in rules
              && (r.subjectClasses == [] || exists k :: 0 <= k < |r.subjectClasses|
                                                        && SplitOn(r.subjectClasses[k], '.') <= SplitOn(classId, '.'))
    decreases |rules|
  {
    if rules != [] {
      ForClassMembers(rules[1..], classId);
      assert forall r :: r in rules <==> r == rules[0] || r in rules[1..];
      forall k | 0 <= k < |rules[0].subjectClasses|
        ensures Under(classId, rules[0].subjectClasses[k])
           <==> SplitOn(rules[0].subjectClasses[k], '.') <= SplitOn(classId, '.')
      {
        UnderIsPathPrefix(classId, rules[0].subjectClasses[k]);
      }
    }
  }

  lemma RuleJudges(version: string, r: Rule, view: ObjectView, now: int, ctx: Context, name: string)
    ensures
      var result := EvaluateRule(version, r, view, now, ctx, name);
      && (result.Ok? <==> r.ruleId != "" && r.version != ""
                          && (ctx.coverage.Some? ==> 0.0 <= ctx.coverage.value.observableFraction <= 1.0))
      && (result.Ok? ==> Judges(result.value, version, r, view, now, ctx, name))
  {
    FindingsAlwaysConstruct(version, r, view, now, ctx, name);
  }

  predicate OnCamera(r: Rule, cameraId: string) {
    r.cameraIds == [] || cameraId in r.cameraIds
  }

  /** The finding is the verdict of one of these rules that watch the subject's camera. */
  ghost predicate ByOneOf(f: Finding, version: string, rules: seq<Rule>, view: ObjectView, now: int, ctx: Context,
                          name: string)
  {
    exists r :: r in rules && OnCamera(r, view.cameraId) && Judges(f, version, r, view, now, ctx, name)
  }

  /** One of these findings is this rule's verdict. */
  ghost predicate HasVerdict(fs: seq<Finding>, version: string, r: Rule, view: ObjectView, now: int, ctx: Context,
                             name: string)
  {
    exists f :: f in fs && Judges(f, version, r, view, now, ctx, name)
  }

  lemma {:induction false} RulesJudge(version: string, rules: seq<Rule>, view: ObjectView, now: int, ctx: Context,
                                      name: string)
    ensures
      var result := EvaluateRules(version, rules, view, now, ctx, name);
      result.Ok? ==>
        && (forall f :: f in result.value ==> ByOneOf(f, version, rules, view, now, ctx, name))
        && (forall r :: r in rules && OnCamera(r, view.cameraId) ==>
              HasVerdict(result.value, version, r, view, now, ctx, name))
    decreases |rules|
  {
    if rules != [] {
      var first := EvaluateRule(version, rules[0], view, now, ctx, name);
      var rest, result := EvaluateRules(version, rules[1..], view, now, ctx, name),
                          EvaluateRules(version, rules, view, now, ctx, name);
      RulesJudge(version, rules[1..], view, now, ctx, name);
      RuleJudges(version, rules[0], view, now, ctx, name);
      if result.Ok? {
        forall f | f in result.value
          ensures ByOneOf(f, version, rules, view, now, ctx, name)
        {
          if f in rest.value {
            assert ByOneOf(f, version, rules[1..], view, now, ctx, name);
          } else {
            assert f == first.value && rules[0] in rules;
          }
        }
        forall r | r in rules && OnCamera(r, view.cameraId)
          ensures HasVerdict(result.value, version, r, view, now, ctx, name)
        {
          if r in rules[1..] {
            assert HasVerdict(rest.value, version, r, view, now, ctx, name);
          } else {
            assert r == rules[0] && first.value in result.value;
          }
        }
      }
    }
  }

  /** The label of a subject, or none. */
  function LabelFor(labels: map<string, string>, objectId: string): string {
    if objectId !in labels then "" else labels[objectId]
  }

  ghost predicate ByConcerned(f: Finding, rules: RuleSet, view: ObjectView, now: int, ctx: Context, name: string) {
    exists r :: r in rules.rules && Concerns(r, view) && Judges(f, rules.version, r, view, now, ctx, name)
  }

  lemma ObjectIsJudged(rules: RuleSet, view: ObjectView, now: int, ctx: Context, name: string)
    ensures
      var result := EvaluateObject(rules, view, now, ctx, name);
      result.Ok? ==>
        && (forall f :: f in result.value ==> ByConcerned(f, rules, view, now, ctx, name))
        && (forall r :: r in rules.rules && Concerns(r, view) ==>
              HasVerdict(result.value, rules.version, r, view, now, ctx, name))
  {
    var mine := ForClass(rules.rules, view.classId);
    ForClassMembers(rules.rules, view.classId);
    RulesJudge(rules.version, mine, view, now, ctx, name);
    var result := EvaluateObject(rules, view, now, ctx, name);
    if result.Ok? {
      forall f | f in result.value
        ensures ByConcerned(f, rules, view, now, ctx, name)
      {
        assert ByOneOf(f, rules.version, mine, view, now, ctx, name);
        var r :| r in mine && OnCamera(r, view.cameraId) && Judges(f, rules.version, r, view, now, ctx, name);
        assert r in rules.rules && Concerns(r, view);
      }
      forall r | r in rules.rules && Concerns(r, view)
        ensures HasVerdict(result.value, rules.version, r, view, now, ctx, name)
      {
        assert r in mine && OnCamera(r, view.cameraId);
      }
    }
  }

  /** This finding is some concerned rule's verdict on some of these subjects. */
  ghost predicate IsJudgement(f: Finding, rules: RuleSet, views: seq<ObjectView>, now: int, ctx: Context,
                              labels: map<string, string>)
  {
    exists v, r :: v in views && r in rules.rules && Concerns(r, v)
                   && Judges(f, rules.version, r, v, now, ctx, LabelFor(labels, v.objectId))
  }

  ghost predicate IsJudged(fs: seq<Finding>, rules: RuleSet, r: Rule, v: ObjectView, now: int, ctx: Context,
                           labels: map<string, string>)
  {
    HasVerdict(fs, rules.version, r, v, now, ctx, LabelFor(labels, v.objectId))
  }

  /**
    A pass judges every subject by exactly the rules that concern it: each finding is one
    rule's verdict on one subject it concerns, and every such pair has its finding.
  */
  lemma {:induction false} PassJudgesExactlyTheConcerned(rules: RuleSet, views: seq<ObjectView>, now: int, ctx: Context,
                                                         labels: map<string, string>)
    ensures
      var result := EvaluateAll(rules, views, now, ctx, labels);
      result.Ok? ==>
        && (forall f :: f in result.value ==> IsJudgement(f, rules, views, now, ctx, labels))
        && (forall v, r :: v in views && r in rules.rules && Concerns(r, v) ==>
              IsJudged(result.value, rules, r, v, now, ctx, labels))
    decreases |views|
  {
    if views != [] {
      var view, rest := views[0], views[1..];
      PassJudgesExactlyTheConcerned(rules, rest, now, ctx, labels);
      ObjectIsJudged(rules, view, now, ctx, LabelFor(labels, view.objectId));
      var one := EvaluateObject(rules, view, now, ctx, LabelOf(labels, view));
      var others, result := EvaluateAll(rules, rest, now, ctx, labels), EvaluateAll(rules, views, now, ctx, labels);
      assert forall v :: v in views <==> v == view || v in rest;
      if result.Ok? {
        assert result.value == one.value + others.value;
        forall f | f in result.value
          ensures IsJudgement(f, rules, views, now, ctx, labels)
        {
          if f in one.value {
            assert ByConcerned(f, rules, view, now, ctx, LabelFor(labels, view.objectId));
          } else {
            assert IsJudgement(f, rules, rest, now, ctx, labels);
          }
        }
        forall v, r | v in views && r in rules.rules && Concerns(r, v)
          ensures IsJudged(result.value, rules, r, v, now, ctx, labels)
        {
          if v in rest {
            assert IsJudged(others.value, rules, r, v, now, ctx, labels);
          }
        }
      }
    }
  }

  /* ----------------------------------------------------------- two passes compared */

  /** The same finding, or the same question without its answer. */
  ghost predicate Decays(f: Finding, g: Finding) {
    && g.ruleId == f.ruleId && g.subject == f.subject && g.severity == f.severity
    && (g.state == f.state || g.state.Unknown?)
  }

  ghost predicate AllDecay(fs: seq<Finding>, gs: seq<Finding>) {
    |fs| == |gs| && forall i :: 0 <= i < |fs| ==> Decays(fs[i], gs[i])
  }

  /** Both raise, or both answer and the later answer has only decayed. */
  ghost predicate OutcomeDecays(a: Outcome, b: Outcome) {
    (a.Ok? <==> b.Ok?) && (a.Ok? ==> AllDecay(a.value, b.value))
  }

  lemma RuleDecays(version: string, rule: Rule, view: ObjectView, now: int, later: int, ctx: Context,
                   displayName: string)
    requires now <= later
    ensures
      var a := EvaluateRule(version, rule, view, now, ctx, displayName);
      var b := EvaluateRule(version, rule, view, later, ctx, displayName);
      (a.Ok? <==> b.Ok?) && (a.Ok? ==> Decays(a.value, b.value))
  {
    RuleJudges(version, rule, view, now, ctx, displayName);
    RuleJudges(version, rule, view, later, ctx, displayName);
    AgeingOnlyDecays(rule, view, now, later, ctx);
  }

  lemma AppendDecays(a: Outcome, b: Outcome, a': Outcome, b': Outcome)
    requires OutcomeDecays(a, a') && OutcomeDecays(b, b')
    ensures OutcomeDecays(Append(a, b), Append(a', b'))
  {
  }

  lemma {:induction false} RulesDecay(version: string, rules: seq<Rule>, view: ObjectView, now: int, later: int,
                                      ctx: Context, displayName: string)
    requires now <= later
    ensures OutcomeDecays(EvaluateRules(version, rules, view, now, ctx, displayName),
                          EvaluateRules(version, rules, view, later, ctx, displayName))
    decreases |rules|
  {
    if rules != [] {
      RulesDecay(version, rules[1..], view, now, later, ctx, displayName);
      RuleDecays(version, rules[0], view, now, later, ctx, displayName);
      var a := EvaluateRule(version, rules[0], view, now, ctx, displayName);
      var b := EvaluateRule(version, rules[0], view, later, ctx, displayName);
      if a.Ok? {
        AppendDecays(Ok([a.value]), EvaluateRules(version, rules[1..], view, now, ctx, displayName),
                     Ok([b.value]), EvaluateRules(version, rules[1..], view, later, ctx, displayName));
      }
    }
  }

  lemma {:induction false} PassDecays(rules: RuleSet, views: seq<ObjectView>, now: int, later: int, ctx: Context,
                                      labels: map<string, string>)
    requires now <= later
    ensures OutcomeDecays(EvaluateAll(rules, views, now, ctx, labels), EvaluateAll(rules, views, later, ctx, labels))
    decreases |views|
  {
    if views != [] {
      var view, name := views[0], LabelOf(labels, views[0]);
      RulesDecay(rules.version, ForClass(rules.rules, view.classId), view, now, later, ctx, name);
      PassDecays(rules, views[1..], now, later, ctx, labels);
      AppendDecays(EvaluateObject(rules, view, now, ctx, name), EvaluateAll(rules, views[1..], now, ctx, labels),
                   EvaluateObject(rules, view, later, ctx, name), EvaluateAll(rules, views[1..], later, ctx, labels));
    }
  }

  /* ------------------------------------------------------- a pass names a key once */

  ghost predicate DistinctSubjects(views: seq<ObjectView>) {
    forall i, j :: 0 <= i < j < |views|
      ==> !(views[i].cameraId == views[j].cameraId && views[i].objectId == views[j].objectId)
  }

  ghost predicate DistinctKeys(organizationId: string, fs: seq<Finding>) {
    forall i, j :: 0 <= i < j < |fs| ==> KeyOf(organizationId, fs[i]) != KeyOf(organizationId, fs[j])
  }

  predicate About(f: Finding, view: ObjectView) {
    f.subject.cameraId == view.cameraId && f.subject.objectId == view.objectId
  }

  ghost predicate Names(rules: seq<Rule>, ruleId: string) {
    exists i :: 0 <= i < |rules| && rules[i].ruleId == ruleId
  }

  lemma NamesInTail(rules: seq<Rule>, ruleId: string)
    requires rules != [] && Names(rules[1..], ruleId)
    ensures Names(rules, ruleId)
    ensures DistinctIds(rules) ==> rules[0].ruleId != ruleId
  {
    var i :| 0 <= i < |rules[1..]| && rules[1..][i].ruleId == ruleId;
    assert rules[i + 1].ruleId == ruleId;
  }

  lemma {:induction false} ForClassStaysDistinct(rules: seq<Rule>, classId: string)
    requires DistinctIds(rules)
    ensures DistinctIds(ForClass(rules, classId))
    ensures forall id :: Names(ForClass(rules, classId), id) ==> Names(rules, id)
    decreases |rules|
  {
    if rules != [] {
      var rest, kept := rules[1..], ForClass(rules[1..], classId);
      ForClassStaysDistinct(rest, classId);
      forall id | Names(kept, id)
        ensures Names(rules, id) && rules[0].ruleId != id
      {
        NamesInTail(rules, id);
      }
      PrependedStaysDistinct(rules[0], kept);
      assert Names(rules, rules[0].ruleId);
    }
  }

  lemma PrependedStaysDistinct(rule: Rule, rest: seq<Rule>)
    requires DistinctIds(rest) && !Names(rest, rule.ruleId)
    ensures DistinctIds([rule] + rest)
    ensures forall id :: Names([rule] + rest, id) ==> id == rule.ruleId || Names(rest, id)
  {
    var all := [rule] + rest;
    assert forall i :: 0 < i < |all| ==> all[i] == rest[i - 1] && Names(rest, all[i].ruleId);
  }

  /** One subject's findings are about it, and name each rule at most once. */
  lemma {:induction false} RulesNameOnce(version: string, rules: seq<Rule>, view: ObjectView, now: int, ctx: Context,
                                         displayName: string, organizationId: string)
    requires DistinctIds(rules)
    ensures
      var r := EvaluateRules(version, rules, view, now, ctx, displayName);
      r.Ok? ==>
        && DistinctKeys(organizationId, r.value)
        && forall i :: 0 <= i < |r.value| ==> About(r.value[i], view) && Names(rules, r.value[i].ruleId)
    decreases |rules|
  {
    if rules != [] {
      var rest := EvaluateRules(version, rules[1..], view, now, ctx, displayName);
      RulesNameOnce(version, rules[1..], view, now, ctx, displayName, organizationId);
      if rest.Ok? {
        forall i | 0 <= i < |rest.value|
          ensures Names(rules, rest.value[i].ruleId) && rest.value[i].ruleId != rules[0].ruleId
        {
          NamesInTail(rules, rest.value[i].ruleId);
        }
        assert Names(rules, rules[0].ruleId);
      }
    }
  }

  ghost predicate AboutOneOf(f: Finding, views: seq<ObjectView>) {
    exists k :: 0 <= k < |views| && About(f, views[k])
  }

  lemma OtherSubjects(f: Finding, g: Finding, views: seq<ObjectView>, organizationId: string)
    requires views != [] && DistinctSubjects(views) && About(f, views[0]) && AboutOneOf(g, views[1..])
    ensures AboutOneOf(g, views) && KeyOf(organizationId, f) != KeyOf(organizationId, g)
  {
    var k :| 0 <= k < |views[1..]| && About(g, views[1..][k]);
    assert About(g, views[k + 1]);
  }

  /** With distinct rule ids and distinct subjects, a pass names each incident key at most once. */
  lemma {:induction false} PassNamesOnce(rules: RuleSet, views: seq<ObjectView>, now: int, ctx: Context,
                                         labels: map<string, string>, organizationId: string)
    requires DistinctIds(rules.rules) && DistinctSubjects(views)
    ensures
      var r := EvaluateAll(rules, views, now, ctx, labels);
      r.Ok? ==>
        && DistinctKeys(organizationId, r.value)
        && forall i :: 0 <= i < |r.value| ==> AboutOneOf(r.value[i], views)
    decreases |views|
  {
    if views != [] {
      var view, name := views[0], LabelOf(labels, views[0]);
      ForClassStaysDistinct(rules.rules, view.classId);
      RulesNameOnce(rules.version, ForClass(rules.rules, view.classId), view, now, ctx, name, organizationId);
      PassNamesOnce(rules, views[1..], now, ctx, labels, organizationId);
      var one, rest := EvaluateObject(rules, view, now, ctx, name), EvaluateAll(rules, views[1..], now, ctx, labels);
      if one.Ok? && rest.Ok? {
        forall i, j | 0 <= i < |one.value| && 0 <= j < |rest.value|
          ensures KeyOf(organizationId, one.value[i]) != KeyOf(organizationId, rest.value[j])
        {
          OtherSubjects(one.value[i], rest.value[j], views, organizationId);
        }
        JoinedStaysDistinct(organizationId, one.value, rest.value);
        JoinedIsAbout(one.value, rest.value, views);
      }
    }
  }

  lemma JoinedStaysDistinct(organizationId: string, fs: seq<Finding>, gs: seq<Finding>)
    requires DistinctKeys(organizationId, fs) && DistinctKeys(organizationId, gs)
    requires forall i, j :: 0 <= i < |fs| && 0 <= j < |gs| ==>
               KeyOf(organizationId, fs[i]) != KeyOf(organizationId, gs[j])
    ensures DistinctKeys(organizationId, fs + gs)
  {
  }

  lemma JoinedIsAbout(fs: seq<Finding>, gs: seq<Finding>, views: seq<ObjectView>)
    requires views != []
    requires forall i :: 0 <= i < |fs| ==> About(fs[i], views[0])
    requires forall i :: 0 <= i < |gs| ==> AboutOneOf(gs[i], views[1..])
    ensures forall i :: 0 <= i < |fs + gs| ==> AboutOneOf((fs + gs)[i], views)
  {
    forall i | 0 <= i < |gs|
      ensures AboutOneOf(gs[i], views)
    {
      var k :| 0 <= k < |views[1..]| && About(gs[i], views[1..][k]);
      assert About(gs[i], views[k + 1]);
    }
  }

  /* ------------------------------------------------------------- what a pass settles */

  /** The table says of a decided finding's key what the finding says. */
  ghost predicate Settles(st: Store, organizationId: string, f: Finding) {
    Decided(f) ==> (OpenId(st.rows, KeyOf(organizationId, f)).Some? <==> f.state.Violation?)
  }

  ghost predicate AllReached(courses: seq<Course>) {
    forall i :: 0 <= i < |courses| ==> !courses[i].TableRaised?
  }

  lemma FindingSettles(st: Store, organizationId: string, f: Finding, clock: int, course: Course)
    requires Consistent(st) && !course.TableRaised?
    ensures Settles(Applied(st, organizationId, f, clock, course), organizationId, f)
  {
    DecidedIsDecisive();
    HappenMovesOneKey(st, Observed(organizationId, f, clock, course), KeyOf(organizationId, f));
  }

  lemma OtherKeyStaysSettled(st: Store, organizationId: string, f: Finding, clock: int, course: Course, g: Finding)
    requires Consistent(st) && Settles(st, organizationId, g)
    requires KeyOf(organizationId, g) != KeyOf(organizationId, f)
    ensures Settles(Applied(st, organizationId, f, clock, course), organizationId, g)
  {
    DecidedIsDecisive();
    HappenMovesOneKey(st, Observed(organizationId, f, clock, course), KeyOf(organizationId, g));
  }

  /** After the first `n` findings of a pass that reaches the table, the table agrees with each of them. */
  lemma {:induction false} PassSettles(st: Store, organizationId: string, fs: seq<Finding>, clock: int,
                                       courses: seq<Course>, n: nat)
    requires |courses| == |fs| && n <= |fs| && Consistent(st) && DistinctKeys(organizationId, fs) && AllReached(courses)
    ensures
      var st' := Run(st, EventsOf(organizationId, fs, clock, courses)[..n]);
      Consistent(st') && forall i :: 0 <= i < n ==> Settles(st', organizationId, fs[i])
    decreases n
  {
    var events := EventsOf(organizationId, fs, clock, courses);
    if n > 0 {
      PassSettles(st, organizationId, fs, clock, courses, n - 1);
      RunOneMore(st, events, n - 1);
      var before := Run(st, events[..n - 1]);
      HappenKeepsConsistent(before, events[n - 1]);
      forall i | 0 <= i < n
        ensures Settles(Happen(before, events[n - 1]), organizationId, fs[i])
      {
        if i < n - 1 {
          OtherKeyStaysSettled(before, organizationId, fs[n - 1], clock, courses[n - 1], fs[i]);
        } else {
          FindingSettles(before, organizationId, fs[n - 1], clock, courses[n - 1]);
        }
      }
    }
  }

  /** The same rows, with clocks that may have moved forward. */
  ghost predicate SameButClock(a: seq<Incident>, b: seq<Incident>) {
    && |a| == |b|
    && forall i :: 0 <= i < |a| ==> b[i] == a[i].(observedAt := b[i].observedAt) && b[i].observedAt >= a[i].observedAt
  }

  lemma SameRowsOpen(a: seq<Incident>, b: seq<Incident>, key: Key)
    requires SameButClock(a, b)
    ensures FirstOpen(a, key) == FirstOpen(b, key)
  {
    assert forall i :: 0 <= i < |a| ==> (OpenOn(a[i], key) <==> OpenOn(b[i], key));
  }

  lemma SettledFindingMovesClock(st0: Store, st: Store, organizationId: string, f: Finding, clock: int, course: Course)
    requires SameButClock(st0.rows, st.rows) && Settles(st0, organizationId, f)
    ensures
      var st' := Applied(st, organizationId, f, clock, course);
      SameButClock(st0.rows, st'.rows) && st'.nextId == st.nextId
  {
    DecidedIsDecisive();
    SameRowsOpen(st0.rows, st.rows, KeyOf(organizationId, f));
  }

  /** A pass whose every finding the table already agrees with moves clocks and nothing else. */
  lemma {:induction false} SettledPassMovesClocks(st: Store, organizationId: string, gs: seq<Finding>, clock: int,
                                                  courses: seq<Course>, n: nat)
    requires |courses| == |gs| && n <= |gs| && forall i :: 0 <= i < |gs| ==> Settles(st, organizationId, gs[i])
    ensures
      var st' := Run(st, EventsOf(organizationId, gs, clock, courses)[..n]);
      SameButClock(st.rows, st'.rows) && st'.nextId == st.nextId
    decreases n
  {
    if n > 0 {
      var events := EventsOf(organizationId, gs, clock, courses);
      SettledPassMovesClocks(st, organizationId, gs, clock, courses, n - 1);
      RunOneMore(st, events, n - 1);
      SettledFindingMovesClock(st, Run(st, events[..n - 1]), organizationId, gs[n - 1], clock, courses[n - 1]);
    }
  }

  lemma {:induction false} ClocksDoNotCount(a: seq<Incident>, b: seq<Incident>)
    requires SameButClock(a, b)
    ensures ChangeOf(a, b) == Change(0, 0, 0)
    decreases |a|
  {
    if a != [] {
      var n := |a| - 1;
      ClocksDoNotCount(a[..n], b[..n]);
    }
  }

  /**
    End to end. Two passes over the same views with the same coverage and gaps, the second at
    any later instant: whatever the table was before and whatever goes wrong in the second
    pass, the second opens no incident and closes none, and changes nothing on any row but
    its clock. Time alone never raises a violation and never clears one.
  */
  lemma TimeAloneMovesNoIncident(rules: RuleSet, views: seq<ObjectView>, now: int, later: int, ctx: Context,
                                 labels: map<string, string>, organizationId: string, st: Store,
                                 clock: int, courses: seq<Course>, clock': int, courses': seq<Course>)
    requires now <= later && DistinctIds(rules.rules) && DistinctSubjects(views) && Consistent(st)
    requires EvaluateAll(rules, views, now, ctx, labels).Ok?
    requires |courses| == |EvaluateAll(rules, views, now, ctx, labels).value| == |courses'| && AllReached(courses)
    ensures EvaluateAll(rules, views, later, ctx, labels).Ok?
    ensures |EvaluateAll(rules, views, later, ctx, labels).value| == |courses'|
    ensures
      var fs := EvaluateAll(rules, views, now, ctx, labels).value;
      var gs := EvaluateAll(rules, views, later, ctx, labels).value;
      var first := Run(st, EventsOf(organizationId, fs, clock, courses));
      var second := Run(first, EventsOf(organizationId, gs, clock', courses'));
      SameButClock(first.rows, second.rows) && second.nextId == first.nextId
      && ChangeOf(first.rows, second.rows) == Change(0, 0, 0)
  {
    PassDecays(rules, views, now, later, ctx, labels);
    PassNamesOnce(rules, views, now, ctx, labels, organizationId);
    var fs := EvaluateAll(rules, views, now, ctx, labels).value;
    var gs := EvaluateAll(rules, views, later, ctx, labels).value;
    SettledByDecayed(st, organizationId, fs, gs, clock, courses, clock', courses');
  }

  lemma SettledByDecayed(st: Store, organizationId: string, fs: seq<Finding>, gs: seq<Finding>,
                         clock: int, courses: seq<Course>, clock': int, courses': seq<Course>)
    requires Consistent(st) && DistinctKeys(organizationId, fs) && AllDecay(fs, gs)
    requires |courses| == |fs| && |courses'| == |gs| && AllReached(courses)
    ensures
      var first := Run(st, EventsOf(organizationId, fs, clock, courses));
      var second := Run(first, EventsOf(organizationId, gs, clock', courses'));
      SameButClock(first.rows, second.rows) && second.nextId == first.nextId
      && ChangeOf(first.rows, second.rows) == Change(0, 0, 0)
  {
    var events, events' := EventsOf(organizationId, fs, clock, courses), EventsOf(organizationId, gs, clock', courses');
    assert events[..|fs|] == events && events'[..|gs|] == events';
    PassSettles(st, organizationId, fs, clock, courses, |fs|);
    var first := Run(st, events);
    forall i | 0 <= i < |gs|
      ensures Settles(first, organizationId, gs[i])
    {
      assert Decays(fs[i], gs[i]) && Settles(first, organizationId, fs[i]);
    }
    SettledPassMovesClocks(first, organizationId, gs, clock', courses', |gs|);
    ClocksDoNotCount(first.rows, Run(first, events').rows);
  }
}
