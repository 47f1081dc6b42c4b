/** Compliance rules as data (compliance/document.py). */
module Rules {
  import opened Basics
  import opened Text

  /**
    An attribute value. Numbers and tuples carry the text Python shows them as, which is
    what a refusal list is compared with; integers and floats are one numeric kind, as
    they are for `==` and `<`.
  */
  datatype Value =
    | Null
    | Text(text: string)
    | Flag(flag: bool)
    | Number(number: real, shown: string)
    | Items(items: seq<Value>, shown: string)
  {
    function AsText(): string {
      match this
      case Null => "None"
      case Text(text) => text
      case Flag(flag) => if flag then "True" else "False"
      case Number(_, shown) => shown
      case Items(_, shown) => shown
    }
  }

  /** Python's `==`: a boolean equals the number 0 or 1. */
  predicate Same(a: Value, b: Value) {
    match (a, b)
    case (Null, Null) => true
    case (Text(x), Text(y)) => x == y
    case (Flag(x), Flag(y)) => x == y
    case (Number(x, _), Number(y, _)) => x == y
    case (Flag(x), Number(y, _)) => y == (if x then 1.0 else 0.0)
    case (Number(x, _), Flag(y)) => x == (if y then 1.0 else 0.0)
    case (Items(xs, _), Items(ys, _)) =>
      |xs| == |ys| && forall i :: 0 <= i < |xs| ==> Same(xs[i], ys[i])
    case _ => false
  }

  /** A value as `==` sees it: a boolean is the number 0 or 1, and how a number is shown does not matter. */
  datatype Plain = PlainNull | PlainText(text: string) | PlainNumber(number: real) | PlainItems(items: seq<Plain>)

  function PlainOf(v: Value): Plain {
    match v
    case Null => PlainNull
    case Text(text) => PlainText(text)
    case Flag(flag) => PlainNumber(if flag then 1.0 else 0.0)
    case Number(number, _) => PlainNumber(number)
    case Items(items, _) => PlainItems(seq(|items|, i requires 0 <= i < |items| => PlainOf(items[i])))
  }

  /** The comparison by cases is equality of what the two values are. */
  lemma {:induction false} SameIsEqualityOfPlain(a: Value, b: Value)
    ensures Same(a, b) <==> PlainOf(a) == PlainOf(b)
    decreases a
  {
    if a.Items? && b.Items? {
      var xs, ys := PlainOf(a).items, PlainOf(b).items;
      forall i | 0 <= i < |a.items| && i < |b.items|
        ensures Same(a.items[i], b.items[i]) <==> xs[i] == ys[i]
      {
        SameIsEqualityOfPlain(a.items[i], b.items[i]);
      }
      if Same(a, b) {
        assert xs == ys;
      }
    }
  }

  datatype Operator = Eq | Ne | In | NotIn | Gt | Gte | Lt | Lte | Present

  datatype Condition = Condition(
    attribute: string,
    operator: Operator,
    expected: Value,
    message: string,
    unknownValues: seq<string>)

  datatype EvidenceRequirements = EvidenceRequirements(
    maxStalenessNs: Option<int>,
    corroboration: seq<string>,
    requireFullCoverage: bool)

  datatype Rule = Rule(
    ruleId: string,
    version: string,
    require: seq<Condition>,
    when: seq<Condition>,
    subjectClasses: seq<string>,
    cameraIds: seq<string>,
    evidence: EvidenceRequirements,
    severity: string)
  {
    predicate CoversCamera(cameraId: string) {
      cameraIds == [] || cameraId in cameraIds
    }

    predicate CoversClass(classId: string) {
      subjectClasses == [] || exists i :: 0 <= i < |subjectClasses| && Under(classId, subjectClasses[i])
    }
  }

  /** `class_id == allowed or class_id.startswith(f"{allowed}.")` */
  predicate Under(classId: string, allowed: string) {
    classId == allowed || allowed + "." <= classId
  }

  /** A filter names a class and everything below it: its path is the beginning of the class's path. */
  lemma UnderIsPathPrefix(classId: string, allowed: string)
    ensures Under(classId, allowed) <==> SplitOn(allowed, '.') <= SplitOn(classId, '.')
  {
    PrefixOfPieces(classId, allowed, '.');
    assert allowed + "." == allowed + ['.'];
  }

  /** Class filters are hierarchical: covering a class covers everything below it. */
  lemma CoverageDescends(rule: Rule, classId: string, tail: string)
    requires rule.CoversClass(classId)
    ensures rule.CoversClass(classId + "." + tail)
  {
    if rule.subjectClasses != [] {
      var i :| 0 <= i < |rule.subjectClasses| && Under(classId, rule.subjectClasses[i]);
      assert Under(classId + "." + tail, rule.subjectClasses[i]);
    }
  }

  function Keys(conditions: seq<Condition>): seq<string> {
    seq(|conditions|, i requires 0 <= i < |conditions| => conditions[i].attribute)
  }

  /** Every attribute a rule mentions, repeats included. */
  function Mentions(rule: Rule): seq<string> {
    Keys(rule.when + rule.require) + rule.evidence.corroboration
  }

  /** `Rule.attributes`: the mentioned keys, each once, in order of first mention. */
  method Attributes(rule: Rule) returns (keys: seq<string>)
    ensures keys == AddAllNew([], Mentions(rule))
    ensures NoDuplicates(keys)
    ensures forall k :: k in keys <==>
              || (exists c :: (c in rule.when || c in rule.require) && c.attribute == k)
              || k in rule.evidence.corroboration
  {
    keys := [];
    var conditions := rule.when + rule.require;
    ghost var all := Mentions(rule);
    for i := 0 to |conditions|
      invariant keys == AddAllNew([], all[..i])
    {
      AddAllNewStep([], all, i);
      if conditions[i].attribute !in keys {
        keys := keys + [conditions[i].attribute];
      }
    }
    var extra := rule.evidence.corroboration;
    for i := 0 to |extra|
      invariant keys == AddAllNew([], all[..|conditions| + i])
    {
      AddAllNewStep([], all, |conditions| + i);
      if extra[i] !in keys {
        keys := keys + [extra[i]];
      }
    }
    assert all[..|all|] == all;
    DependenciesAreExact(rule);
  }

  lemma DependenciesAreExact(rule: Rule)
    ensures
      var keys := AddAllNew([], Mentions(rule));
      && NoDuplicates(keys)
      && forall k :: k in keys <==>
           || (exists c :: (c in rule.when || c in rule.require) && c.attribute == k)
           || k in rule.evidence.corroboration
  {
    AddAllNewIsUnion([], Mentions(rule));
    MentionsAreDependencies(rule);
  }

  lemma MentionsAreDependencies(rule: Rule)
    ensures forall k :: k in Mentions(rule) <==>
              || (exists c :: (c in rule.when || c in rule.require) && c.attribute == k)
              || k in rule.evidence.corroboration
  {
    var conditions := rule.when + rule.require;
    var keys := Keys(conditions);
    assert forall i :: 0 <= i < |conditions| ==> keys[i] == conditions[i].attribute;
    forall k
      ensures k in keys <==> exists c :: (c in rule.when || c in rule.require) && c.attribute == k
    {
      if k in keys {
        var i :| 0 <= i < |keys| && keys[i] == k;
        assert conditions[i] in rule.when || conditions[i] in rule.require;
      }
      if c :| (c in rule.when || c in rule.require) && c.attribute == k {
        assert c in conditions;
        var i :| 0 <= i < |conditions| && conditions[i] == c;
        assert keys[i] == k;
      }
    }
  }

  datatype RuleSet = RuleSet(version: string, rules: seq<Rule>)

  function ForClass(rules: seq<Rule>, classId: string): seq<Rule> {
    if rules == [] then []
    else (if rules[0].CoversClass(classId) then [rules[0]] else []) + ForClass(rules[1..], classId)
  }

  ghost predicate DistinctIds(rules: seq<Rule>) {
    forall i, j :: 0 <= i < j < |rules| ==> rules[i].ruleId != rules[j].ruleId
  }

  /** The uniqueness check of `RuleSet.from_document`: refused exactly when an id repeats, naming one that does. */
  method FromRules(version: string, rules: seq<Rule>) returns (r: Result<RuleSet, string>)
    ensures r.Ok? <==> DistinctIds(rules)
    ensures r.Ok? ==> r.value == RuleSet(version, rules)
    ensures r.Err? ==> exists i, j :: 0 <= i < j < |rules| && rules[i].ruleId == r.error == rules[j].ruleId
  {
    var seen: set<string> := {};
    for k := 0 to |rules|
      invariant forall id :: id in seen <==> exists i :: 0 <= i < k && rules[i].ruleId == id
      invariant forall i, j :: 0 <= i < j < k ==> rules[i].ruleId != rules[j].ruleId
    {
      if rules[k].ruleId in seen {
        return Err(rules[k].ruleId);
      }
      seen := seen + {rules[k].ruleId};
    }
    return Ok(RuleSet(version, rules));
  }
}
