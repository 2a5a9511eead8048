/** Policy evaluation: which rules match an action and its findings, and the decision
    that follows from the effects of those that do. */
module Policy {
  import opened Models
  import opened StableSort

  /** String folding and the table of adapter aliases ("" for an unknown name). */
  datatype Names = Names(lower: string -> string, trim: string -> string, fold: string -> string,
                         alias: string -> string)

  const DEFAULT_TYPES: set<string> :=
    {"email", "phone", "ssn", "api_key", "credit_card", "ip_address", "date", "zip_code",
     "person", "organization", "location"}

  const DEFAULT_TRANSFORMS: seq<TransformStep> :=
    [TransformStep("email", Mask), TransformStep("phone", Tokenize), TransformStep("ssn", Anonymize),
     TransformStep("api_key", Redact), TransformStep("credit_card", Redact), TransformStep("ip_address", Mask),
     TransformStep("date", Mask), TransformStep("zip_code", Mask), TransformStep("person", Redact),
     TransformStep("organization", Mask), TransformStep("location", Mask)]

  // ---------------------------------------------------------------- what it means to match

  predicate EqualFold(names: Names, a: string, b: string) { names.fold(a) == names.fold(b) }

  /** An empty list of conditions accepts anything. */
  predicate FieldOk(names: Names, allowed: seq<string>, value: string) {
    allowed == [] || exists a :: a in allowed && EqualFold(names, a, value)
  }

  predicate ArgsOk(names: Names, required: seq<string>, args: seq<string>) {
    forall r :: r in required ==> exists v :: v in args && EqualFold(names, r, v)
  }

  function Canonical(names: Names, value: string): string { names.alias(names.lower(value)) }

  predicate SameAdapter(names: Names, tool: string, target: string) {
    var toolLower, targetLower := names.lower(tool), names.lower(target);
    var toolCanonical, targetCanonical := Canonical(names, toolLower), Canonical(names, targetLower);
    || toolLower == targetLower
    || (toolCanonical != "" && (toolCanonical == targetCanonical || toolCanonical == targetLower))
    || toolLower == targetCanonical
  }

  predicate AdapterOk(names: Names, tool: string, targets: seq<string>) {
    targets == [] || exists t :: t in targets && SameAdapter(names, tool, t)
  }

  predicate ResourceOk(prefixes: seq<string>, resource: string) {
    prefixes == [] || (resource != "" && exists p :: p in prefixes && p <= resource)
  }

  predicate ActionOk(names: Names, c: MatchCriteria, sensitiveOnly: bool, action: ActionMeta) {
    && FieldOk(names, c.actionTypes, action.actionType)
    && FieldOk(names, c.tools, action.tool)
    && FieldOk(names, c.commands, action.command)
    && ArgsOk(names, c.args, action.args)
    && AdapterOk(names, action.tool, c.adapters)
    && (sensitiveOnly ==> action.sensitive)
    && ResourceOk(c.resourcePrefix, action.resource)
  }

  predicate EntitiesOk(names: Names, reqs: seq<string>, found: set<string>) {
    forall r :: r in reqs ==> names.lower(names.trim(r)) in DEFAULT_TYPES * found
  }

  predicate Matches(names: Names, action: ActionMeta, found: set<string>, rule: Rule) {
    && !rule.effect.OtherDecision?
    && ActionOk(names, rule.criteria, rule.requireSensitiveOnly, action)
    && EntitiesOk(names, rule.entityRequirements, found)
  }

  function Matching(names: Names, action: ActionMeta, found: set<string>): Rule -> bool {
    (rule: Rule) => Matches(names, action, found, rule)
  }

  function TypesFound(names: Names, findings: seq<ScanFinding>): set<string> {
    set f | f in findings :: names.lower(f.entityType)
  }

  // ---------------------------------------------------------------- the matching loops

  method MatchesField(names: Names, allowed: seq<string>, value: string) returns (ok: bool)
    ensures ok == FieldOk(names, allowed, value)
  {
    if |allowed| == 0 {
      return true;
    }
    for i := 0 to |allowed|
      invariant forall k :: 0 <= k < i ==> !EqualFold(names, allowed[k], value)
    {
      if EqualFold(names, allowed[i], value) {
        return true;
      }
    }
    return false;
  }

  method MatchesArgs(names: Names, required: seq<string>, args: seq<string>) returns (ok: bool)
    ensures ok == ArgsOk(names, required, args)
  {
    if |required| == 0 {
      return true;
    }
    if |args| == 0 {
      assert required[0] in required;
      return false;
    }
    for i := 0 to |required|
      invariant forall k :: 0 <= k < i ==> exists v :: v in args && EqualFold(names, required[k], v)
    {
      var matched := false;
      for j := 0 to |args|
        invariant !matched && forall k :: 0 <= k < j ==> !EqualFold(names, required[i], args[k])
      {
        var same := MatchesField(names, [required[i]], args[j]);
        assert same <==> EqualFold(names, required[i], args[j]);
        if same {
          matched := true;
          break;
        }
      }
      if !matched {
        assert required[i] in required;
        return false;
      }
    }
    return true;
  }

  method MatchesAdapter(names: Names, tool: string, targets: seq<string>) returns (ok: bool)
    ensures ok == AdapterOk(names, tool, targets)
  {
    if |targets| == 0 {
      return true;
    }
    var toolCanonical := Canonical(names, names.lower(tool));
    var toolLower := names.lower(tool);
    for i := 0 to |targets|
      invariant forall k :: 0 <= k < i ==> !SameAdapter(names, tool, targets[k])
    {
      var targetLower := names.lower(targets[i]);
      var targetCanonical := Canonical(names, targetLower);
      assert targets[i] in targets;
      if toolLower == targetLower {
        return true;
      }
      if toolCanonical != "" && toolCanonical == targetCanonical {
        return true;
      }
      if toolCanonical != "" && toolCanonical == targetLower {
        return true;
      }
      if toolLower == targetCanonical {
        return true;
      }
    }
    return false;
  }

  method MatchAction(names: Names, c: MatchCriteria, requireSensitiveOnly: bool, action: ActionMeta) returns (ok: bool)
    ensures ok == ActionOk(names, c, requireSensitiveOnly, action)
  {
    ok := MatchesField(names, c.actionTypes, action.actionType);
    if !ok { return; }
    ok := MatchesField(names, c.tools, action.tool);
    if !ok { return; }
    ok := MatchesField(names, c.commands, action.command);
    if !ok { return; }
    ok := MatchesArgs(names, c.args, action.args);
    if !ok { return; }
    ok := MatchesAdapter(names, action.tool, c.adapters);
    if !ok { return; }
    if requireSensitiveOnly && !action.sensitive {
      return false;
    }
    ok := MatchesResource(c.resourcePrefix, action.resource);
  }

  method MatchesResource(prefixes: seq<string>, resource: string) returns (ok: bool)
    ensures ok == ResourceOk(prefixes, resource)
  {
    if |prefixes| > 0 && resource == "" {
      return false;
    }
    for i := 0 to |prefixes|
      invariant forall k :: 0 <= k < i ==> !(prefixes[k] <= resource)
    {
      if prefixes[i] <= resource {
        assert prefixes[i] in prefixes;
        return true;
      }
    }
    if |prefixes| > 0 {
      return false;
    }
    return true;
  }

  method HasRequiredEntities(names: Names, reqs: seq<string>, found: set<string>) returns (ok: bool)
    ensures ok == EntitiesOk(names, reqs, found)
  {
    for i := 0 to |reqs|
      invariant forall k :: 0 <= k < i ==> names.lower(names.trim(reqs[k])) in DEFAULT_TYPES * found
    {
      var reqName := names.lower(names.trim(reqs[i]));
      if reqName !in DEFAULT_TYPES || reqName !in found {
        assert reqs[i] in reqs;
        return false;
      }
    }
    return true;
  }

  // ---------------------------------------------------------------- the decision

  datatype DecisionResult = DecisionResult(
    decision: Decision, matchedRules: seq<string>, transformPlan: seq<TransformStep>, reason: string)

  function Ids(rules: seq<Rule>): seq<string> {
    seq(|rules|, i requires 0 <= i < |rules| => rules[i].id)
  }

  predicate HasEffect(rules: seq<Rule>, effect: Decision) {
    exists r :: r in rules && r.effect == effect
  }

  /** The steps of the transform rules, in the order of the rules. */
  function Steps(rules: seq<Rule>): seq<TransformStep> {
    if rules == [] then []
    else
      var last := rules[|rules| - 1];
      Steps(rules[..|rules| - 1]) + if last.effect == Transform then last.entityTransforms else []
  }

  /** The first description given by a deny rule. */
  function DenyReason(rules: seq<Rule>): string {
    if rules == [] then ""
    else
      var earlier := DenyReason(rules[..|rules| - 1]);
      if earlier == "" && rules[|rules| - 1].effect == Deny then rules[|rules| - 1].description else earlier
  }

  function OrDefault(plan: seq<TransformStep>): seq<TransformStep> {
    if plan == [] then DEFAULT_TRANSFORMS else plan
  }

  /** What follows from the rules that matched, in order of evaluation. */
  function Conclude(matched: seq<Rule>): DecisionResult {
    if HasEffect(matched, Deny) then DecisionResult(Deny, Ids(matched), [], DenyReason(matched))
    else if HasEffect(matched, Transform) then
      DecisionResult(Transform, Ids(matched), OrDefault(Steps(matched)), "")
    else if HasEffect(matched, AllowWithRedaction) then
      DecisionResult(AllowWithRedaction, Ids(matched), DEFAULT_TRANSFORMS, "")
    else if matched != [] then DecisionResult(Allow, Ids(matched), [], "")
    else DecisionResult(Deny, [], [], "no matching rule")
  }

  function EvaluateSortedSpec(names: Names, rules: seq<Rule>, action: ActionMeta, found: set<string>): DecisionResult {
    if action.actionType == "" then DecisionResult(Deny, [], [], "action.type is required")
    else if rules == [] then DecisionResult(Deny, [], [], "policy has no rules")
    else Conclude(Filter(Matching(names, action, found), rules))
  }

  lemma NoTransformNoSteps(rules: seq<Rule>)
    requires !HasEffect(rules, Transform)
    ensures Steps(rules) == []
  {
    if rules != [] {
      assert rules[|rules| - 1] in rules;
      forall r | r in rules[..|rules| - 1] ensures r.effect != Transform {
        assert r in rules;
      }
      NoTransformNoSteps(rules[..|rules| - 1]);
    }
  }

  /** Everything the evaluation loop remembers about the rules matched so far. */
  datatype Tally = Tally(matchIDs: seq<string>, transformPlan: seq<TransformStep>, transformFound: bool,
                         transformWithRedaction: bool, denyReason: string, denyMatched: bool, matched: bool)

  ghost function TallyOf(matched: seq<Rule>): Tally {
    Tally(Ids(matched), Steps(matched), HasEffect(matched, Transform), HasEffect(matched, AllowWithRedaction),
          DenyReason(matched), HasEffect(matched, Deny), matched != [])
  }

  method CountRule(t: Tally, rule: Rule, ghost matched: seq<Rule>) returns (t': Tally)
    requires t == TallyOf(matched) && !rule.effect.OtherDecision?
    ensures t' == TallyOf(matched + [rule])
  {
    t' := t.(matched := true, matchIDs := t.matchIDs + [rule.id]);
    match rule.effect {
      case Deny =>
        t' := t'.(denyMatched := true);
        if t'.denyReason == "" {
          t' := t'.(denyReason := rule.description);
        }
      case Transform =>
        t' := t'.(transformFound := true);
        if |rule.entityTransforms| > 0 {
          t' := t'.(transformPlan := t'.transformPlan + rule.entityTransforms);
        }
      case AllowWithRedaction =>
        t' := t'.(transformWithRedaction := true);
      case _ =>
    }
    TallySnoc(matched, rule);
  }

  lemma TallySnoc(matched: seq<Rule>, rule: Rule)
    ensures var t := TallyOf(matched);
            TallyOf(matched + [rule]) == Tally(
              t.matchIDs + [rule.id],
              t.transformPlan + (if rule.effect == Transform then rule.entityTransforms else []),
              t.transformFound || rule.effect == Transform,
              t.transformWithRedaction || rule.effect == AllowWithRedaction,
              if t.denyReason == "" && rule.effect == Deny then rule.description else t.denyReason,
              t.denyMatched || rule.effect == Deny,
              true)
  {
    var m := matched + [rule];
    assert m[..|matched|] == matched;
    assert Ids(m) == Ids(matched) + [rule.id];
    EffectSnoc(matched, rule, Transform);
    EffectSnoc(matched, rule, AllowWithRedaction);
    EffectSnoc(matched, rule, Deny);
  }

  lemma EffectSnoc(matched: seq<Rule>, rule: Rule, e: Decision)
    ensures HasEffect(matched + [rule], e) <==> HasEffect(matched, e) || rule.effect == e
  {
    assert rule in matched + [rule];
  }

  method EvaluateSorted(names: Names, rules: seq<Rule>, action: ActionMeta, findings: seq<ScanFinding>)
    returns (res: DecisionResult)
    ensures res == EvaluateSortedSpec(names, rules, action, TypesFound(names, findings))
  {
    if action.actionType == "" {
      return DecisionResult(Deny, [], [], "action.type is required");
    }
    if |rules| == 0 {
      return DecisionResult(Deny, [], [], "policy has no rules");
    }
    var hasFindings := CollectTypes(names, findings);
    var tally := Tally([], [], false, false, "", false, false);
    ghost var matching := Matching(names, action, hasFindings);
    for i := 0 to |rules|
      invariant tally == TallyOf(Filter(matching, rules[..i]))
    {
      FilterStep(matching, rules, i);
      var ok := RuleMatches(names, action, hasFindings, rules[i]);
      if !ok {
        continue;
      }
      tally := CountRule(tally, rules[i], Filter(matching, rules[..i]));
    }
    assert rules[..|rules|] == rules;
    res := Report(tally, Filter(matching, rules));
  }

  lemma FilterStep(p: Rule -> bool, rules: seq<Rule>, i: nat)
    requires i < |rules|
    ensures Filter(p, rules[..i + 1]) == if p(rules[i]) then Filter(p, rules[..i]) + [rules[i]]
            else Filter(p, rules[..i])
  {
    assert rules[..i + 1] == rules[..i] + [rules[i]];
    FilterAppend(p, rules[..i], [rules[i]]);
    assert [rules[i]][1..] == [];
  }

  method RuleMatches(names: Names, action: ActionMeta, hasFindings: set<string>, rule: Rule) returns (ok: bool)
    ensures ok == Matches(names, action, hasFindings, rule)
  {
    if rule.effect.OtherDecision? {
      return false;
    }
    ok := MatchAction(names, rule.criteria, rule.requireSensitiveOnly, action);
    if !ok {
      return false;
    }
    ok := HasRequiredEntities(names, rule.entityRequirements, hasFindings);
  }

  method CollectTypes(names: Names, findings: seq<ScanFinding>) returns (hasFindings: set<string>)
    ensures hasFindings == TypesFound(names, findings)
  {
    hasFindings := {};
    for i := 0 to |findings|
      invariant hasFindings == TypesFound(names, findings[..i])
    {
      assert findings[..i + 1] == findings[..i] + [findings[i]];
      hasFindings := hasFindings + {names.lower(findings[i].entityType)};
    }
    assert findings[..|findings|] == findings;
  }

  method Report(t: Tally, ghost matched: seq<Rule>) returns (res: DecisionResult)
    requires t == TallyOf(matched)
    ensures res == Conclude(matched)
  {
    if t.denyMatched {
      return DecisionResult(Deny, t.matchIDs, [], t.denyReason);
    }
    var plan := t.transformPlan;
    if t.transformFound {
      if |plan| == 0 {
        plan := DEFAULT_TRANSFORMS;
      }
      return DecisionResult(Transform, t.matchIDs, plan, "");
    }
    if t.transformWithRedaction {
      NoTransformNoSteps(matched);
      if |plan| == 0 {
        plan := DEFAULT_TRANSFORMS;
      }
      return DecisionResult(AllowWithRedaction, t.matchIDs, plan, "");
    }
    if t.matched {
      return DecisionResult(Allow, t.matchIDs, [], "");
    }
    return DecisionResult(Deny, [], [], "no matching rule");
  }

  // ---------------------------------------------------------------- rule order

  predicate HigherPriority(a: Rule, b: Rule) { a.priority > b.priority }

  lemma PriorityOrder()
    ensures StrictWeak(HigherPriority)
  {
  }

  function Normalized(rules: seq<Rule>): seq<Rule> { Sort(HigherPriority, rules) }

  method NormalizeForEvaluation(rules: seq<Rule>) returns (sorted: seq<Rule>)
    ensures sorted == Normalized(rules)
  {
    PriorityOrder();
    var a := new Rule[|rules|](i requires 0 <= i < |rules| => rules[i]);
    assert a[..] == rules;
    SliceStable(HigherPriority, a);
    sorted := a[..];
  }

  function EvaluateSpec(names: Names, rules: seq<Rule>, action: ActionMeta,
                        findings: seq<ScanFinding>): DecisionResult {
    EvaluateSortedSpec(names, Normalized(rules), action, TypesFound(names, findings))
  }

  method Evaluate(names: Names, rules: seq<Rule>, action: ActionMeta, findings: seq<ScanFinding>)
    returns (res: DecisionResult)
    ensures res == EvaluateSpec(names, rules, action, findings)
  {
    var sorted := NormalizeForEvaluation(rules);
    res := EvaluateSorted(names, sorted, action, findings);
  }

  // ---------------------------------------------------------------- theorems

  /** deny > transform > allow_with_redaction > allow */
  function Strength(d: Decision): int {
    match d
    case Deny => 3
    case Transform => 2
    case AllowWithRedaction => 1
    case _ => 0
  }

  predicate SomeRuleMatches(names: Names, rules: seq<Rule>, action: ActionMeta, findings: seq<ScanFinding>) {
    action.actionType != "" && exists r :: r in rules && Matches(names, action, TypesFound(names, findings), r)
  }

  /** Sorting and filtering commute, and keep exactly the rules that match. */
  lemma MatchedAfterSort(names: Names, rules: seq<Rule>, action: ActionMeta, found: set<string>)
    ensures Filter(Matching(names, action, found), Normalized(rules))
         == Normalized(Filter(Matching(names, action, found), rules))
    ensures forall r :: r in Filter(Matching(names, action, found), Normalized(rules))
                    <==> r in rules && Matches(names, action, found, r)
    ensures Normalized(rules) == [] <==> rules == []
  {
    var p := Matching(names, action, found);
    PriorityOrder();
    FilterSortCommute(HigherPriority, p, rules);
    SortSpec(HigherPriority, rules);
    FilterElements(p, Normalized(rules));
    assert |multiset(Normalized(rules))| == |multiset(rules)|;
    forall r ensures r in Normalized(rules) <==> r in rules {
      assert r in Normalized(rules) <==> r in multiset(Normalized(rules));
      assert r in rules <==> r in multiset(rules);
    }
  }

  /** The decision is the strongest effect of any matching rule, and deny when none matches. */
  lemma StrongestEffectWins(names: Names, rules: seq<Rule>, action: ActionMeta, findings: seq<ScanFinding>)
    ensures var d := EvaluateSpec(names, rules, action, findings).decision;
            var found := TypesFound(names, findings);
            if SomeRuleMatches(names, rules, action, findings) then
              && (exists r :: r in rules && Matches(names, action, found, r) && r.effect == d)
              && (forall r :: r in rules && Matches(names, action, found, r) ==> Strength(r.effect) <= Strength(d))
            else d == Deny
  {
    var found := TypesFound(names, findings);
    MatchedAfterSort(names, rules, action, found);
    var m := Filter(Matching(names, action, found), Normalized(rules));
    if SomeRuleMatches(names, rules, action, findings) {
      var r :| r in rules && Matches(names, action, found, r);
      assert r in m;
      ConcludeStrongest(m);
      var s :| s in m && s.effect == Conclude(m).decision;
      assert s in rules && Matches(names, action, found, s);
    } else if action.actionType != "" && rules != [] {
      FilterUniform(Matching(names, action, found), rules, false);
      assert m == Normalized([]) == [];
    }
  }

  lemma ConcludeStrongest(m: seq<Rule>)
    requires m != [] && forall r :: r in m ==> !r.effect.OtherDecision?
    ensures HasEffect(m, Conclude(m).decision)
    ensures forall r :: r in m ==> Strength(r.effect) <= Strength(Conclude(m).decision)
  {
    assert m[0] in m;
    forall r | r in m ensures HasEffect(m, r.effect) {
    }
  }

  /** `MatchedRules` lists the matching rules by priority, ties in policy order. */
  lemma MatchedRulesByPriority(names: Names, rules: seq<Rule>, action: ActionMeta, findings: seq<ScanFinding>)
    requires SomeRuleMatches(names, rules, action, findings)
    ensures EvaluateSpec(names, rules, action, findings).matchedRules
         == Ids(Normalized(Filter(Matching(names, action, TypesFound(names, findings)), rules)))
  {
    var found := TypesFound(names, findings);
    MatchedAfterSort(names, rules, action, found);
    var m := Filter(Matching(names, action, found), Normalized(rules));
    var r :| r in rules && Matches(names, action, found, r);
    assert r in m;
    ConcludeIds(m);
  }

  lemma ConcludeIds(m: seq<Rule>)
    requires m != []
    ensures Conclude(m).matchedRules == Ids(m)
  {
  }

  ghost predicate SameRules(rules1: seq<Rule>, rules2: seq<Rule>) { forall r :: r in rules1 <==> r in rules2 }

  /** Reordering or repeating rules, and reordering, repeating or re-casing findings,
      leaves the decision alone. */
  lemma DecisionIgnoresOrder(names: Names, rules1: seq<Rule>, rules2: seq<Rule>, action: ActionMeta,
                             f1: seq<ScanFinding>, f2: seq<ScanFinding>)
    requires SameRules(rules1, rules2) && TypesFound(names, f1) == TypesFound(names, f2)
    ensures EvaluateSpec(names, rules1, action, f1).decision == EvaluateSpec(names, rules2, action, f2).decision
  {
    StrongestEffectWins(names, rules1, action, f1);
    StrongestEffectWins(names, rules2, action, f2);
    StrengthInjective();
  }

  lemma StrengthInjective()
    ensures forall d: Decision, e: Decision ::
              !d.OtherDecision? && !e.OtherDecision? && Strength(d) == Strength(e) ==> d == e
  {
  }

  /** The whole result, reasons and plans included, depends on the findings only through
      the set of their lower-cased types. */
  lemma FindingsMatterByType(names: Names, rules: seq<Rule>, action: ActionMeta, f1: seq<ScanFinding>,
                             f2: seq<ScanFinding>)
    requires multiset(f1) == multiset(f2) || (forall f :: f in f1 <==> f in f2)
    ensures EvaluateSpec(names, rules, action, f1) == EvaluateSpec(names, rules, action, f2)
  {
    assert forall f :: (f in f1 <==> f in multiset(f1)) && (f in f2 <==> f in multiset(f2));
    assert TypesFound(names, f1) == TypesFound(names, f2);
  }

  /** More rules and more findings never weaken a decision, unless it was the default
      denial of an action that no rule matched. */
  lemma MoreNeverWeakens(names: Names, rules1: seq<Rule>, rules2: seq<Rule>, action: ActionMeta,
                         f1: seq<ScanFinding>, f2: seq<ScanFinding>)
    requires (forall r :: r in rules1 ==> r in rules2) && (forall f :: f in f1 ==> f in f2)
    ensures var d1 := EvaluateSpec(names, rules1, action, f1).decision;
            var d2 := EvaluateSpec(names, rules2, action, f2).decision;
            Strength(d1) <= Strength(d2) || (d1 == Deny && !SomeRuleMatches(names, rules1, action, f1))
  {
    var t1, t2 := TypesFound(names, f1), TypesFound(names, f2);
    assert t1 <= t2;
    StrongestEffectWins(names, rules1, action, f1);
    StrongestEffectWins(names, rules2, action, f2);
    if SomeRuleMatches(names, rules1, action, f1) {
      var d1 := EvaluateSpec(names, rules1, action, f1).decision;
      var r :| r in rules1 && Matches(names, action, t1, r) && r.effect == d1;
      assert Matches(names, action, t2, r) by {
        forall q | q in r.entityRequirements ensures names.lower(names.trim(q)) in DEFAULT_TYPES * t2 {
          assert names.lower(names.trim(q)) in DEFAULT_TYPES * t1;
        }
      }
    }
  }

  /** The exception is real: the default denial gives way to the first rule that matches. */
  lemma DefaultDenialYields(names: Names, rule: Rule, action: ActionMeta, findings: seq<ScanFinding>)
    requires action.actionType != "" && rule.effect == Allow
    requires Matches(names, action, TypesFound(names, findings), rule)
    ensures EvaluateSpec(names, [], action, findings).decision == Deny
    ensures EvaluateSpec(names, [rule], action, findings).decision == Allow
  {
    assert rule in [rule];
    StrongestEffectWins(names, [], action, findings);
    StrongestEffectWins(names, [rule], action, findings);
  }

  /** Redaction always carries the default plan: rule-specific steps only come with transform. */
  lemma RedactionPlanIsDefault(names: Names, rules: seq<Rule>, action: ActionMeta, findings: seq<ScanFinding>)
    ensures var res := EvaluateSpec(names, rules, action, findings);
            && (res.decision == AllowWithRedaction ==> res.transformPlan == DEFAULT_TRANSFORMS)
            && (res.decision == Transform ==> res.transformPlan != [])
            && (res.decision in {Allow, Deny} ==> res.transformPlan == [])
  {
  }

  /** A denial by rule is explained by the description of the first deny rule that has one. */
  lemma {:induction false} DenyReasonIsFirst(rules: seq<Rule>)
    ensures if exists r :: r in rules && r.effect == Deny && r.description != ""
            then exists k :: 0 <= k < |rules| && rules[k].effect == Deny && rules[k].description != ""
                   && DenyReason(rules) == rules[k].description
                   && forall j :: 0 <= j < k && rules[j].effect == Deny ==> rules[j].description == ""
            else DenyReason(rules) == ""
  {
    if rules != [] {
      var n := |rules| - 1;
      var front, last := rules[..n], rules[n];
      assert rules == front + [last];
      DenyReasonIsFirst(front);
      if r :| r in front && r.effect == Deny && r.description != "" {
        var k :| 0 <= k < n && front[k].effect == Deny && front[k].description != ""
                 && DenyReason(front) == front[k].description
                 && forall j :: 0 <= j < k && front[j].effect == Deny ==> front[j].description == "";
        assert rules[k] == front[k] && rules[k] in rules;
      } else if last.effect == Deny && last.description != "" {
        assert rules[n] == last && last in rules;
        forall j | 0 <= j < n && rules[j].effect == Deny ensures rules[j].description == "" {
          assert rules[j] in front;
        }
      }
    }
  }
}
