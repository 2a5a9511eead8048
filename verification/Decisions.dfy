/** Policy evaluation told in plain terms: when a rule applies, and what is answered from those that do. */
module Decisions {
  import opened Models
  import opened StableSort
  import opened Policy

  // ---------------------------------------------------------------- when a rule applies

  /** The list is empty or some entry equals the value up to case. */
  predicate Listed(names: Names, allowed: seq<string>, value: string) {
    |allowed| == 0 || exists i :: 0 <= i < |allowed| && names.fold(allowed[i]) == names.fold(value)
  }

  /** The two names or their canonical names agree in one of the four ways the registry accepts. */
  predicate NamesAgree(names: Names, tool: string, target: string) {
    var t, u := names.lower(tool), names.lower(target);
    var known, wanted := names.alias(names.lower(t)), names.alias(names.lower(u));
    t == u || t == wanted || (known != "" && known in [wanted, u])
  }

  predicate SomeAgrees(names: Names, tool: string, targets: seq<string>) {
    |targets| == 0 || exists i :: 0 <= i < |targets| && NamesAgree(names, tool, targets[i])
  }

  /** Every argument asked for is among those given. */
  predicate Given(names: Names, required: seq<string>, args: seq<string>) {
    forall i :: 0 <= i < |required| ==> args != [] && Listed(names, args, required[i])
  }

  predicate Covers(prefixes: seq<string>, resource: string) {
    |prefixes| == 0 || (resource != "" && exists i :: 0 <= i < |prefixes|
                                            && |prefixes[i]| <= |resource| && resource[..|prefixes[i]|] == prefixes[i])
  }

  const KNOWN_TYPES: seq<string> :=
    ["api_key", "credit_card", "date", "email", "ip_address", "location", "organization", "person", "phone", "ssn",
     "zip_code"]

  /** A requirement is met by a finding of the type it names, which must be one of the eleven known ones. */
  predicate Found(names: Names, requirement: string, findings: seq<ScanFinding>) {
    var t := names.lower(names.trim(requirement));
    t in KNOWN_TYPES && exists i :: 0 <= i < |findings| && names.lower(findings[i].entityType) == t
  }

  /** The criteria on the action itself. */
  predicate Fits(names: Names, c: MatchCriteria, action: ActionMeta) {
    && Listed(names, c.actionTypes, action.actionType)
    && Listed(names, c.tools, action.tool)
    && Listed(names, c.commands, action.command)
    && Given(names, c.args, action.args)
    && SomeAgrees(names, action.tool, c.adapters)
    && Covers(c.resourcePrefix, action.resource)
  }

  predicate Applies(names: Names, action: ActionMeta, findings: seq<ScanFinding>, rule: Rule) {
    && rule.effect in [Allow, Deny, Transform, AllowWithRedaction]
    && Fits(names, rule.criteria, action)
    && (rule.requireSensitiveOnly ==> action.sensitive)
    && forall i :: 0 <= i < |rule.entityRequirements| ==> Found(names, rule.entityRequirements[i], findings)
  }

  lemma ListedIff(names: Names, allowed: seq<string>, value: string)
    ensures FieldOk(names, allowed, value) <==> Listed(names, allowed, value)
  {
    if allowed != [] && FieldOk(names, allowed, value) {
      var a :| a in allowed && EqualFold(names, a, value);
      var i :| 0 <= i < |allowed| && allowed[i] == a;
    }
    if i :| 0 <= i < |allowed| && names.fold(allowed[i]) == names.fold(value) {
      assert EqualFold(names, allowed[i], value);
    }
  }

  lemma ArgListed(names: Names, args: seq<string>, r: string)
    ensures (exists v :: v in args && EqualFold(names, r, v)) <==> args != [] && Listed(names, args, r)
  {
    if v :| v in args && EqualFold(names, r, v) {
      var k :| 0 <= k < |args| && args[k] == v;
    }
    if args != [] && Listed(names, args, r) {
      var k :| 0 <= k < |args| && names.fold(args[k]) == names.fold(r);
      assert EqualFold(names, r, args[k]);
    }
  }

  lemma ArgsListed(names: Names, required: seq<string>, args: seq<string>)
    ensures ArgsOk(names, required, args) <==> Given(names, required, args)
  {
    if ArgsOk(names, required, args) {
      forall i | 0 <= i < |required| ensures args != [] && Listed(names, args, required[i]) {
        assert required[i] in required;
        ArgListed(names, args, required[i]);
      }
    }
    if Given(names, required, args) {
      forall r | r in required ensures exists v :: v in args && EqualFold(names, r, v) {
        var i :| 0 <= i < |required| && required[i] == r;
        ArgListed(names, args, r);
      }
    }
  }

  lemma SameIffAgree(names: Names, tool: string, target: string)
    ensures SameAdapter(names, tool, target) <==> NamesAgree(names, tool, target)
  {
  }

  lemma AdapterAgrees(names: Names, tool: string, targets: seq<string>)
    ensures AdapterOk(names, tool, targets) <==> SomeAgrees(names, tool, targets)
  {
    forall t ensures SameAdapter(names, tool, t) == NamesAgree(names, tool, t) {
      SameIffAgree(names, tool, t);
    }
    if t :| t in targets && SameAdapter(names, tool, t) {
      var i :| 0 <= i < |targets| && targets[i] == t;
    }
  }

  lemma CoversIff(prefixes: seq<string>, resource: string)
    ensures ResourceOk(prefixes, resource) <==> Covers(prefixes, resource)
  {
    if p :| p in prefixes && p <= resource {
      var i :| 0 <= i < |prefixes| && prefixes[i] == p;
      assert resource[..|p|] == p;
    }
    if i :| 0 <= i < |prefixes| && |prefixes[i]| <= |resource| && resource[..|prefixes[i]|] == prefixes[i] {
      assert prefixes[i] in prefixes && prefixes[i] <= resource;
    }
  }

  lemma KnownIff(t: string)
    ensures t in DEFAULT_TYPES <==> t in KNOWN_TYPES
  {
  }

  lemma FoundIff(names: Names, requirement: string, findings: seq<ScanFinding>)
    ensures names.lower(names.trim(requirement)) in DEFAULT_TYPES * TypesFound(names, findings)
       <==> Found(names, requirement, findings)
  {
    var t := names.lower(names.trim(requirement));
    KnownIff(t);
    if t in TypesFound(names, findings) {
      var f :| f in findings && names.lower(f.entityType) == t;
      var i :| 0 <= i < |findings| && findings[i] == f;
    }
  }

  lemma RequirementsFound(names: Names, reqs: seq<string>, findings: seq<ScanFinding>)
    ensures EntitiesOk(names, reqs, TypesFound(names, findings))
       <==> forall i :: 0 <= i < |reqs| ==> Found(names, reqs[i], findings)
  {
    forall r ensures names.lower(names.trim(r)) in DEFAULT_TYPES * TypesFound(names, findings)
                     <==> Found(names, r, findings)
    {
      FoundIff(names, r, findings);
    }
  }

  lemma ActionFits(names: Names, c: MatchCriteria, sensitiveOnly: bool, action: ActionMeta)
    ensures ActionOk(names, c, sensitiveOnly, action)
       <==> Fits(names, c, action) && (sensitiveOnly ==> action.sensitive)
  {
    ListedIff(names, c.actionTypes, action.actionType);
    ListedIff(names, c.tools, action.tool);
    ListedIff(names, c.commands, action.command);
    ArgsListed(names, c.args, action.args);
    AdapterAgrees(names, action.tool, c.adapters);
    CoversIff(c.resourcePrefix, action.resource);
  }

  /** A rule matches exactly when each of its criteria holds, read entry by entry. */
  lemma MatchesIff(names: Names, action: ActionMeta, findings: seq<ScanFinding>, rule: Rule)
    ensures Matches(names, action, TypesFound(names, findings), rule) <==> Applies(names, action, findings, rule)
  {
    ActionFits(names, rule.criteria, rule.requireSensitiveOnly, action);
    assert !rule.effect.OtherDecision? <==> rule.effect in [Allow, Deny, Transform, AllowWithRedaction];
    RequirementsFound(names, rule.entityRequirements, findings);
  }

  /** An action that names no tool is accepted by a list of adapters exactly when the list has an empty or an
      unknown name: an unknown name has the empty canonical name. */
  lemma NoToolMeetsUnknown(names: Names, targets: seq<string>)
    requires names.lower("") == "" && names.alias("") == "" && targets != []
    ensures AdapterOk(names, "", targets)
       <==> exists t :: t in targets && (names.lower(t) == "" || names.alias(names.lower(names.lower(t))) == "")
  {
    forall t ensures SameAdapter(names, "", t)
                     <==> names.lower(t) == "" || names.alias(names.lower(names.lower(t))) == ""
    {
    }
  }

  // ---------------------------------------------------------------- the rules that apply, in order

  function AtPriority(p: int): Rule -> bool { (r: Rule) => r.priority == p }

  function AppliesAt(names: Names, action: ActionMeta, findings: seq<ScanFinding>, p: int): Rule -> bool {
    (r: Rule) => r.priority == p && Applies(names, action, findings, r)
  }

  /** Priorities descend, and at each priority stand the applicable rules of the policy as the policy lists them. */
  ghost predicate ByPriority(names: Names, rules: seq<Rule>, action: ActionMeta, findings: seq<ScanFinding>,
                             m: seq<Rule>) {
    && (forall i, j :: 0 <= i < j < |m| ==> m[i].priority >= m[j].priority)
    && forall p: int :: Filter(AtPriority(p), m) == Filter(AppliesAt(names, action, findings, p), rules)
  }

  lemma {:induction false} FilterTwice<T(!new)>(p: T -> bool, q: T -> bool, both: T -> bool, xs: seq<T>)
    requires forall x :: both(x) == (p(x) && q(x))
    ensures Filter(p, Filter(q, xs)) == Filter(both, xs)
  {
    if xs != [] {
      FilterTwice(p, q, both, xs[1..]);
      var h := if q(xs[0]) then [xs[0]] else [];
      FilterAppend(p, h, Filter(q, xs[1..]));
      assert q(xs[0]) ==> Filter(p, h) == (if p(xs[0]) then [xs[0]] else []);
    }
  }

  function RuleAt(p: int): Rule {
    Rule("", "", p, Allow, MatchCriteria([], [], [], [], [], []), [], [], false)
  }

  lemma SortKeepsPriority(rules: seq<Rule>, p: int)
    ensures Filter(AtPriority(p), Normalized(rules)) == Filter(AtPriority(p), rules)
  {
    var x := RuleAt(p);
    PriorityOrder();
    SortSpec(HigherPriority, rules);
    assert Ties(HigherPriority, x, Normalized(rules)) == Ties(HigherPriority, x, rules);
    FilterSame(AtPriority(p), y => Tied(HigherPriority, x, y), Normalized(rules));
    FilterSame(AtPriority(p), y => Tied(HigherPriority, x, y), rules);
  }

  function Matched(names: Names, rules: seq<Rule>, action: ActionMeta, findings: seq<ScanFinding>): seq<Rule> {
    Filter(Matching(names, action, TypesFound(names, findings)), Normalized(rules))
  }

  lemma MatchedByPriority(names: Names, rules: seq<Rule>, action: ActionMeta, findings: seq<ScanFinding>)
    ensures ByPriority(names, rules, action, findings, Matched(names, rules, action, findings))
  {
    var q := Matching(names, action, TypesFound(names, findings));
    var m := Matched(names, rules, action, findings);
    MatchedAfterSort(names, rules, action, TypesFound(names, findings));
    PriorityOrder();
    SortSpec(HigherPriority, Filter(q, rules));
    forall i, j | 0 <= i < j < |m| ensures m[i].priority >= m[j].priority {
      assert !HigherPriority(m[j], m[i]);
    }
    forall p: int ensures Filter(AtPriority(p), m) == Filter(AppliesAt(names, action, findings, p), rules) {
      SortKeepsPriority(Filter(q, rules), p);
      forall r: Rule ensures AppliesAt(names, action, findings, p)(r) == (AtPriority(p)(r) && q(r)) {
        MatchesIff(names, action, findings, r);
      }
      FilterTwice(AtPriority(p), q, AppliesAt(names, action, findings, p), rules);
    }
  }

  // ---------------------------------------------------------------- what is answered

  /** The transform steps, front to back. */
  function StepsInOrder(m: seq<Rule>): seq<TransformStep> {
    if m == [] then []
    else (if m[0].effect == Transform then m[0].entityTransforms else []) + StepsInOrder(m[1..])
  }

  lemma {:induction false} StepsJoin(m: seq<Rule>, r: Rule)
    ensures StepsInOrder(m + [r]) == StepsInOrder(m) + if r.effect == Transform then r.entityTransforms else []
  {
    if m == [] {
      assert (m + [r])[1..] == [];
    } else {
      assert (m + [r])[1..] == m[1..] + [r];
      StepsJoin(m[1..], r);
    }
  }

  lemma {:induction false} StepsFrontToBack(m: seq<Rule>)
    ensures Steps(m) == StepsInOrder(m)
  {
    if m != [] {
      var n := |m| - 1;
      assert m == m[..n] + [m[n]];
      StepsFrontToBack(m[..n]);
      StepsJoin(m[..n], m[n]);
    }
  }

  predicate Some(m: seq<Rule>, effect: Decision) { exists i :: 0 <= i < |m| && m[i].effect == effect }

  predicate FirstDescribed(m: seq<Rule>, k: nat) {
    && k < |m| && m[k].effect == Deny && m[k].description != ""
    && forall j :: 0 <= j < k && m[j].effect == Deny ==> m[j].description == ""
  }

  /** The answer of an evaluation, given the rules that apply in order: their ids, the strongest effect, the steps
      of the transform rules or the default ones, and the reason of a denial. */
  ghost predicate AnswerFrom(m: seq<Rule>, res: DecisionResult) {
    && |res.matchedRules| == |m| && (forall i :: 0 <= i < |m| ==> res.matchedRules[i] == m[i].id)
    && res.decision == (if Some(m, Deny) then Deny else if Some(m, Transform) then Transform
                        else if Some(m, AllowWithRedaction) then AllowWithRedaction
                        else if |m| > 0 then Allow else Deny)
    && res.transformPlan == (match res.decision
                             case Transform => if StepsInOrder(m) == [] then DEFAULT_TRANSFORMS else StepsInOrder(m)
                             case AllowWithRedaction => DEFAULT_TRANSFORMS
                             case _ => [])
    && (res.decision != Deny ==> res.reason == "")
    && (|m| == 0 ==> res.reason == "no matching rule")
    && (|m| > 0 && res.decision == Deny ==> ReasonFrom(m, res.reason))
  }

  /** The reason is the description of the first deny rule that has one, and empty when none has. */
  ghost predicate ReasonFrom(m: seq<Rule>, reason: string) {
    && (forall k: nat :: FirstDescribed(m, k) ==> reason == m[k].description)
    && ((forall k: nat :: !FirstDescribed(m, k)) ==> reason == "")
  }

  lemma DenialReason(m: seq<Rule>)
    ensures ReasonFrom(m, DenyReason(m))
  {
    DenyReasonIsFirst(m);
    forall k: nat | FirstDescribed(m, k) ensures DenyReason(m) == m[k].description {
      assert m[k] in m;
      var n :| 0 <= n < |m| && m[n].effect == Deny && m[n].description != ""
               && DenyReason(m) == m[n].description
               && forall j :: 0 <= j < n && m[j].effect == Deny ==> m[j].description == "";
      assert n == k;
    }
    if DenyReason(m) != "" {
      var n: nat :| 0 <= n < |m| && m[n].effect == Deny && m[n].description != ""
               && forall j :: 0 <= j < n && m[j].effect == Deny ==> m[j].description == "";
      assert FirstDescribed(m, n);
    }
  }

  lemma SomeIff(m: seq<Rule>, effect: Decision)
    ensures HasEffect(m, effect) <==> Some(m, effect)
  {
  }

  lemma ConcludeAnswers(m: seq<Rule>)
    ensures AnswerFrom(m, Conclude(m))
  {
    SomeIff(m, Deny);
    SomeIff(m, Transform);
    SomeIff(m, AllowWithRedaction);
    StepsFrontToBack(m);
    DenialReason(m);
  }

  /** The whole evaluation: what is refused outright, and otherwise the answer given by the rules that apply,
      taken from the highest priority down and in policy order within a priority. */
  lemma EvaluationTold(names: Names, rules: seq<Rule>, action: ActionMeta, findings: seq<ScanFinding>)
    ensures var res := EvaluateSpec(names, rules, action, findings);
            if action.actionType == "" then res == DecisionResult(Deny, [], [], "action.type is required")
            else if |rules| == 0 then res == DecisionResult(Deny, [], [], "policy has no rules")
            else exists m :: ByPriority(names, rules, action, findings, m) && AnswerFrom(m, res)
  {
    var m := Matched(names, rules, action, findings);
    MatchedAfterSort(names, rules, action, TypesFound(names, findings));
    MatchedByPriority(names, rules, action, findings);
    ConcludeAnswers(m);
  }

  /** That list of rules is the only one of its kind, so the answer is fixed. */
  lemma {:induction false} ByPriorityUnique(names: Names, rules: seq<Rule>, action: ActionMeta,
                                            findings: seq<ScanFinding>, m1: seq<Rule>, m2: seq<Rule>)
    requires ByPriority(names, rules, action, findings, m1) && ByPriority(names, rules, action, findings, m2)
    ensures m1 == m2
  {
    PriorityOrder();
    forall x ensures Ties(HigherPriority, x, m1) == Ties(HigherPriority, x, m2) {
      FilterSame(AtPriority(x.priority), y => Tied(HigherPriority, x, y), m1);
      FilterSame(AtPriority(x.priority), y => Tied(HigherPriority, x, y), m2);
    }
    StableSortUnique(HigherPriority, m1, m2);
  }

  /** The default plan removes keys, cards and people, gives phone numbers and social security numbers stand-ins
      and masks the other six types. */
  lemma DefaultPlanModes(s: TransformStep)
    ensures s in DEFAULT_TRANSFORMS <==>
              || (s.mode == Redact && s.entityType in ["api_key", "credit_card", "person"])
              || (s.mode == Tokenize && s.entityType == "phone")
              || (s.mode == Anonymize && s.entityType == "ssn")
              || (s.mode == Mask
                  && s.entityType in ["email", "ip_address", "date", "zip_code", "organization", "location"])
  {
  }
}
