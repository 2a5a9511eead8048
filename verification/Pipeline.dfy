/** Detect, decide, enforce: the decision endpoint and the gate together. */
module Pipeline {
  import opened Utf8
  import opened Models
  import opened StableSort
  import opened Splice
  import opened Transform
  import opened Enforcer
  import Detector
  import Hiding
  import Overlaps
  import Policy
  import Rewriting
  import Survival

  // ---------------------------------------------------------------- the decision endpoint

  /** The policy rules as loaded, with the names and detectors the service uses. */
  datatype Service = Service(names: Policy.Names, rules: seq<Rule>, scanner: Detector.Scanner)

  function FindingsOf(scanner: Detector.Scanner, req: DecideRequest): seq<ScanFinding> {
    if req.findings == [] && req.text != [] then Detector.ScanSpec(scanner, req.text, {}) else req.findings
  }

  function ResultFor(svc: Service, req: DecideRequest): Policy.DecisionResult {
    Policy.EvaluateSpec(svc.names, svc.rules, req.action, FindingsOf(svc.scanner, req))
  }

  const TYPE_REQUIRED := "action.type is required"
  const ACTION_ERROR := "unable to hash action"
  const INPUT_ERROR := "unable to hash request input"
  const RECEIPT_ERROR := "unable to persist receipt"

  /** How making and saving the receipt of a decision comes out. */
  datatype Filing = ActionNotHashed | InputNotHashed | NotSaved | Saved(receiptID: string)

  /** The reply to a request without an idempotency key, which is all the gate ever sends. */
  function Decide(svc: Service, req: DecideRequest, filing: Filing): Check {
    if req.action.actionType == "" then CheckFailed(TYPE_REQUIRED, NO_RESPONSE)
    else
      match filing
      case ActionNotHashed => CheckFailed(ACTION_ERROR, NO_RESPONSE)
      case InputNotHashed => CheckFailed(INPUT_ERROR, NO_RESPONSE)
      case NotSaved => CheckFailed(RECEIPT_ERROR, NO_RESPONSE)
      case Saved(id) =>
        var res := ResultFor(svc, req);
        Decided(DecideResponse(res.decision, id, res.matchedRules, res.transformPlan, res.reason))
  }

  /** The server sorts its rules once, when it starts, and evaluates every request against those. */
  class Server {
    const names: Policy.Names
    const scanner: Detector.Scanner
    const sorted: seq<Rule>
    ghost const rules: seq<Rule>

    ghost predicate Valid() { sorted == Policy.Normalized(rules) }

    ghost function Provides(): Service { Service(names, rules, scanner) }

    constructor (names: Policy.Names, rules: seq<Rule>, scanner: Detector.Scanner)
      ensures Valid() && Provides() == Service(names, rules, scanner)
    {
      this.names, this.scanner, this.rules := names, scanner, rules;
      var s := Policy.NormalizeForEvaluation(rules);
      sorted := s;
    }

    method HandleDecide(req: DecideRequest, filing: Filing) returns (reply: Check)
      requires Valid()
      ensures reply == Decide(Provides(), req, filing)
    {
      if req.action.actionType == "" {
        return CheckFailed(TYPE_REQUIRED, NO_RESPONSE);
      }
      var findings := req.findings;
      if |findings| == 0 && req.text != [] {
        findings := Detector.ScanText(scanner, req.text, {});
      }
      var res := Policy.EvaluateSorted(names, sorted, req.action, findings);
      if filing == ActionNotHashed {
        return CheckFailed(ACTION_ERROR, NO_RESPONSE);
      }
      if filing == InputNotHashed {
        return CheckFailed(INPUT_ERROR, NO_RESPONSE);
      }
      if filing == NotSaved {
        return CheckFailed(RECEIPT_ERROR, NO_RESPONSE);
      }
      return Decided(DecideResponse(res.decision, filing.receiptID, res.matchedRules, res.transformPlan, res.reason));
    }
  }

  /** The reply, told: what fails is answered with its error and an empty response, and the rest with the evaluation
      of the given findings, or of a scan of the text when none are given, under the id of the saved receipt. */
  lemma ReplyTold(svc: Service, req: DecideRequest, filing: Filing)
    ensures var reply := Decide(svc, req, filing);
            var findings := if |req.findings| > 0 then req.findings
                            else if |req.text| > 0 then Detector.ScanSpec(svc.scanner, req.text, {}) else [];
            var res := Policy.EvaluateSpec(svc.names, svc.rules, req.action, findings);
            if req.action.actionType != "" && filing.Saved? then
              && reply.Decided? && reply.response.receiptID == filing.receiptID
              && reply.response.decision == res.decision && reply.response.matchedRules == res.matchedRules
              && reply.response.transformPlan == res.transformPlan && reply.response.reason == res.reason
            else
              && reply.CheckFailed?
              && reply.response == DecideResponse(OtherDecision(""), "", [], [], "")
              && reply.error == (if req.action.actionType == "" then "action.type is required"
                                 else match filing
                                      case ActionNotHashed => "unable to hash action"
                                      case InputNotHashed => "unable to hash request input"
                                      case _ => "unable to persist receipt")
  {
  }

  // ---------------------------------------------------------------- the default plan

  function DefaultModes(): Modes { ModeMap(Policy.DEFAULT_TRANSFORMS) }

  function TypesIn(steps: seq<TransformStep>): set<string> { set s | s in steps :: s.entityType }

  lemma {:induction false} ModeMapKeys(steps: seq<TransformStep>)
    ensures ModeMap(steps).Keys == TypesIn(steps)
  {
    if steps != [] {
      var n := |steps| - 1;
      ModeMapKeys(steps[..n]);
      assert steps == steps[..n] + [steps[n]];
    }
  }

  lemma ElevenTypes(s: seq<TransformStep>)
    requires |s| == 11
    ensures TypesIn(s) == {s[0].entityType, s[1].entityType, s[2].entityType, s[3].entityType, s[4].entityType,
                           s[5].entityType, s[6].entityType, s[7].entityType, s[8].entityType, s[9].entityType,
                           s[10].entityType}
  {
    assert s == [s[0], s[1], s[2], s[3], s[4], s[5], s[6], s[7], s[8], s[9], s[10]];
  }

  /** The default plan rewrites exactly the default entity types. */
  lemma DefaultPlanCovers()
    ensures DefaultModes().Keys == Policy.DEFAULT_TYPES
  {
    ModeMapKeys(Policy.DEFAULT_TRANSFORMS);
    ElevenTypes(Policy.DEFAULT_TRANSFORMS);
  }

  lemma {:induction false} LastStepWins(steps: seq<TransformStep>, k: nat)
    requires k < |steps| && forall j :: k < j < |steps| ==> steps[j].entityType != steps[k].entityType
    ensures steps[k].entityType in ModeMap(steps) && ModeMap(steps)[steps[k].entityType] == steps[k].mode
  {
    var n := |steps| - 1;
    if k < n {
      assert steps[..n][k] == steps[k];
      LastStepWins(steps[..n], k);
    }
  }

  lemma DefaultPhone()
    ensures "phone" in DefaultModes() && DefaultModes()["phone"] == Tokenize
  {
    var s := Policy.DEFAULT_TRANSFORMS;
    assert s[1].entityType == "phone" && "phone"[0] == 'p' && |"phone"| == 5 && |s[8].entityType| == 6;
    assert s[2].entityType[0] == 's' && s[3].entityType[0] == 'a' && s[4].entityType[0] == 'c';
    assert s[5].entityType[0] == 'i' && s[6].entityType[0] == 'd' && s[7].entityType[0] == 'z';
    assert s[9].entityType[0] == 'o' && s[10].entityType[0] == 'l';
    LastStepWins(s, 1);
  }

  lemma DefaultKey()
    ensures "api_key" in DefaultModes() && DefaultModes()["api_key"] == Redact
  {
    var s := Policy.DEFAULT_TRANSFORMS;
    assert s[3].entityType == "api_key" && "api_key"[0] == 'a' && s[4].entityType[0] == 'c';
    assert s[5].entityType[0] == 'i' && s[6].entityType[0] == 'd' && s[7].entityType[0] == 'z';
    assert s[8].entityType[0] == 'p' && s[9].entityType[0] == 'o' && s[10].entityType[0] == 'l';
    LastStepWins(s, 3);
  }

  lemma DefaultCard()
    ensures "credit_card" in DefaultModes() && DefaultModes()["credit_card"] == Redact
  {
    var s := Policy.DEFAULT_TRANSFORMS;
    assert s[4].entityType == "credit_card" && "credit_card"[0] == 'c' && s[5].entityType[0] == 'i';
    assert s[6].entityType[0] == 'd' && s[7].entityType[0] == 'z' && s[8].entityType[0] == 'p';
    assert s[9].entityType[0] == 'o' && s[10].entityType[0] == 'l';
    LastStepWins(s, 4);
  }

  predicate OfDefaultType(f: ScanFinding) { f.entityType in Policy.DEFAULT_TYPES }

  /** Everything a scan reports is of a default type, so the default plan rewrites all of it. */
  lemma DefaultPlanTakesAll(scanner: Detector.Scanner, text: Bytes, requested: set<string>)
    ensures Planned(DefaultModes(), Detector.ScanSpec(scanner, text, requested))
         == Detector.ScanSpec(scanner, text, requested)
  {
    var scan := Detector.ScanSpec(scanner, text, requested);
    DefaultPlanCovers();
    forall f | f in scan ensures PlannedBy(DefaultModes())(f) {
      ScannedType(scanner, text, requested, f);
    }
    FilterUniform(PlannedBy(DefaultModes()), scan, true);
  }

  lemma ScannedType(scanner: Detector.Scanner, text: Bytes, requested: set<string>, f: ScanFinding)
    requires f in Detector.ScanSpec(scanner, text, requested)
    ensures OfDefaultType(f)
  {
    if f in Detector.MatchedTypes(scanner.engine, text, requested, Detector.SCAN_TYPES) {
      Detector.MatchedTypesTypes(scanner.engine, text, requested, Detector.SCAN_TYPES, f);
      var ts := Detector.SCAN_TYPES;
      assert ts == [ts[0], ts[1], ts[2], ts[3], ts[4], ts[5], ts[6], ts[7]];
    } else {
      Detector.NerTypes(scanner, text, requested, f);
    }
  }

  // ---------------------------------------------------------------- when a scan is disjoint

  /** Any two findings are of one type, or both names. */
  ghost predicate OneKind(findings: seq<ScanFinding>) {
    forall f, g :: f in findings && g in findings ==>
      f.entityType == g.entityType || (Detector.IsNerType(f.entityType) && Detector.IsNerType(g.entityType))
  }

  /** A scan of a valid text that found one kind of thing is disjoint, and so is every plan's selection of it. */
  lemma OneKindIsDisjoint(scanner: Detector.Scanner, text: Bytes, requested: set<string>)
    requires Valid(text) && OneKind(Detector.ScanSpec(scanner, text, requested))
    ensures Disjoint(Detector.ScanSpec(scanner, text, requested))
  {
    var scan := Detector.ScanSpec(scanner, text, requested);
    forall i, j | 0 <= i < j < |scan| && Proper(scan[i]) && Proper(scan[j]) ensures Apart(scan[i], scan[j]) {
      assert scan[i] in scan && scan[j] in scan;
      Detector.OverlapOnlyAcrossTypes(scanner, text, requested, i, j);
    }
  }

  // ---------------------------------------------------------------- end to end

  function WriteRequest(path: string, text: Bytes, findings: seq<ScanFinding>, sensitive: bool): DecideRequest {
    DecideRequest(ActionMeta("file.write", "fs", path, "", [], sensitive), text, findings)
  }

  predicate SomeMatch(svc: Service, req: DecideRequest, effect: Decision) {
    exists r :: r in svc.rules && r.effect == effect
                && Policy.Matches(svc.names, req.action, Policy.TypesFound(svc.names, FindingsOf(svc.scanner, req)), r)
  }

  /** No rule stands in the way and some rule lets the action through. */
  predicate Cleared(svc: Service, req: DecideRequest) {
    && !SomeMatch(svc, req, Deny) && !SomeMatch(svc, req, Transform)
    && (SomeMatch(svc, req, AllowWithRedaction) || SomeMatch(svc, req, Allow))
  }

  /** The decision read off the policy rule by rule. */
  lemma DecisionByRules(svc: Service, req: DecideRequest)
    requires req.action.actionType != ""
    ensures ResultFor(svc, req).decision ==
      if SomeMatch(svc, req, Deny) then Deny
      else if SomeMatch(svc, req, Transform) then Transform
      else if SomeMatch(svc, req, AllowWithRedaction) then AllowWithRedaction
      else if SomeMatch(svc, req, Allow) then Allow
      else Deny
  {
    var findings := FindingsOf(svc.scanner, req);
    var found := Policy.TypesFound(svc.names, findings);
    Policy.StrongestEffectWins(svc.names, svc.rules, req.action, findings);
    forall r | r in svc.rules && Policy.Matches(svc.names, req.action, found, r) ensures SomeMatch(svc, req, r.effect) {
    }
  }

  /** An enforced write, decided by the service, reaches the file exactly when the receipt was
      saved and the policy clears it. Then the file gets the data itself, or, if a matching rule
      asks for redaction, the data rewritten by the default plan and no other. */
  lemma EnforcedWrite(g: Config, svc: Service, path: string, data: Bytes, text: Bytes,
                      findings: seq<ScanFinding>, sensitive: bool, filing: Filing)
    requires g.mode == Enforced
    ensures var req := WriteRequest(path, text, findings, sensitive);
            var block := Block(g, Write(path, data, findings, sensitive, Decide(svc, req, filing)));
            var through := filing.Saved? && Cleared(svc, req);
            && block[0].Recorded? && block[0].event.allowed == through
            && block[1..] == if !through then []
                 else [Performed(WritePath(path,
                         if SomeMatch(svc, req, AllowWithRedaction)
                         then Redacted(g.kit, data, Policy.DEFAULT_TRANSFORMS, findings) else data))]
  {
    var req := WriteRequest(path, text, findings, sensitive);
    DecisionByRules(svc, req);
    Policy.RedactionPlanIsDefault(svc.names, svc.rules, req.action, FindingsOf(svc.scanner, req));
  }

  function ReadRequest(path: string, text: Bytes, findings: seq<ScanFinding>, sensitive: bool): DecideRequest {
    DecideRequest(ActionMeta("file.read", "fs", path, "", [], sensitive), text, findings)
  }

  /** An enforced read shows the caller the file under the same condition, redacted by scanning
      what was read if a matching rule asks for it, and otherwise shows nothing. */
  lemma EnforcedRead(g: Config, svc: Service, path: string, content: Bytes, text: Bytes,
                     findings: seq<ScanFinding>, sensitive: bool, filing: Filing)
    requires g.mode == Enforced
    ensures var req := ReadRequest(path, text, findings, sensitive);
            var check := Decide(svc, req, filing);
            var r := Judge(g.mode, g.enforceErrors, check);
            var answer := Answer(r, check, ReadOutcome(g.kit, r.response, Succeeded(content)));
            if !(filing.Saved? && Cleared(svc, req)) then answer.1 == None && answer.2.Some?
            else && answer.2 == None
                 && answer.1 == Some(if SomeMatch(svc, req, AllowWithRedaction)
                                     then Redacted(g.kit, content, Policy.DEFAULT_TRANSFORMS, []) else content)
  {
    var req := ReadRequest(path, text, findings, sensitive);
    DecisionByRules(svc, req);
    Policy.RedactionPlanIsDefault(svc.names, svc.rules, req.action, FindingsOf(svc.scanner, req));
  }

  /** What the default plan rewrites: the findings in range of any of the eleven types. */
  lemma DefaultSpans(data: Bytes, fs: seq<ScanFinding>, f: ScanFinding)
    ensures f in Rewriting.EffectiveSet(DefaultModes(), data, fs) <==> f in fs && Fits(f, |data|) && OfDefaultType(f)
  {
    DefaultPlanCovers();
    FilterElements(PlannedBy(DefaultModes()), fs);
  }

  lemma RedactedPass(kit: Toolkit, data: Bytes, given: seq<ScanFinding>)
    requires Disjoint(Planned(DefaultModes(), FindingsFor(kit, data, given)))
    ensures Redacted(kit, data, Policy.DEFAULT_TRANSFORMS, given)
         == OnePass(Rewrites(kit.library, DefaultModes()), data, 0,
                    Rewriting.EffectiveSet(DefaultModes(), data, FindingsFor(kit, data, given)))
  {
    Rewriting.TransformIsOnePass(kit.library, DefaultModes(), data, FindingsFor(kit, data, given));
  }

  /** What a redacted write stores: when the planned findings are disjoint, one pass over the
      data that replaces every one of them in range, of whichever of the eleven types. */
  lemma RedactedIsOnePass(kit: Toolkit, data: Bytes, given: seq<ScanFinding>)
    requires Disjoint(Planned(DefaultModes(), FindingsFor(kit, data, given)))
    ensures var fs := FindingsFor(kit, data, given);
            Redacted(kit, data, Policy.DEFAULT_TRANSFORMS, given)
              == OnePass(Rewrites(kit.library, DefaultModes()), data, 0,
                         Rewriting.EffectiveSet(DefaultModes(), data, fs))
    ensures forall f :: f in Rewriting.EffectiveSet(DefaultModes(), data, FindingsFor(kit, data, given))
              <==> f in FindingsFor(kit, data, given) && Fits(f, |data|) && OfDefaultType(f)
  {
    var fs := FindingsFor(kit, data, given);
    RedactedPass(kit, data, given);
    forall f
      ensures f in Rewriting.EffectiveSet(DefaultModes(), data, fs) <==> f in fs && Fits(f, |data|) && OfDefaultType(f)
    {
      DefaultSpans(data, fs, f);
    }
  }

  ghost function SpansIn(data: Bytes, fs: seq<ScanFinding>): (spans: set<ScanFinding>)
    ensures AllFit(data, spans)
  {
    set f | f in fs && Fits(f, |data|)
  }

  lemma ScannedEffective(scanner: Detector.Scanner, data: Bytes)
    ensures var scan := Detector.ScanSpec(scanner, data, {});
            Rewriting.EffectiveSet(DefaultModes(), data, scan) == SpansIn(data, scan)
  {
    DefaultPlanTakesAll(scanner, data, {});
  }

  /** In a valid text every finding of a scan that is not empty is in range. */
  lemma ValidScanFits(scanner: Detector.Scanner, data: Bytes)
    requires Valid(data)
    ensures forall f :: f in Detector.ScanSpec(scanner, data, {}) && f.start < f.end ==> Fits(f, |data|)
  {
    forall f | f in Detector.ScanSpec(scanner, data, {}) && f.start < f.end ensures Fits(f, |data|) {
      Detector.ScanSound(scanner, data, {}, f);
    }
  }

  /** Left to the detector, a scan without overlaps is rewritten in one pass, every finding in
      range included. */
  lemma ScannedRedaction(kit: Toolkit, data: Bytes)
    requires Disjoint(Detector.ScanSpec(kit.scanner, data, {}))
    ensures Redacted(kit, data, Policy.DEFAULT_TRANSFORMS, [])
         == OnePass(Rewrites(kit.library, DefaultModes()), data, 0,
                    SpansIn(data, Detector.ScanSpec(kit.scanner, data, {})))
  {
    var scan := Detector.ScanSpec(kit.scanner, data, {});
    DefaultPlanTakesAll(kit.scanner, data, {});
    ScannedEffective(kit.scanner, data);
    Rewriting.TransformIsOnePass(kit.library, DefaultModes(), data, scan);
  }

  /** In particular when the detector finds one kind of thing in a valid text. */
  lemma OneKindRedaction(kit: Toolkit, data: Bytes)
    requires Valid(data) && OneKind(Detector.ScanSpec(kit.scanner, data, {}))
    ensures var spans := set f | f in Detector.ScanSpec(kit.scanner, data, {}) && f.start < f.end;
            && AllFit(data, spans)
            && Redacted(kit, data, Policy.DEFAULT_TRANSFORMS, [])
               == OnePass(Rewrites(kit.library, DefaultModes()), data, 0, spans)
  {
    var scan := Detector.ScanSpec(kit.scanner, data, {});
    OneKindIsDisjoint(kit.scanner, data, {});
    ScannedRedaction(kit, data);
    ValidScanFits(kit.scanner, data);
    assert SpansIn(data, scan) == set f | f in scan && f.start < f.end;
  }

  /** Overlapping findings of two types: of a 26-byte key that contains an 11-byte phone number,
      redaction by the default plan stores the last byte. */
  lemma KeyTailStored(kit: Toolkit, data: Bytes)
    requires |data| == 26
    ensures Redacted(kit, data, Policy.DEFAULT_TRANSFORMS, [Survival.KeyFinding(data), Survival.PhoneFinding(data)])
         == Encode("[REDACTED]") + [data[25]]
  {
    DefaultKey();
    DefaultPhone();
    Survival.KeyTailSurvives(kit.library, DefaultModes(), data);
  }

  /** Of a 22-byte key that ends in a 16-byte card number, redaction by the default plan stores the
      first six bytes. */
  lemma KeyHeadStored(kit: Toolkit, data: Bytes)
    requires |data| == 22
    ensures Redacted(kit, data, Policy.DEFAULT_TRANSFORMS, [Survival.LongKeyFinding(data), Survival.CardFinding(data)])
         == data[..6] + Encode("[REDACTED]")
  {
    DefaultKey();
    DefaultCard();
    Survival.CardDropsKey(kit.library, DefaultModes(), data);
  }

  /** Redaction by the default plan of a card number that starts with a phone number stores the token
      of the phone number and nothing else. */
  lemma CardTokenStored(kit: Toolkit, data: Bytes)
    requires |data| == 16
    ensures Redacted(kit, data, Policy.DEFAULT_TRANSFORMS, [Overlaps.CardFinding(data), Overlaps.PhoneFinding(data)])
         == Encode("TOK-" + kit.library.digest(data[..10])[..8])
  {
    DefaultCard();
    DefaultPhone();
    var findings := [Overlaps.CardFinding(data), Overlaps.PhoneFinding(data)];
    Overlaps.CardAndPhone(kit.library, DefaultModes(), data, findings);
  }

  /** Two data with findings that look the same to the default plan, and the same outside them. */
  ghost predicate Indistinct(kit: Toolkit, data1: Bytes, fs1: seq<ScanFinding>, data2: Bytes, fs2: seq<ScanFinding>) {
    && Hiding.AllAlike(kit.library, DefaultModes(), fs1, fs2)
    && Disjoint(Planned(DefaultModes(), fs1))
    && Hiding.AgreeOutside(data1, data2, Rewriting.EffectiveSet(DefaultModes(), data1, fs1))
  }

  /** What redaction makes of data, with findings given or left to the detector, does not depend on
      the values redacted beyond what the default modes show of them. */
  lemma RedactedWriteHides(kit: Toolkit, data1: Bytes, given1: seq<ScanFinding>, data2: Bytes, given2: seq<ScanFinding>)
    requires Indistinct(kit, data1, FindingsFor(kit, data1, given1), data2, FindingsFor(kit, data2, given2))
    ensures Redacted(kit, data1, Policy.DEFAULT_TRANSFORMS, given1)
         == Redacted(kit, data2, Policy.DEFAULT_TRANSFORMS, given2)
  {
    Hiding.OutputHidesValues(kit.library, DefaultModes(), data1, FindingsFor(kit, data1, given1),
                             data2, FindingsFor(kit, data2, given2));
  }

  /** An enforced read that a matching rule wants redacted shows the same for two such contents. */
  lemma RedactedReadHides(g: Config, svc: Service, path: string, content1: Bytes, content2: Bytes, text: Bytes,
                          findings: seq<ScanFinding>, sensitive: bool, filing: Filing)
    requires SomeMatch(svc, ReadRequest(path, text, findings, sensitive), AllowWithRedaction) && g.mode == Enforced
    requires Indistinct(g.kit, content1, Detector.ScanSpec(g.kit.scanner, content1, {}),
                        content2, Detector.ScanSpec(g.kit.scanner, content2, {}))
    ensures var check := Decide(svc, ReadRequest(path, text, findings, sensitive), filing);
            var r := Judge(g.mode, g.enforceErrors, check);
            Answer(r, check, ReadOutcome(g.kit, r.response, Succeeded(content1)))
              == Answer(r, check, ReadOutcome(g.kit, r.response, Succeeded(content2)))
  {
    var check := Decide(svc, ReadRequest(path, text, findings, sensitive), filing);
    EnforcedRead(g, svc, path, content1, text, findings, sensitive, filing);
    EnforcedRead(g, svc, path, content2, text, findings, sensitive, filing);
    RedactedWriteHides(g.kit, content1, [], content2, []);
  }
}
