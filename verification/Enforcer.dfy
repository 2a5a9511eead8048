/** The gate in front of commands and file accesses: it asks for a decision, records what
    it decided, and only then performs the action or not. */
module Enforcer {
  import opened Utf8
  import opened Models
  import opened StableSort
  import opened Transform
  import Detector

  datatype Mode = Unset | Enforced | Observe | OtherMode(name: string)

  /** The policy service either decides or fails; a failure may still carry a response. */
  datatype Check = Decided(response: DecideResponse) | CheckFailed(error: string, response: DecideResponse)

  datatype Event = Event(mode: Mode, action: ActionMeta, decision: Decision, allowed: bool, receiptID: string,
                         matched: seq<string>, reason: string, checkError: string)

  datatype Effect =
    | RunCommand(command: string, args: seq<string>)
    | ReadPath(path: string)
    | WritePath(path: string, data: Bytes)

  /** What the world sees of the gate, in order. */
  datatype Item = Recorded(event: Event) | Performed(effect: Effect)

  datatype Failure = NotConfigured | MissingAdapter | MissingTarget | Refused(response: DecideResponse)
    | Unavailable(error: string) | EffectFailed

  /** How an effect comes out once it is attempted; a failure may leave partial output. */
  datatype Outcome = Succeeded(output: Bytes) | Failed(partial: Option<Bytes>)

  // ---------------------------------------------------------------- the ruling

  predicate Permits(decision: Decision) { decision == Allow || decision == AllowWithRedaction }

  datatype Ruling = Ruling(response: DecideResponse, allowed: bool, checkError: string)

  predicate BlocksOnError(mode: Mode, enforceErrors: bool) { mode == Enforced || enforceErrors }

  function Judge(mode: Mode, enforceErrors: bool, check: Check): Ruling {
    match check
    case CheckFailed(error, response) =>
      if BlocksOnError(mode, enforceErrors) then Ruling(response, false, error)
      else Ruling(DecideResponse(Allow, "", [], [], error), true, error)
    case Decided(response) => Ruling(response, Permits(response.decision) || mode == Observe, "")
  }

  function EventOf(mode: Mode, action: ActionMeta, r: Ruling): Event {
    Event(mode, action, r.response.decision, r.allowed, r.response.receiptID, r.response.matchedRules,
          r.response.reason, r.checkError)
  }

  /** What a caller gets back: the outcome of the effect, or the reason there was none. */
  function Answer(r: Ruling, check: Check, outcome: Outcome): (DecideResponse, Option<Bytes>, Option<Failure>) {
    if !r.allowed then
      (r.response, None, Some(if check.CheckFailed? then Unavailable(check.error) else Refused(check.response)))
    else match outcome
      case Succeeded(output) => (r.response, Some(output), None)
      case Failed(partial) => (r.response, partial, Some(EffectFailed))
  }

  const NO_RESPONSE := DecideResponse(OtherDecision(""), "", [], [], "")

  // ---------------------------------------------------------------- redaction

  /** The detectors and replacement functions behind redaction. */
  datatype Toolkit = Toolkit(scanner: Detector.Scanner, library: Library)

  function FindingsFor(kit: Toolkit, data: Bytes, given: seq<ScanFinding>): seq<ScanFinding> {
    if given == [] then Detector.ScanSpec(kit.scanner, data, {}) else given
  }

  ghost function Redacted(kit: Toolkit, data: Bytes, plan: seq<TransformStep>, given: seq<ScanFinding>): Bytes {
    TransformSpec(kit.library, ModeMap(plan), data, FindingsFor(kit, data, given)).0
  }

  method ApplyRedaction(kit: Toolkit, data: Bytes, plan: seq<TransformStep>, given: seq<ScanFinding>)
    returns (out: Bytes)
    ensures out == Redacted(kit, data, plan, given)
  {
    var findings := given;
    if |findings| == 0 {
      findings := Detector.ScanText(kit.scanner, data, {});
    }
    if |findings| == 0 {
      NothingPlanned(kit.library, ModeMap(plan), data, findings);
      return data;
    }
    var stats;
    out, stats := ApplyTransforms(kit.library, data, findings, plan);
  }

  predicate Redacts(response: DecideResponse) {
    response.decision == AllowWithRedaction && response.transformPlan != []
  }

  /** What an allowed write stores of the data. */
  ghost function Stored(kit: Toolkit, response: DecideResponse, data: Bytes, findings: seq<ScanFinding>): Bytes {
    if Redacts(response) then Redacted(kit, data, response.transformPlan, findings) else data
  }

  /** What an allowed read shows of it: the detector supplies the findings. */
  ghost function Shown(kit: Toolkit, response: DecideResponse, data: Bytes): Bytes {
    Stored(kit, response, data, [])
  }

  ghost function ReadOutcome(kit: Toolkit, response: DecideResponse, outcome: Outcome): Outcome {
    if outcome.Succeeded? then Succeeded(Shown(kit, response, outcome.output)) else outcome
  }

  // ---------------------------------------------------------------- calls

  datatype Call =
    | Shell(command: string, args: seq<string>, sensitive: bool, check: Check)
    | Command(adapter: string, target: string, args: seq<string>, sensitive: bool, check: Check)
    | Read(path: string, sensitive: bool, check: Check)
    | Write(path: string, data: Bytes, findings: seq<ScanFinding>, sensitive: bool, check: Check)

  function ActionOf(c: Call): ActionMeta {
    match c
    case Shell(command, args, sensitive, _) => ActionMeta("shell.exec", "shell", command, command, args, sensitive)
    case Command(adapter, target, args, sensitive, _) =>
      ActionMeta("command.exec", adapter, target, if args == [] then "" else args[0], args, sensitive)
    case Read(path, sensitive, _) => ActionMeta("file.read", "fs", path, "", [], sensitive)
    case Write(path, _, _, sensitive, _) => ActionMeta("file.write", "fs", path, "", [], sensitive)
  }

  ghost function EffectOf(kit: Toolkit, c: Call, response: DecideResponse): Effect {
    match c
    case Shell(command, args, _, _) => RunCommand(command, args)
    case Command(_, target, args, _, _) => RunCommand(target, args)
    case Read(path, _, _) => ReadPath(path)
    case Write(path, data, findings, _, _) =>
      WritePath(path, Stored(kit, response, data, findings))
  }

  datatype Config = Config(kit: Toolkit, mode: Mode, enforceErrors: bool)

  /** What one call that passes its argument checks adds to the journal. */
  ghost function Block(g: Config, c: Call): seq<Item> {
    var r := Judge(g.mode, g.enforceErrors, c.check);
    [Recorded(EventOf(g.mode, ActionOf(c), r))]
    + if r.allowed then [Performed(EffectOf(g.kit, c, r.response))] else []
  }

  class Gate {
    const kit: Toolkit
    const hasRunner: bool
    const hasReader: bool
    const hasWriter: bool
    const enforceErrors: bool
    var mode: Mode
    var journal: seq<Item>

    ghost function Settings(): Config reads this { Config(kit, mode, enforceErrors) }

    /** An unknown mode is read as enforced; an empty one is left empty. */
    constructor (kit: Toolkit, mode: Mode, enforceErrors: bool, hasRunner: bool, hasReader: bool, hasWriter: bool)
      ensures Settings() == Config(kit, if mode.OtherMode? then Enforced else mode, enforceErrors)
      ensures this.hasRunner == hasRunner && this.hasReader == hasReader && this.hasWriter == hasWriter
      ensures journal == []
    {
      this.kit, this.enforceErrors := kit, enforceErrors;
      this.hasRunner, this.hasReader, this.hasWriter := hasRunner, hasReader, hasWriter;
      this.mode := match mode {
        case Unset => Unset
        case Enforced => Enforced
        case Observe => Observe
        case _ => Enforced
      };
      journal := [];
    }

    method PermitDecision(decision: Decision) returns (ok: bool)
      ensures ok == Permits(decision)
    {
      ok := match decision { case Allow => true case AllowWithRedaction => true case _ => false };
    }

    method ShouldAllow(decision: Decision) returns (ok: bool)
      ensures ok == (Permits(decision) || mode == Observe)
    {
      ok := PermitDecision(decision);
      if ok {
        return true;
      }
      return mode == Observe;
    }

    method RecordDecisionEvent(action: ActionMeta, response: DecideResponse, allowed: bool, checkError: string)
      modifies this`journal
      ensures journal == old(journal) + [Recorded(EventOf(mode, action, Ruling(response, allowed, checkError)))]
    {
      journal := journal + [Recorded(Event(mode, action, response.decision, allowed, response.receiptID,
                                           response.matchedRules, response.reason, checkError))];
    }

    /** Decide, record, then attempt the effect if it is allowed. */
    method ExecuteRequest(action: ActionMeta, check: Check, effect: Effect, outcome: Outcome)
      returns (response: DecideResponse, output: Option<Bytes>, failure: Option<Failure>)
      modifies this`journal
      ensures var r := Judge(mode, enforceErrors, check);
              && (response, output, failure) == Answer(r, check, outcome)
              && journal == old(journal) + [Recorded(EventOf(mode, action, r))]
                          + (if r.allowed then [Performed(effect)] else [])
    {
      match check {
        case CheckFailed(error, partial) =>
          if mode == Enforced || enforceErrors {
            RecordDecisionEvent(action, partial, false, error);
            return partial, None, Some(Unavailable(error));
          }
          var fallback := DecideResponse(Allow, "", [], [], error);
          RecordDecisionEvent(action, fallback, true, error);
          journal := journal + [Performed(effect)];
          response := fallback;
        case Decided(result) =>
          var ok := ShouldAllow(result.decision);
          if !ok {
            RecordDecisionEvent(action, result, false, "");
            return result, None, Some(Refused(result));
          }
          RecordDecisionEvent(action, result, true, "");
          journal := journal + [Performed(effect)];
          response := result;
      }
      match outcome {
        case Succeeded(out) => output, failure := Some(out), None;
        case Failed(partial) => output, failure := partial, Some(EffectFailed);
      }
    }

    method ExecuteShell(command: string, args: seq<string>, sensitive: bool, check: Check, outcome: Outcome)
      returns (response: DecideResponse, output: Option<Bytes>, failure: Option<Failure>)
      modifies this`journal
      ensures hasRunner ==>
                && journal == old(journal) + Block(Settings(), Shell(command, args, sensitive, check))
                && (response, output, failure) == Answer(Judge(mode, enforceErrors, check), check, outcome)
      ensures !hasRunner ==> journal == old(journal)
      ensures !hasRunner ==> (response, output, failure) == (NO_RESPONSE, None, Some(NotConfigured))
    {
      if !hasRunner {
        return NO_RESPONSE, None, Some(NotConfigured);
      }
      var action := ActionMeta("shell.exec", "shell", command, command, args, sensitive);
      response, output, failure := ExecuteRequest(action, check, RunCommand(command, args), outcome);
    }

    method ExecuteCommand(adapter: string, target: string, args: seq<string>, sensitive: bool, check: Check,
                          outcome: Outcome)
      returns (response: DecideResponse, output: Option<Bytes>, failure: Option<Failure>)
      modifies this`journal
      ensures hasRunner && adapter != "" && target != "" ==>
                && journal == old(journal) + Block(Settings(), Command(adapter, target, args, sensitive, check))
                && (response, output, failure) == Answer(Judge(mode, enforceErrors, check), check, outcome)
      ensures !hasRunner || adapter == "" || target == "" ==>
                && journal == old(journal) && response == NO_RESPONSE && output == None
                && failure == Some(if !hasRunner then NotConfigured
                                   else if adapter == "" then MissingAdapter else MissingTarget)
    {
      if !hasRunner {
        return NO_RESPONSE, None, Some(NotConfigured);
      }
      if adapter == "" {
        return NO_RESPONSE, None, Some(MissingAdapter);
      }
      if target == "" {
        return NO_RESPONSE, None, Some(MissingTarget);
      }
      var action := ActionMeta("command.exec", adapter, target, "", [], sensitive);
      if |args| > 0 {
        action := action.(command := args[0], args := args);
      }
      response, output, failure := ExecuteRequest(action, check, RunCommand(target, args), outcome);
    }

    /** What was read is redacted by scanning it when the decision asks for that. */
    method ReadFile(path: string, sensitive: bool, check: Check, outcome: Outcome)
      returns (response: DecideResponse, output: Option<Bytes>, failure: Option<Failure>)
      modifies this`journal
      ensures hasReader ==>
                var r := Judge(mode, enforceErrors, check);
                && journal == old(journal) + Block(Settings(), Read(path, sensitive, check))
                && (response, output, failure) == Answer(r, check, ReadOutcome(kit, r.response, outcome))
      ensures !hasReader ==> journal == old(journal)
      ensures !hasReader ==> (response, output, failure) == (NO_RESPONSE, None, Some(NotConfigured))
    {
      if !hasReader {
        return NO_RESPONSE, None, Some(NotConfigured);
      }
      var action := ActionMeta("file.read", "fs", path, "", [], sensitive);
      response, output, failure := ExecuteRequest(action, check, ReadPath(path), outcome);
      if failure.Some? {
        return;
      }
      output := RedactOutput(response, output);
    }

    method RedactOutput(response: DecideResponse, output: Option<Bytes>) returns (shown: Option<Bytes>)
      ensures shown == match output case None => None case Some(data) => Some(Shown(kit, response, data))
    {
      shown := output;
      if response.decision == AllowWithRedaction && |response.transformPlan| > 0 && output.Some? {
        var redacted := ApplyRedaction(kit, output.value, response.transformPlan, []);
        shown := Some(redacted);
      }
    }

    method WriteFile(path: string, data: Bytes, findings: seq<ScanFinding>, sensitive: bool, check: Check,
                     outcome: Outcome)
      returns (response: DecideResponse, failure: Option<Failure>)
      modifies this`journal
      ensures hasWriter ==>
                var answer := Answer(Judge(mode, enforceErrors, check), check, outcome);
                && journal == old(journal) + Block(Settings(), Write(path, data, findings, sensitive, check))
                && response == answer.0 && failure == answer.2
      ensures !hasWriter ==> journal == old(journal) && response == NO_RESPONSE && failure == Some(NotConfigured)
    {
      if !hasWriter {
        return NO_RESPONSE, Some(NotConfigured);
      }
      var action := ActionMeta("file.write", "fs", path, "", [], sensitive);
      match check {
        case CheckFailed(error, partial) =>
          response, failure := WriteUndecided(action, path, data, error, partial, outcome);
        case Decided(result) =>
          response, failure := WriteDecided(action, path, data, findings, result, outcome);
      }
    }

    method WriteUndecided(action: ActionMeta, path: string, data: Bytes, error: string, partial: DecideResponse,
                          outcome: Outcome)
      returns (response: DecideResponse, failure: Option<Failure>)
      modifies this`journal
      ensures var check := CheckFailed(error, partial);
              var r := Judge(mode, enforceErrors, check);
              && journal == old(journal) + [Recorded(EventOf(mode, action, r))]
                          + (if r.allowed then [Performed(WritePath(path, data))] else [])
              && response == r.response && failure == Answer(r, check, outcome).2
    {
      if mode == Enforced || enforceErrors {
        RecordDecisionEvent(action, partial, false, error);
        return partial, Some(Unavailable(error));
      }
      response := DecideResponse(Allow, "", [], [], error);
      RecordAndWrite(action, response, error, path, data);
      failure := if outcome.Succeeded? then None else Some(EffectFailed);
    }

    method WriteDecided(action: ActionMeta, path: string, data: Bytes, findings: seq<ScanFinding>,
                        result: DecideResponse, outcome: Outcome)
      returns (response: DecideResponse, failure: Option<Failure>)
      modifies this`journal
      ensures var r := Judge(mode, enforceErrors, Decided(result));
              var effect := WritePath(path, Stored(kit, result, data, findings));
              && journal == old(journal) + [Recorded(EventOf(mode, action, r))]
                          + (if r.allowed then [Performed(effect)] else [])
              && response == r.response && failure == Answer(r, Decided(result), outcome).2
    {
      var ok := ShouldAllow(result.decision);
      if !ok {
        RecordDecisionEvent(action, result, false, "");
        return result, Some(Refused(result));
      }
      var writeData := data;
      if result.decision == AllowWithRedaction && |result.transformPlan| > 0 {
        writeData := ApplyRedaction(kit, data, result.transformPlan, findings);
      }
      RecordAndWrite(action, result, "", path, writeData);
      return result, if outcome.Succeeded? then None else Some(EffectFailed);
    }

    method RecordAndWrite(action: ActionMeta, response: DecideResponse, checkError: string, path: string, data: Bytes)
      modifies this`journal
      ensures journal == old(journal) + [Recorded(EventOf(mode, action, Ruling(response, true, checkError))),
                                         Performed(WritePath(path, data))]
    {
      RecordDecisionEvent(action, response, true, checkError);
      journal := journal + [Performed(WritePath(path, data))];
    }
  }

  // ---------------------------------------------------------------- runs

  /** The journal of a gate that has served these calls. */
  ghost function Journal(g: Config, calls: seq<Call>): seq<Item> {
    if calls == [] then [] else Journal(g, calls[..|calls| - 1]) + Block(g, calls[|calls| - 1])
  }

  predicate IsEvent(i: Item) { i.Recorded? }

  ghost function Events(items: seq<Item>): seq<Item> { Filter(IsEvent, items) }

  /** Every effect directly follows an event that allows it, and every event
      that allows an action is directly followed by its effect. */
  ghost predicate Paired(items: seq<Item>) {
    && (forall i :: 0 <= i < |items| && items[i].Performed? ==>
          i > 0 && items[i - 1].Recorded? && items[i - 1].event.allowed)
    && (forall i :: 0 <= i < |items| && items[i].Recorded? && items[i].event.allowed ==>
          i + 1 < |items| && items[i + 1].Performed?)
  }

  lemma PairedAppend(a: seq<Item>, b: seq<Item>)
    requires Paired(a) && Paired(b)
    ensures Paired(a + b)
  {
    var w := a + b;
    forall i | 0 <= i < |w| && w[i].Performed? ensures i > 0 && w[i - 1].Recorded? && w[i - 1].event.allowed {
      if i >= |a| {
        assert b[i - |a|].Performed?;
      }
    }
    forall i | 0 <= i < |w| && w[i].Recorded? && w[i].event.allowed ensures i + 1 < |w| && w[i + 1].Performed? {
      if i >= |a| {
        assert b[i - |a|].Recorded?;
      } else {
        assert a[i + 1].Performed?;
      }
    }
  }

  lemma BlockEvents(g: Config, c: Call)
    ensures Events(Block(g, c)) == [Block(g, c)[0]]
  {
    var b := Block(g, c);
    var rest := b[1..];
    assert IsEvent(b[0]);
    if |b| == 2 {
      assert rest == [b[1]] && rest[1..] == [] && !IsEvent(b[1]);
    } else {
      assert rest == [];
    }
    assert Filter(IsEvent, rest) == [];
  }

  function EventFor(g: Config, c: Call): Item {
    Recorded(EventOf(g.mode, ActionOf(c), Judge(g.mode, g.enforceErrors, c.check)))
  }

  lemma {:induction false} JournalIsPaired(g: Config, calls: seq<Call>)
    ensures Paired(Journal(g, calls))
  {
    if calls != [] {
      var front, last := calls[..|calls| - 1], calls[|calls| - 1];
      JournalIsPaired(g, front);
      PairedAppend(Journal(g, front), Block(g, last));
    }
  }

  /** In every run each call records exactly one event, in order, whatever came of it. */
  lemma {:induction false} OneEventPerCall(g: Config, calls: seq<Call>)
    ensures Events(Journal(g, calls)) == seq(|calls|, k requires 0 <= k < |calls| => EventFor(g, calls[k]))
  {
    if calls != [] {
      var front, last := calls[..|calls| - 1], calls[|calls| - 1];
      OneEventPerCall(g, front);
      FilterAppend(IsEvent, Journal(g, front), Block(g, last));
      BlockEvents(g, last);
      assert Events(Journal(g, calls)) == Events(Journal(g, front)) + [EventFor(g, last)];
    }
  }

  /** Whether a call gets as far as its effect. */
  predicate Attempts(g: Config, c: Call) { Judge(g.mode, g.enforceErrors, c.check).allowed }

  function Attempting(g: Config): Call -> bool { (c: Call) => Attempts(g, c) }

  ghost function EffectFor(g: Config, c: Call): Item {
    Performed(EffectOf(g.kit, c, Judge(g.mode, g.enforceErrors, c.check).response))
  }

  predicate IsEffect(i: Item) { i.Performed? }

  ghost function Effects(items: seq<Item>): seq<Item> { Filter(IsEffect, items) }

  lemma BlockEffects(g: Config, c: Call)
    ensures Effects(Block(g, c)) == if Attempts(g, c) then [EffectFor(g, c)] else []
  {
    var b := Block(g, c);
    var rest := b[1..];
    assert !IsEffect(b[0]);
    if Attempts(g, c) {
      assert rest == [EffectFor(g, c)] && rest[1..] == [];
    } else {
      assert rest == [];
    }
    assert Filter(IsEffect, rest) == if Attempts(g, c) then [EffectFor(g, c)] else [];
  }

  ghost function EffectsFor(g: Config, calls: seq<Call>): seq<Item> {
    seq(|calls|, k requires 0 <= k < |calls| => EffectFor(g, calls[k]))
  }

  lemma FilterLast(p: Call -> bool, calls: seq<Call>)
    requires calls != []
    ensures var front, last := calls[..|calls| - 1], calls[|calls| - 1];
            Filter(p, calls) == Filter(p, front) + if p(last) then [last] else []
  {
    var front, last := calls[..|calls| - 1], calls[|calls| - 1];
    assert calls == front + [last] && [last][1..] == [];
    FilterAppend(p, front, [last]);
  }

  /** In every run the world sees exactly the effects of the calls let through, in order. */
  lemma {:induction false} EffectsInOrder(g: Config, calls: seq<Call>)
    ensures Effects(Journal(g, calls)) == EffectsFor(g, Filter(Attempting(g), calls))
  {
    if calls != [] {
      var front, last := calls[..|calls| - 1], calls[|calls| - 1];
      EffectsInOrder(g, front);
      FilterAppend(IsEffect, Journal(g, front), Block(g, last));
      BlockEffects(g, last);
      FilterLast(Attempting(g), calls);
      if !Attempts(g, last) {
        assert Effects(Journal(g, front)) + [] == Effects(Journal(g, front));
      }
    }
  }

  /** In observe mode, unless check errors are enforced, that is every call. */
  lemma ObserveSuppressesNothing(g: Config, calls: seq<Call>)
    requires g.mode == Observe && !g.enforceErrors
    ensures Effects(Journal(g, calls)) == EffectsFor(g, calls)
  {
    EffectsInOrder(g, calls);
    FilterUniform(Attempting(g), calls, true);
  }

  /** For every mode: a decision lets an action through exactly if it permits it or the mode is
      observe; a failed check, exactly if neither the mode is enforced nor errors are. */
  lemma ModesMeanWhatTheySay(g: Config, c: Call)
    ensures c.check.Decided? ==> (Attempts(g, c) <==> Permits(c.check.response.decision) || g.mode == Observe)
    ensures c.check.CheckFailed? ==> (Attempts(g, c) <==> g.mode != Enforced && !g.enforceErrors)
  {
  }

  /** Two gates that differ only in one being enforced and the other without a mode let the same
      calls through exactly when errors are enforced or no check failed. */
  lemma {:induction false} UnsetModeFailsOpen(kit: Toolkit, enforceErrors: bool, calls: seq<Call>)
    ensures Filter(Attempting(Config(kit, Unset, enforceErrors)), calls)
         == Filter(Attempting(Config(kit, Enforced, enforceErrors)), calls)
       <==> enforceErrors || forall c :: c in calls ==> c.check.Decided?
  {
    var unset, enforced := Config(kit, Unset, enforceErrors), Config(kit, Enforced, enforceErrors);
    if enforceErrors || forall c :: c in calls ==> c.check.Decided? {
      FilterAgree(Attempting(unset), Attempting(enforced), calls);
    } else {
      var c :| c in calls && !c.check.Decided?;
      FilterElements(Attempting(unset), calls);
      FilterElements(Attempting(enforced), calls);
      assert c in Filter(Attempting(unset), calls) && c !in Filter(Attempting(enforced), calls);
    }
  }

  lemma {:induction false} FilterAgree(p: Call -> bool, q: Call -> bool, calls: seq<Call>)
    requires forall c :: c in calls ==> p(c) == q(c)
    ensures Filter(p, calls) == Filter(q, calls)
  {
    if calls != [] {
      FilterAgree(p, q, calls[1..]);
    }
  }
}
