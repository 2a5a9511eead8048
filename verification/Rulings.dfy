/** What the gate lets through, records, performs and hands back, told call by call. */
module Rulings {
  import opened Utf8
  import opened Models
  import opened StableSort
  import opened Transform
  import opened Enforcer
  import Detector

  /** A decision lets an action through when it permits it or the mode is observe; a failed check does when neither
      the mode nor the option enforces errors. */
  predicate LetThrough(g: Config, check: Check) {
    match check
    case Decided(response) => response.decision in [Allow, AllowWithRedaction] || g.mode == Observe
    case CheckFailed(_, _) => g.mode != Enforced && !g.enforceErrors
  }

  /** Who asks for what: the fields of the action by kind of call. */
  predicate Asks(c: Call, a: ActionMeta) {
    match c
    case Shell(command, args, sensitive, _) =>
      && a.actionType == "shell.exec" && a.tool == "shell" && a.resource == a.command == command
      && a.args == args && a.sensitive == sensitive
    case Command(adapter, target, args, sensitive, _) =>
      && a.actionType == "command.exec" && a.tool == adapter && a.resource == target
      && a.args == args && (|args| > 0 ==> a.command == args[0]) && (|args| == 0 ==> a.command == "")
      && a.sensitive == sensitive
    case Read(path, sensitive, _) =>
      && a.actionType == "file.read" && a.tool == "fs" && a.resource == path
      && a.command == "" && |a.args| == 0 && a.sensitive == sensitive
    case Write(path, _, _, sensitive, _) =>
      && a.actionType == "file.write" && a.tool == "fs" && a.resource == path
      && a.command == "" && |a.args| == 0 && a.sensitive == sensitive
  }

  /** The event of a call: who asked, what the service said, whether the action went ahead. A failed check that is
      not enforced is recorded as an allowing decision explained by the error. */
  predicate Notes(g: Config, c: Call, e: Event) {
    && e.mode == g.mode && Asks(c, e.action) && (e.allowed <==> LetThrough(g, c.check))
    && match c.check
       case Decided(response) =>
         && e.decision == response.decision && e.receiptID == response.receiptID && e.matched == response.matchedRules
         && e.reason == response.reason && e.checkError == ""
       case CheckFailed(error, response) =>
         && e.checkError == error
         && (e.allowed ==> e.decision == Allow && e.receiptID == "" && |e.matched| == 0 && e.reason == error)
         && (!e.allowed ==> && e.decision == response.decision && e.receiptID == response.receiptID
                            && e.matched == response.matchedRules && e.reason == response.reason)
  }

  /** Redaction of data by a plan: of the findings given, or of those of a scan when none are. */
  ghost function Rewritten(kit: Toolkit, plan: seq<TransformStep>, data: Bytes, given: seq<ScanFinding>): Bytes {
    var findings := if |given| > 0 then given else Detector.ScanSpec(kit.scanner, data, {});
    TransformSpec(kit.library, ModeMap(plan), data, findings).0
  }

  /** Data is redacted only when the service decided so and sent a plan. */
  ghost function Passed(kit: Toolkit, check: Check, data: Bytes, given: seq<ScanFinding>): Bytes {
    match check
    case Decided(response) =>
      if response.decision == AllowWithRedaction && |response.transformPlan| > 0
      then Rewritten(kit, response.transformPlan, data, given) else data
    case CheckFailed(_, _) => data
  }

  ghost predicate Does(kit: Toolkit, c: Call, effect: Effect) {
    match c
    case Shell(command, args, _, _) => effect == RunCommand(command, args)
    case Command(_, target, args, _, _) => effect == RunCommand(target, args)
    case Read(path, _, _) => effect == ReadPath(path)
    case Write(path, data, findings, _, check) => effect == WritePath(path, Passed(kit, check, data, findings))
  }

  lemma ActionAsks(c: Call)
    ensures Asks(c, ActionOf(c))
  {
  }

  lemma JudgedAsTold(g: Config, c: Call)
    ensures Notes(g, c, EventFor(g, c).event)
    ensures Attempts(g, c) <==> LetThrough(g, c.check)
  {
    ActionAsks(c);
  }

  lemma StoredIsPassed(g: Config, check: Check, data: Bytes, given: seq<ScanFinding>)
    requires LetThrough(g, check)
    ensures Stored(g.kit, Judge(g.mode, g.enforceErrors, check).response, data, given)
         == Passed(g.kit, check, data, given)
  {
    if check.Decided? {
      assert Judge(g.mode, g.enforceErrors, check).response == check.response;
      assert Redacts(check.response) ==>
          Redacted(g.kit, data, check.response.transformPlan, given)
          == Rewritten(g.kit, check.response.transformPlan, data, given);
    }
  }

  lemma EffectAsTold(g: Config, c: Call)
    requires LetThrough(g, c.check)
    ensures EffectFor(g, c).Performed? && Does(g.kit, c, EffectFor(g, c).effect)
  {
    if c.Write? {
      StoredIsPassed(g, c.check, c.data, c.findings);
    }
  }

  /** In every run the k-th event is that of the k-th call: who asked, what was decided and whether it went ahead. */
  lemma EveryEventTold(g: Config, calls: seq<Call>, k: nat)
    requires k < |calls|
    ensures |Events(Journal(g, calls))| == |calls|
    ensures Events(Journal(g, calls))[k].Recorded? && Notes(g, calls[k], Events(Journal(g, calls))[k].event)
  {
    OneEventPerCall(g, calls);
    JudgedAsTold(g, calls[k]);
  }

  /** The effects are those of the calls let through, in order. */
  ghost predicate EffectsTold(g: Config, calls: seq<Call>, effects: seq<Item>)
    decreases |calls|
  {
    if |calls| == 0 then |effects| == 0
    else if LetThrough(g, calls[0].check) then
      |effects| > 0 && effects[0].Performed? && Does(g.kit, calls[0], effects[0].effect)
      && EffectsTold(g, calls[1..], effects[1..])
    else EffectsTold(g, calls[1..], effects)
  }

  lemma EveryEffectTold(g: Config, calls: seq<Call>)
    ensures EffectsTold(g, calls, Effects(Journal(g, calls)))
  {
    EffectsInOrder(g, calls);
    ListToldByCall(g, calls);
  }

  lemma {:induction false} ListToldByCall(g: Config, calls: seq<Call>)
    ensures EffectsTold(g, calls, EffectsFor(g, Filter(Attempting(g), calls)))
  {
    if calls != [] {
      var c, rest := calls[0], calls[1..];
      var later := Filter(Attempting(g), rest);
      ListToldByCall(g, rest);
      JudgedAsTold(g, c);
      if Attempts(g, c) {
        EffectAsTold(g, c);
        assert Filter(Attempting(g), calls) == [c] + later;
        assert EffectsFor(g, [c] + later)[1..] == EffectsFor(g, later);
      } else {
        assert Filter(Attempting(g), calls) == later;
      }
    }
  }

  /** What the caller of the gate gets back: without an effect the service's response and why there was none, and
      otherwise what came of the effect, under the response or, after a failed check, an allowing one. */
  lemma AnswerTold(g: Config, check: Check, outcome: Outcome)
    ensures var (response, output, failure) := Answer(Judge(g.mode, g.enforceErrors, check), check, outcome);
            if !LetThrough(g, check) then
              && response == check.response && output == None
              && failure == Some(match check case CheckFailed(error, _) => Unavailable(error)
                                             case Decided(refused) => Refused(refused))
            else
              && response == (match check case Decided(given) => given
                                          case CheckFailed(error, _) => DecideResponse(Allow, "", [], [], error))
              && output == (match outcome case Succeeded(bytes) => Some(bytes) case Failed(partial) => partial)
              && (failure == None <==> outcome.Succeeded?) && (failure != None ==> failure == Some(EffectFailed))
  {
  }

  /** A read that succeeds shows what was read, redacted by scanning it when the service decided so; one that fails
      shows its partial output as it is. */
  lemma ReadTold(g: Config, check: Check, outcome: Outcome)
    requires LetThrough(g, check)
    ensures ReadOutcome(g.kit, Judge(g.mode, g.enforceErrors, check).response, outcome)
         == (match outcome case Succeeded(content) => Succeeded(Passed(g.kit, check, content, []))
                           case Failed(partial) => Failed(partial))
  {
    if outcome.Succeeded? {
      StoredIsPassed(g, check, outcome.output, []);
    }
  }
}
