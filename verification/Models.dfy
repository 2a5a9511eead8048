/** The records shared by the detector, the policy engine, the gate and the server. */
module Models {
  import opened Utf8

  datatype Option<+T> = None | Some(value: T)

  datatype Decision = Allow | Deny | Transform | AllowWithRedaction | OtherDecision(name: string)

  datatype TransformMode = Mask | Tokenize | Anonymize | Redact | Replace | Hash | OtherMode(name: string)

  function ModeName(mode: TransformMode): string {
    match mode
    case Mask => "mask"
    case Tokenize => "tokenize"
    case Anonymize => "anonymize"
    case Redact => "redact"
    case Replace => "replace"
    case Hash => "hash"
    case OtherMode(name) => name
  }

  /** `start` and `end` are byte offsets; nothing forces them to lie inside a text. */
  datatype ScanFinding = ScanFinding(entityType: string, value: Bytes, start: int, end: int, confidence: real)

  datatype TransformStep = TransformStep(entityType: string, mode: TransformMode)

  datatype TransformStats = TransformStats(entitiesTransformed: int, modesApplied: string)

  datatype ActionMeta = ActionMeta(
    actionType: string, tool: string, resource: string, command: string, args: seq<string>, sensitive: bool)

  datatype MatchCriteria = MatchCriteria(
    actionTypes: seq<string>, tools: seq<string>, resourcePrefix: seq<string>,
    commands: seq<string>, args: seq<string>, adapters: seq<string>)

  datatype Rule = Rule(
    id: string, description: string, priority: int, effect: Decision, criteria: MatchCriteria,
    entityRequirements: seq<string>, entityTransforms: seq<TransformStep>, requireSensitiveOnly: bool)

  datatype DecideRequest = DecideRequest(action: ActionMeta, text: Bytes, findings: seq<ScanFinding>)

  datatype DecideResponse = DecideResponse(
    decision: Decision, receiptID: string, matchedRules: seq<string>,
    transformPlan: seq<TransformStep>, reason: string)
}
