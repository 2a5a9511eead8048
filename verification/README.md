# DataFog, verified model

DataFog finds personal data in text, decides by policy what may happen to it, and enforces the
decision in front of commands and file accesses. This project models the parts of it that carry
loops, state and arithmetic, and proves what they promise.

| File | What it covers |
|---|---|
| `Utf8.dfy` | Bytes and runes, as Go decodes and encodes them |
| `StableSort.dfy`, `Lexical.dfy`, `Sums.dfy`, `TextLines.dfy` | Stable sorting, string order and sets, sums over maps, splitting into lines |
| `Models.dfy` | The records shared by all components |
| `Splice.dfy`, `Transform.dfy`, `Rewriting.dfy`, `Hiding.dfy`, `Survival.dfy`, `Overlaps.dfy` | The transform engine: right-to-left splicing in a byte buffer, against one left-to-right pass over the original text; what the output shows of hidden values, which bytes come through when spans overlap, and in which order overlapping spans are rewritten |
| `Luhn.dfy`, `Ipv4.dfy`, `Ner.dfy`, `Names.dfy`, `Detector.dfy`, `Scanning.dfy` | Validators, the name recogniser with its byte offsets, the scan, and what both are sure to report |
| `Policy.dfy`, `Decisions.dfy` | Rule matching and the decision, and both in plain terms |
| `TokenBucket.dfy`, `Metrics.dfy`, `Idempotency.dfy`, `IdempotencyRuns.dfy` | The server's limiter, counters and caches |
| `Receipts.dfy`, `ReceiptRuns.dfy`, `Rotation.dfy` | The receipt store: index, log, rotation, reopening |
| `Enforcer.dfy`, `Rulings.dfy` | The gate: which effects follow which decisions, and its journal |
| `ShellQuote.dfy`, `ShimScript.dfy`, `Wrapper.dfy` | The generated shim script, its reading by a shell, and the reader of its metadata |
| `Pipeline.dfy` | Detection, decision and enforcement together |

Go strings are byte sequences where offsets matter and sequences of code points elsewhere. Each
imperative part of the source is a class or a method here, proved equal to a specification
function; the theorems are about those functions and about runs of them. Hypotheses are stated
where they are needed, and a witness shows what goes wrong without them.

## Where the code and its documents differ

The model follows the code.

- `docs/contracts/datafog-api-contract.md:383` promises one status and body per idempotency key and
  payload, and `docs/ARCHITECTURE.md:34` the same or a conflict error. Lookup and publication are
  separate critical sections, and failures are not remembered. So two overlapping requests can both be
  answered (`IdenticalRequestsTwoAnswers`), and a request that failed can succeed when it is
  repeated, without any overlap (`FailureThenSuccess`). `OneReplyIff` and `OneReplyOrConflictIff`
  give the exact conditions, `SameResponse` the one for the bodies of successful replies alone.
- Line 384 of the contract promises a conflict for every reuse of a key with another payload:
  `ReuseRefused` says exactly when that holds.
- `README.md:244` names two modes. A gate built with neither blocks what a decision forbids, as
  an enforced one does, but lets everything through when the policy service cannot be reached:
  `UnsetModeFailsOpen`.
- A receipt whose sync failed is reported as an error but is in the log, and a restart
  brings it back: `IndexIsReplay` counts such lines. A log that does not end in a newline takes the
  next receipt into its last line: `SavedAfterFragment` says exactly when the receipt is still
  read back, and `AgreesThroughout` when index and log stay in step over runs with torn writes.
  Receipts and script lines longer than the reader accepts are written without complaint but make the
  whole file unreadable: `ReopenRestores`, `RoundTrip`.
- Planned findings of different types may overlap, as when a phone or card number is found inside a
  key. Splicing then cuts by offsets into a text that has already changed: bytes of a value to be
  hidden can reach the output (`KeyTailStored`), and a finding can be passed over altogether
  (`KeyHeadStored`). `SurvivingBytes` says exactly which bytes come through, `RewrittenIff` which
  findings are rewritten.
- A write that fails part way leaves a fragment. After one to an empty log the index still agrees with
  the log, but the store can no longer be opened: `TornFirstWrite`.
- Byte offsets of the name recogniser are computed by re-encoding runes, so each ill-formed byte
  in front shifts them by two: `OffsetError`.

## Model

| member | source | states |
|---|---|---|
| `Utf8.DecodeEncode` | internal/scan/ner.go:280-280 | Turning code points into bytes and back (section 3 of RFC 3629) gives the code points back, and the bytes are valid UTF-8 |
| `Utf8.EncodeDecode` | internal/scan/ner.go:315-321 | A text survives the conversion to runes and back exactly when it is valid UTF-8 |
| `Utf8.EncodeDecodeLength` | internal/scan/ner.go:315-321 | Re-encoding the runes of a text lengthens it by two bytes for each ill-formed byte |
| `Utf8.Slice` | internal/scan/ner.go:304-309 | In a valid text the bytes between the true offsets of two runes are the encoding of the runes between them |
| `Utf8.Rfc3629Examples` | internal/scan/ner.go:280-280 | The encodings of the examples in section 7 of RFC 3629, and the ill-formed sequences its section 10 names are refused |
| `StableSort.SliceStable` | internal/transform/transform.go:35-40 | Sorts an array in place; the result is the one stable order for any strict weak comparator |
| `StableSort.SortSpec` | internal/transform/transform.go:35-40 | The reference order is a permutation, sorted, with tied elements in their original order |
| `StableSort.StableSortUnique` | internal/policy/policy.go:150-152 | Two sorted sequences with the same classes of ties are equal, so the result does not depend on which stable algorithm the library uses |
| `StableSort.FilterSortCommute` | internal/policy/policy.go:148-155 | Filtering before or after a stable sort gives the same sequence |
| `Lexical.SortForgetsOrder` | internal/transform/transform.go:58-62 | Sorting the keys of a map gives the same list whatever order they were enumerated in |
| `Lexical.BeforeIff` | internal/transform/transform.go:62-62 | One string sorts before another when it is a proper prefix of it or has the smaller character where they first differ |
| `Lexical.SortedSetAscends` | internal/transform/transform.go:58-62 | The listing of a set holds exactly its elements, each once, from the least to the greatest |
| `Splice.SpliceIsOnePass` | internal/transform/transform.go:45-56 | For disjoint spans sorted from the right, splicing into the changing buffer is one left-to-right pass over the original text, and the bounds check against the changing buffer passes exactly the spans in range of the original |
| `Splice.SpliceLength` | internal/transform/transform.go:45-56 | For any spans at all, the output is longer than the input by the sum of replacement lengths minus span lengths of what was spliced |
| `Splice.FillIsUnion` | internal/transform/transform.go:45-56 | When replacements are runs of one byte as long as their spans, exactly the bytes covered by some span in range are overwritten, overlaps included |
| `Transform.ByteBuffer.constructor` | internal/transform/transform.go:43-43 | The buffer starts as a copy of the input |
| `Transform.ByteBuffer.Splice` | internal/transform/transform.go:51-53 | The nested appends, overwriting in place or growing, leave prefix, replacement and old tail although the tail is read from the buffer being overwritten |
| `Transform.CollectModes` | internal/transform/transform.go:18-21 | The last step for an entity type decides its mode |
| `Transform.SelectPlanned` | internal/transform/transform.go:23-29 | Exactly the findings with a mode are kept, in order |
| `Transform.SpliceSorted` | internal/transform/transform.go:42-56 | The loop's output is the splicing fold, its count the number of spliced findings and its labels theirs |
| `Transform.SortedParts` | internal/transform/transform.go:58-62 | Whatever the iteration order of the map, the parts come out sorted |
| `Transform.ApplyTransforms` | internal/transform/transform.go:13-68 | Output and statistics are those of the specification about which the theorems below speak, early returns included |
| `Transform.ReplacementRevealsMode` | internal/transform/transform.go:70-97 | The mode a value was replaced under can be read off its replacement, for every mode but mask |
| `Transform.ReplacementSizes` | internal/transform/transform.go:70-108 | The size of every replacement: tokens 12 bytes, anonymous names 13, redactions and unknown modes 10, hashes 64, masks as long as the value, typed replacements 11 more than the upper-cased type |
| `Rewriting.TransformIsOnePass` | internal/transform/transform.go:13-68 | For disjoint planned findings in any order: output is the one-pass rewrite, count is the number of planned findings in range, length grows by replacements minus spans, labels are those of exactly these findings |
| `Rewriting.TransformLength` | internal/transform/transform.go:42-56 | The length law and the count without any disjointness |
| `Rewriting.FindingOrderIrrelevant` | internal/transform/transform.go:35-40 | Permuting disjoint findings changes neither output nor statistics |
| `Rewriting.StepOrderIrrelevant` | internal/transform/transform.go:18-21 | Permuting steps with distinct entity types changes nothing |
| `Rewriting.RepeatedTypeOrderMatters` | internal/transform/transform.go:18-21 | With a repeated type it does: the last step wins |
| `Rewriting.ReplacementTexts` | internal/transform/transform.go:70-108 | The text each mode but mask puts in place of a value, as a reader of the output decodes it |
| `Rewriting.MaskText` | internal/transform/transform.go:78-79 | A mask has one star for each byte of the value |
| `Rewriting.LabelsListed` | internal/transform/transform.go:58-62 | The list of modes names each pair of type and mode that was applied exactly once, in ascending order |
| `Rewriting.MaskIsUnion` | internal/transform/transform.go:78-79 | Masking, for arbitrarily overlapping or nested findings: same length, and a byte is a star exactly when a planned finding in range covers it |
| `Rewriting.MaskNeedsMatchingValue` | internal/transform/transform.go:78-79 | A value longer than its span breaks that: a concrete input whose masked text is longer |
| `Rewriting.OverlapBreaksOnePass` | internal/transform/transform.go:45-56 | Nested findings break the one-pass law: a concrete input gives 19 bytes instead of 10, the last of them the last byte of the outer value |
| `Rewriting.ModeMapOfListing` | internal/server/server.go:566-573 | However a map of modes is listed as steps, the engine reads the same map back |
| `Rewriting.TransformRequestPlan` | internal/server/server.go:557-573 | The plan of a transform request: its own modes, or its single mode for exactly the types found |
| `Rewriting.RequestModesTold` | internal/server/server.go:557-565 | Which modes a transform request means: its own if it has any, else its single mode for exactly the types found |
| `Rewriting.PlanOf` | internal/server/server.go:566-573 | Iterating the map in any order gives a plan with the same meaning and no type twice |
| `Rewriting.AnonymizeRequestPlan` | internal/server/server.go:648-656 | The plan of an anonymize request: every type found, once, anonymized |
| `Hiding.SameReplacementIff` | internal/transform/transform.go:70-108 | Two values get the same replacement exactly when they agree on what the mode shows: length, digest prefix, whole digest or nothing |
| `Hiding.OnePassBlind` | internal/transform/transform.go:45-56 | The one-pass rewrite does not look at the bytes inside the spans it replaces |
| `Hiding.OutputHidesValues` | internal/transform/transform.go:13-68 | Texts that differ only inside rewritten spans, and there only in ways the modes do not show, have the same output and statistics |
| `Survival.SurvivingBytes` | internal/transform/transform.go:45-56 | For arbitrary findings each output byte comes from a replacement or from a position of the input; position p comes through exactly when every spliced finding that starts by p ends by where earlier splices have moved p, and then only to that place |
| `Survival.DisjointSurvival` | internal/transform/transform.go:45-56 | For disjoint planned findings a byte comes through exactly when no planned finding in range covers it |
| `Survival.KeyTailSurvives` | internal/transform/transform.go:45-56 | For every 26-byte key with an 11-byte phone number inside, redacting the one and tokenizing the other leaves the last byte of the key in the output |
| `Survival.RewrittenIff` | internal/transform/transform.go:45-56 | For arbitrary findings, taken from the right: a planned one is rewritten exactly when it fits the text as grown or shrunk by those rewritten before it |
| `Survival.AppliedAll` | internal/transform/transform.go:42-56 | Starting from none, that determines all findings rewritten |
| `Survival.CardDropsKey` | internal/transform/transform.go:46-48 | For every 22-byte key that ends in a card number, redacting the card leaves the key unmatched by its span: not rewritten, not counted, its first six bytes in the output |
| `Overlaps.RewrittenRightToLeft` | internal/transform/transform.go:35-56 | The findings rewritten stand in the list with descending starts, and descending ends where starts are equal |
| `Overlaps.QueueKeepsTies` | internal/transform/transform.go:35-40 | Findings with the same start and end are looked at in their input order, whatever else is in the list |
| `Overlaps.TiesRewrittenInOrder` | internal/transform/transform.go:45-56 | Those of them that are rewritten are rewritten in that order |
| `Overlaps.CardAndPhone` | internal/transform/transform.go:35-56 | For every 16-byte text with a card over all of it and a phone number over its first ten bytes, in either order and both planned: the output is the phone's replacement alone, and both were rewritten |
| `Overlaps.PlannedCounted` | internal/transform/transform.go:18-29 | A finding is planned for exactly as often as it was given if its type has a mode, and otherwise not |
| `Overlaps.PlannedInOrder` | internal/transform/transform.go:23-29 | The findings planned for are part of the input, in its order |
| `Luhn.FillDigits` | internal/scan/detector.go:120-136 | Collects the digits, ignoring spaces and dashes, and fails on anything else or on a twentieth digit |
| `Luhn.WeightedSum` | internal/scan/detector.go:141-153 | The right-to-left loop with its alternating flag computes the sum in which every second place from the right is doubled |
| `Luhn.LuhnValid` | internal/scan/detector.go:119-155 | Accepts exactly 13 to 19 digits, spaces and dashes ignored, whose Luhn sum (Annex B of ISO/IEC 7812-1) is a multiple of ten |
| `Luhn.DecimalSumIsTensPlusUnits` | internal/scan/detector.go:145-150 | Subtracting nine from a doubled digit above nine is adding its two decimals |
| `Luhn.SubstitutionDetected` | internal/scan/detector.go:141-154 | Changing one digit of a valid number invalidates it |
| `Luhn.TranspositionDetected` | internal/scan/detector.go:141-154 | Swapping two neighbouring digits goes unnoticed exactly when they are equal or are 0 and 9 |
| `Luhn.CheckDigitUnique` | internal/scan/detector.go:141-154 | Every payload has exactly one check digit |
| `Luhn.WrongDigitRejected` | internal/scan/detector.go:119-155 | The substitution law on written numbers, separators included |
| `Luhn.SwappedDigits` | internal/scan/detector.go:119-155 | The transposition law on written numbers, separators included |
| `Luhn.SumIsPairSum` | internal/scan/detector.go:141-153 | The sum taken two digits at a time from the right, the second of each two doubled and its decimals added, is the loop's sum |
| `Luhn.DigitsInPlace` | internal/scan/detector.go:123-136 | There are as many digits as digit characters, and each stands behind as many as there are digit characters before it |
| `Luhn.AcceptsIff` | internal/scan/detector.go:119-155 | Acceptance in plain terms: digits, spaces and dashes only, 13 to 19 digits, a pairwise sum divisible by ten |
| `Ipv4.Ipv4Valid` | internal/scan/detector.go:158-199 | The single-pass loop accepts exactly the texts whose dot-separated groups are four octets |
| `Ipv4.AcceptsIffFourOctets` | internal/scan/detector.go:158-199 | That is: four groups of one to three digits of value at most 255, joined by dots |
| `Ipv4.OctetIff` | internal/scan/detector.go:167-185 | A group counts exactly when it is one to three decimal digits whose place value is at most 255 |
| `Ipv4.ParsePrint` | internal/scan/detector.go:158-199 | Every printed address (section 3.2.2 of RFC 3986) is accepted and reads back as the same four octets |
| `Ipv4.PrintParse` | internal/scan/detector.go:158-199 | An accepted text prints back as itself exactly when no group has a superfluous leading zero |
| `Ipv4.JoinSplit` | internal/scan/detector.go:167-185 | Joining the groups of a text by dots gives the text |
| `Ipv4.SplitJoin` | internal/scan/detector.go:167-185 | Splitting joined dot-free groups gives the groups |
| `Ner.OffsetError` | internal/scan/ner.go:315-321 | The reported offset of a rune exceeds the true one by two for each ill-formed byte before it, except at the end of the text |
| `Ner.OffsetsExact` | internal/scan/ner.go:315-321 | All offsets of a text are right exactly when nothing before its last rune is ill-formed |
| `Ner.Tokenize` | internal/scan/ner.go:277-313 | The loop produces the specified tokens |
| `Ner.TokensAreWords` | internal/scan/ner.go:283-310 | The tokens are exactly the maximal runs of non-space runes, stripped of trailing punctuation, that are not punctuation only |
| `Ner.TokensGood` | internal/scan/ner.go:304-309 | On valid UTF-8 each token lies in the text, its bytes there spell its text, and tokens follow one another without overlap |
| `Ner.GrowSpan` | internal/scan/ner.go:158-172 | The inner loop gathers the tokens up to the end of the span |
| `Ner.SpanMaximal` | internal/scan/ner.go:158-172 | A span holds title-cased words and connectors only, ends title-cased and cannot be continued |
| `Ner.ClassifySpan` | internal/scan/ner.go:174-265 | The cascade of heuristics, first match wins, including the trimming of a sentence-initial word |
| `Ner.ClassifiedWanted` | internal/scan/ner.go:191-265 | A classified span has one of the types asked for |
| `Ner.ClassifyRules` | internal/scan/ner.go:174-265 | For every span: when it is classified at all, as what, and with which confidence |
| `Ner.ClassifySpans` | internal/scan/ner.go:191-265 | A finding covers its span; only an organization that opens a sentence loses a first word that is neither a first name nor a suffix |
| `Ner.WordKinds` | internal/scan/ner.go:300-334 | Which runes are trimmed from words, which words connect, and which count as title-cased |
| `Ner.ScanAt` | internal/scan/ner.go:150-266 | One round: what is found at a token, and that a classified span is skipped as a whole |
| `Ner.ScanNerWithFilter` | internal/scan/ner.go:133-269 | The outer loop, which jumps over spans, terminates with the specified findings |
| `Ner.FindingsAreSpans` | internal/scan/ner.go:158-265 | Every finding comes from a maximal span that begins and ends title-cased |
| `Ner.NerFindingsGood` | internal/scan/ner.go:133-269 | On valid UTF-8 every finding is in bounds, quotes the text, and follows the one before without overlap, whatever the dictionaries contain |
| `Names.SpanEndsAt` | internal/scan/ner.go:158-172 | A span goes on through title-cased words and through connectors before one, as far as it can and no further |
| `Names.TokensTold` | internal/scan/ner.go:277-313 | Byte for byte, the tokens are the words up to their trailing punctuation, at the reported offsets |
| `Names.NamesTold` | internal/scan/ner.go:133-269 | Completeness of the recogniser: unless it is off or not asked for, each title-cased word that gives a finding begins one or lies in the span of a finding already made, and nothing else is reported; the findings follow each other from left to right |
| `Names.ValueTold` | internal/scan/ner.go:336-353 | A finding carries the text between its offsets, or nothing when they do not fit the text |
| `Detector.ScanType` | internal/scan/detector.go:86-103 | One entry per match of a type that passes the type's validator |
| `Detector.ScanText` | internal/scan/detector.go:78-115 | Findings by type in the fixed order, then the names, under the filter |
| `Detector.MatchedSound` | internal/scan/detector.go:88-102 | What is reported for a type quotes the text, validates and was matched |
| `Detector.MatchedComplete` | internal/scan/detector.go:88-102 | Every match that validates is reported |
| `Detector.MatchedAscending` | internal/scan/detector.go:88-102 | Findings of one type ascend without overlap |
| `Detector.MatchedTypesOfType` | internal/scan/detector.go:84-105 | Selecting one type from a scan gives back just its matches |
| `Detector.OverlapOnlyAcrossTypes` | internal/scan/detector.go:78-115 | In a scan of valid UTF-8 two findings can only overlap when their types differ and not both are names |
| `Detector.ScanSound` | internal/scan/detector.go:78-115 | Every finding quotes the text, is of a requested type and passed its validator |
| `Scanning.ScanComplete` | internal/scan/detector.go:67-105 | For each of the eight pattern types asked for, every match that its validator accepts is reported with that type, span and value |
| `Scanning.ScanOfType` | internal/scan/detector.go:67-105 | Selecting one of these types from a scan gives exactly its accepted matches, in order and with its confidence, if it was asked for, and nothing otherwise |
| `Scanning.ScanOfNames` | internal/scan/detector.go:107-114 | Selecting the names gives exactly the findings of the recogniser |
| `Scanning.ScanOrder` | internal/scan/detector.go:67-114 | The types come as api_key, credit_card, date, email, ip_address, phone, ssn, zip_code, and then the names |
| `Policy.MatchesField` | internal/policy/policy.go:363-373 | An empty list accepts anything; otherwise some entry equals the value up to case folding |
| `Policy.MatchesArgs` | internal/policy/policy.go:340-361 | Every required argument occurs among the arguments, up to case folding |
| `Policy.MatchesAdapter` | internal/adapters/registry.go:140-167 | Some target names the tool, directly or through an alias, in the four ways the code allows |
| `Policy.MatchesResource` | internal/policy/policy.go:326-337 | Some prefix fits a non-empty resource, if there are prefixes |
| `Policy.MatchAction` | internal/policy/policy.go:307-338 | All criteria hold together |
| `Policy.HasRequiredEntities` | internal/policy/policy.go:375-386 | Every required type is a known one and was found |
| `Policy.EvaluateSorted` | internal/policy/policy.go:179-277 | The loop's outcome is the conclusion from the rules that match, in order |
| `Policy.NormalizeForEvaluation` | internal/policy/policy.go:148-155 | Rules by descending priority, ties in policy order |
| `Policy.Evaluate` | internal/policy/policy.go:161-163 | Evaluation of the sorted rules |
| `Policy.StrongestEffectWins` | internal/policy/policy.go:199-276 | The decision is the strongest effect of any matching rule under deny, transform, allow with redaction, allow; deny when none matches |
| `Policy.MatchedAfterSort` | internal/policy/policy.go:148-155 | Sorting and filtering rules commute and keep exactly the rules that match |
| `Policy.MatchedRulesByPriority` | internal/policy/policy.go:194-219 | The matched ids are those of the matching rules by priority, ties in policy order |
| `Policy.DecisionIgnoresOrder` | internal/policy/policy.go:179-277 | Reordering or repeating rules, and any change of findings that keeps the set of lower-cased types, leaves the decision alone |
| `Policy.FindingsMatterByType` | internal/policy/policy.go:194-197 | Permuting or repeating findings leaves the whole result alone |
| `Policy.MoreNeverWeakens` | internal/policy/policy.go:179-277 | More rules and more findings never weaken a decision that rested on a matching rule |
| `Policy.DefaultDenialYields` | internal/policy/policy.go:273-276 | The exception is real: a denial for lack of a matching rule gives way to one matching allow rule |
| `Policy.RedactionPlanIsDefault` | internal/policy/policy.go:228-265 | Allow with redaction always carries the default plan, transform always a non-empty plan, allow and deny none |
| `Policy.DenyReasonIsFirst` | internal/policy/policy.go:222-226 | A denial is explained by the first deny rule, in evaluation order, that has a description |
| `Decisions.MatchesIff` | internal/policy/policy.go:307-386 | A rule matches exactly when each of its criteria holds, read entry by entry, and each required type is one of the eleven known ones and was found |
| `Decisions.NoToolMeetsUnknown` | internal/adapters/registry.go:140-167 | An action that names no tool meets a list of adapters exactly when the list has an empty or an unknown name |
| `Decisions.MatchedByPriority` | internal/policy/policy.go:148-222 | The rules that matched stand by descending priority, and at each priority as the policy lists them |
| `Decisions.ByPriorityUnique` | internal/policy/policy.go:148-155 | There is only one such list |
| `Decisions.StepsFrontToBack` | internal/policy/policy.go:229-232 | The plan of a transform joins the steps of its rules front to back |
| `Decisions.EvaluationTold` | internal/policy/policy.go:161-277 | The whole evaluation in plain terms: what is refused outright and why, and otherwise ids, decision, plan and reason from the rules that apply, in order |
| `Decisions.DefaultPlanModes` | internal/policy/policy.go:279-291 | The default plan, step by step |
| `TokenBucket.Limiter.constructor` | internal/server/server.go:239-245 | A new bucket has tokens, capacity and rate equal to the limit, and the time of its creation |
| `TokenBucket.Limiter.Allow` | internal/server/server.go:248-267 | One call refills for elapsed time, if positive, up to capacity, and takes a token if there is one |
| `TokenBucket.NewTokenBucket` | internal/server/server.go:234-246 | No limiter for a limit that is not positive; otherwise one with tokens, capacity and rate equal to the limit and the time of its creation |
| `TokenBucket.AllowRequest` | internal/server/server.go:248-251 | Without a limiter everything is allowed |
| `TokenBucket.TokensAreTightestWindow` | internal/server/server.go:256-266 | In every run, clocks running backwards included, the tokens equal the least over all windows of capacity plus refill minus admissions |
| `TokenBucket.WindowBound` | internal/server/server.go:248-267 | No window admits more than capacity plus its refill |
| `TokenBucket.AdmittedIffNoWindowOverdrawn` | internal/server/server.go:262-266 | A request is admitted exactly when it overdraws no window |
| `TokenBucket.TimeIsLatest` | internal/server/server.go:256-261 | The bucket's time is the latest reading so far |
| `TokenBucket.IntervalBound` | internal/server/server.go:248-267 | In any interval of the bucket's time at most capacity plus rate times length is admitted |
| `TokenBucket.NewLimiterRun` | internal/server/server.go:234-246 | Every limiter the server makes satisfies the hypotheses of these theorems |
| `TokenBucket.BurstIsLimit` | internal/server/server.go:234-267 | While the clock does not pass the time of creation, of n calls exactly the first min(n, rateLimit) are admitted |
| `TokenBucket.LimitPerInterval` | internal/server/server.go:234-267 | Whatever the clock does, in any interval of the limiter's time at most rateLimit times one plus its seconds are admitted |
| `Metrics.Stats.RecordRequestMetrics` | internal/server/server.go:288-303 | The whole new state of the counters |
| `Metrics.Stats.SnapshotMetrics` | internal/server/server.go:744-786 | The snapshot mirrors the counters; it prints the start time, and start time and uptime add up to the time of the call |
| `Metrics.StatusTexts` | internal/server/server.go:747-750 | Turning status codes into text loses no entry and adds none |
| `Metrics.PathAverages` | internal/server/server.go:762-768 | Average latency of each path with a non-zero count |
| `Metrics.ItoaInjective` | internal/server/server.go:749-749 | Different codes have different texts |
| `Metrics.Conservation` | internal/server/server.go:288-303 | In every run method, path and status counts each sum to the total, errors to the statuses from 400, path latencies to the total latency; a path has as many latencies as hits |
| `Metrics.CountersAreCounts` | internal/server/server.go:288-303 | Each counter is the number of requests with that method, path or status, and there are no other entries |
| `Metrics.OverallIsWeightedMean` | internal/server/server.go:762-773 | The overall average is the mean of the path averages weighted by hits |
| `Metrics.SnapshotCounts` | internal/server/server.go:288-303 | A snapshot after any run counts its requests: all, those with a status of 400 or more, and those of each method, path and status, with no entry for what did not occur |
| `Metrics.SnapshotAverages` | internal/server/server.go:753-773 | Its averages are nanoseconds spent over requests made, over a million, in all and for each path |
| `Metrics.ItoaReads` | internal/server/server.go:749-749 | The text of a status code is its decimal numeral without leading zeros |
| `Idempotency.CacheMaps.constructor` | internal/server/server.go:112-115 | The four caches start empty |
| `Idempotency.CacheMaps.Lookup` | internal/server/server.go:356-366 | Nothing, a conflict when the hashes differ, or a replay |
| `Idempotency.CacheMaps.Publish` | internal/server/server.go:384-390 | Replaces the entry of the key in the endpoint's cache and no other |
| `Idempotency.InvHolds` | internal/server/server.go:350-391 | In every interleaving cache entries, replays and conflicts are justified by an answer of that endpoint, key and hash, and every decision answered has its receipt saved |
| `Idempotency.RepliesMeanPayloads` | internal/server/server.go:422-436 | For a hash that tells payloads apart, a replay repeats the answer to the same payload and a conflict means another payload was answered |
| `Idempotency.BothAnswered` | internal/server/server.go:422-490 | Two computed answers under one key mean their requests were in flight together |
| `Idempotency.InFlightEnds` | internal/server/server.go:426-490 | A request past a missed lookup ends with its own answer or a failure, never with a replay or a conflict |
| `Idempotency.BothAnsweredIff` | internal/server/server.go:422-490 | Two requests of one key are both answered exactly when they were in flight together and neither failed |
| `Idempotency.OneAnswerUnlessOverlap` | internal/server/server.go:422-490 | A key gets two computed answers in a run exactly when two of its requests were in flight together and neither failed |
| `Idempotency.FreshHolds` | internal/server/server.go:450-470 | In every run each decision has a receipt of its own, saved before it is sent, and no other answer has one |
| `Idempotency.SameResponse` | internal/server/server.go:422-490 | The bodies of all successful replies under a key are the same exactly when no two of its requests were in flight together, without failing, on bodies that differ, as those of decisions always do |
| `Idempotency.AcceptedOnce` | internal/server/server.go:422-490 | All successful replies under a key are for one payload hash exactly when no two of its requests with different hashes were in flight together without failing |
| `Idempotency.OneReplyIff` | docs/contracts/datafog-api-contract.md:383-383 | All finished requests with one key and payload hash have the same status and, on success, body, exactly when no two of them clashed, none failed beside one that did not, and none was refused beside one that succeeded |
| `Idempotency.OneReplyOrConflictIff` | docs/ARCHITECTURE.md:34-34 | Conflict errors apart, they have the same status and body exactly when no two of them clashed and none failed beside one that succeeded |
| `Idempotency.RefusedMeansPayloadClash` | internal/server/server.go:430-433 | A request is refused beside a success of its own payload only if two payloads were accepted under its key while in flight together |
| `Idempotency.FailureThenSuccess` | internal/server/server.go:466-470 | A run without overlap in which a request gets 500 and its repetition 200 |
| `Idempotency.ReuseRefused` | docs/contracts/datafog-api-contract.md:384-384 | Of any two finished requests with one key and different payload hashes one is refused, exactly when no two such were in flight together without failing and none failed beside one not refused |
| `Idempotency.IdenticalRequestsTwoAnswers` | internal/server/server.go:422-490 | A concrete run in which two identical requests get different receipts |
| `IdempotencyRuns.CacheIsLatest` | internal/server/server.go:482-488 | In every run a cache holds under each key the payload hash and response of the latest publication under it, or nothing if there was none |
| `IdempotencyRuns.LookupSeesLatest` | internal/server/server.go:422-436 | In every run a lookup misses exactly when nothing was published under its key before; otherwise the latest publication alone decides between conflict and replay |
| `IdempotencyRuns.SecondAnswerWins` | internal/server/server.go:482-488 | Of several answers published under a key, later requests get the last |
| `Receipts.LoadExisting` | internal/receipts/store.go:149-181 | The loop's index is the replay of the lines; it fails on a line beyond the limit, and on corrupt lines with no receipt at all |
| `Receipts.ReplayIsLastWins` | internal/receipts/store.go:159-172 | What the index holds for an id is the last line recording it |
| `Receipts.NewReceiptStore` | internal/receipts/store.go:39-70 | A store opens exactly when its path is acceptable, directory and file are accessible and the log loads, and then with the index of that log |
| `Receipts.ReceiptStore.Save` | internal/receipts/store.go:92-128 | The whole new state and the answer, for every way the file operations can fail; the index stays that of the receipts recorded since the log was archived |
| `Receipts.ReceiptStore.RotateLocked` | internal/receipts/store.go:132-140 | The log moves to the archive, the index is emptied; a failed rename changes nothing |
| `Receipts.ReceiptStore.Get` | internal/receipts/store.go:187-192 | The receipt last recorded under the id since the log was archived, or none if none was |
| `Receipts.ReceiptStore.Count` | internal/receipts/store.go:143-147 | At most the number of entries, and equal to it exactly when the receipts recorded since the log was archived have distinct ids |
| `ReceiptRuns.FailedSaveKeepsIndex` | internal/receipts/store.go:100-123 | A failed save changes the index only by a completed rotation |
| `ReceiptRuns.SuccessfulSave` | internal/receipts/store.go:100-127 | A saved receipt can be looked up, the others stay unless rotated out, and the count is between one and the limit however large the loaded log was |
| `ReceiptRuns.IndexIsReplay` | internal/receipts/store.go:92-181 | In every run of whole writes the index is the replay of the log exactly when no sync failed since the last rotation, and trails it by the number that did |
| `ReceiptRuns.OpenedAgrees` | internal/receipts/store.go:61-69 | A store just opened satisfies the hypotheses on the start of a run |
| `ReceiptRuns.ReopenRestores` | internal/receipts/store.go:149-181 | From a log that ends in a newline, over runs whose writes are not torn, closing and reopening restores receipts and count exactly when no sync failed and no over-long line was written since the last rotation |
| `ReceiptRuns.RestoresIff` | internal/receipts/store.go:149-181 | For any log: reopening restores the index exactly when the two agree, no line is over-long, and there is a receipt if any line is corrupt |
| `ReceiptRuns.TornFirstWrite` | internal/receipts/store.go:118-120 | A torn write to an empty log, if the fragment does not decode, keeps index and log in agreement but the store cannot be opened again |
| `ReceiptRuns.IndexIsRecorded` | internal/receipts/store.go:92-128 | In every run, whatever fails, the index holds the latest receipt recorded under each id, and has as many receipts as entries exactly when the ids are distinct |
| `ReceiptRuns.AgreesAfterIff` | internal/receipts/store.go:112-127 | For any log and any outcome of a save, index and log agree afterwards exactly under a condition on the piece after the last newline and what the save adds |
| `ReceiptRuns.AgreesThroughout` | internal/receipts/store.go:92-181 | In every run, torn writes and untidy logs included, the index is the replay of the log throughout exactly when every save meets that condition |
| `ReceiptRuns.SavedAfterFragment` | internal/receipts/store.go:183-185 | A receipt saved after an unterminated piece is in the log as in the index exactly when the piece is empty, or does not decode and still lets the joined line decode to the same effect |
| `ReceiptRuns.UnterminatedSwallows` | internal/receipts/store.go:183-185 | The plain case: a log that is one piece which spoils the next line loses the next receipt |
| `ReceiptRuns.ArchivesAreHistory` | internal/receipts/store.go:132-140 | With distinct archive names the archives in order, then the log, are everything ever written, torn writes included |
| `ReceiptRuns.BytesConserved` | internal/receipts/store.go:132-140 | Bytes on disk are the bytes found plus the bytes written minus those overwritten by reused archive names: all is kept exactly when that is nothing |
| `Rotation.LossMeansLimit` | internal/receipts/store.go:100-105 | A save that loses a receipt, lowers the count or touches an archive found a limit and as many entries |
| `Rotation.LimitEmptiesFirst` | internal/receipts/store.go:100-140 | A save at the limit whose rename succeeds starts from an empty index and log, and the old log is the archive |
| `Rotation.FailedRename` | internal/receipts/store.go:101-104 | If the rename fails nothing changes |
| `Rotation.BelowLimitAdds` | internal/receipts/store.go:107-127 | Below the limit a save only ever adds |
| `Rotation.SavedAsNamed` | internal/receipts/store.go:96-98 | A receipt keeps the id it comes with and gets the new one otherwise |
| `Rotation.SavedIff` | internal/receipts/store.go:92-128 | A save succeeds exactly when none of its file operations fails |
| `Rotation.WrittenTold` | internal/receipts/store.go:107-128 | What a save adds to the log, byte for byte, in each way it can end |
| `Rotation.FirstCounted` | internal/receipts/store.go:92-128 | The first fine saves into an empty store, up to the limit, are all counted and nothing is archived |
| `Rotation.FirstSaves` | internal/receipts/store.go:92-128 | All of them can be looked up, each id with the last receipt saved under it |
| `Rotation.OpenFailsIff` | internal/receipts/store.go:149-181 | A log cannot be opened exactly when it has a line of 1048576 bytes or more, or a corrupt line and not one receipt |
| `Enforcer.Gate.constructor` | internal/shim/enforcer.go:69-122 | An unknown mode becomes enforced, an empty one stays empty |
| `Enforcer.Gate.PermitDecision` | internal/shim/enforcer.go:131-138 | Only allow and allow with redaction permit |
| `Enforcer.Gate.ShouldAllow` | internal/shim/enforcer.go:140-148 | A permitting decision or observe mode |
| `Enforcer.Gate.RecordDecisionEvent` | internal/shim/enforcer.go:300-322 | One event with the action, the decision and whether it was allowed |
| `Enforcer.Gate.ExecuteRequest` | internal/shim/enforcer.go:154-178 | One event, then the effect exactly if allowed; the answer in each case, a failing effect's partial output included |
| `Enforcer.Gate.ExecuteShell` | internal/shim/enforcer.go:190-206 | The block of a shell call, or nothing but an error without a runner |
| `Enforcer.Gate.ExecuteCommand` | internal/shim/enforcer.go:274-298 | The block of an adapter call, or nothing but the first argument error |
| `Enforcer.Gate.ReadFile` | internal/shim/enforcer.go:208-231 | The block of a read, and output redacted exactly when the decision says so and the read succeeded |
| `Enforcer.Gate.WriteFile` | internal/shim/enforcer.go:233-272 | The block of a write, whose effect carries the data or its redaction |
| `Enforcer.ApplyRedaction` | internal/shim/enforcer.go:326-336 | The given findings, or those of a scan, rewritten by the plan |
| `Enforcer.JournalIsPaired` | internal/shim/enforcer.go:154-178 | In every run each effect directly follows an event that allows it, and each allowing event is followed by its effect |
| `Enforcer.OneEventPerCall` | internal/shim/enforcer.go:300-322 | In every run each call records exactly one event, in order, whatever came of it |
| `Enforcer.EffectsInOrder` | internal/shim/enforcer.go:154-178 | In every run the effects are exactly those of the calls let through, each with its own data, in order |
| `Enforcer.ObserveSuppressesNothing` | internal/shim/enforcer.go:140-152 | In observe mode without enforced errors the effects of a run are those of all its calls |
| `Enforcer.ModesMeanWhatTheySay` | internal/shim/enforcer.go:140-178 | For every mode: a decision lets an action through exactly if it permits it or the mode is observe, a failed check exactly if neither the mode is enforced nor errors are |
| `Enforcer.UnsetModeFailsOpen` | internal/shim/enforcer.go:115-152 | Over any calls a gate without a mode lets the same ones through as an enforced one exactly when errors are enforced or no check failed |
| `Rulings.EveryEventTold` | internal/shim/enforcer.go:154-178 | In every run the k-th event is that of the k-th call: who asked for what, what was decided and whether it went ahead, a failed check included |
| `Rulings.EveryEffectTold` | internal/shim/enforcer.go:154-298 | In every run the effects are, in order, what each call let through does, a write with its data redacted when the service said so |
| `Rulings.AnswerTold` | internal/shim/enforcer.go:154-178 | What the caller gets back in each case |
| `Rulings.ReadTold` | internal/shim/enforcer.go:208-231 | What a read shows: its content, redacted by scanning it when the service said so, or the partial output of a failure as it is |
| `ShellQuote.QuotedIsOneWord` | cmd/datafog-shim/main.go:727-730 | Read by the quoting rules of sections 2.2.1 and 2.2.2 of the POSIX.1-2017 Shell Command Language, a quoted value is one word with exactly that value, whatever it contains |
| `ShellQuote.AssignmentIsOneWord` | cmd/datafog-shim/main.go:689-693 | So is an assignment of a quoted value |
| `ShimScript.ReadShimMetadata` | cmd/datafog-shim/main.go:622-674 | The line loop computes the specified reading, and fails as a whole on an over-long line |
| `ShimScript.ReadOne` | cmd/datafog-shim/main.go:633-668 | What one line does to the metadata and the managed flag |
| `ShimScript.ReadMetaLine` | cmd/datafog-shim/main.go:644-668 | A metadata line sets its field to the value without surrounding space, further equals signs included |
| `ShimScript.ScriptRead` | cmd/datafog-shim/main.go:622-720 | With single-line metadata the script reads as the trimmed metadata followed by the lines of the binary's path: nothing else in it is mistaken for metadata |
| `ShimScript.ReadBuild` | cmd/datafog-shim/main.go:622-720 | For single-line arguments the script reads back, as managed, exactly when its lines are within the reader's limit, and then with trimmed arguments |
| `ShimScript.ReadIsClean` | cmd/datafog-shim/main.go:622-674 | Whatever the file, the reader returns single-line values without surrounding space |
| `ShimScript.RoundTrip` | cmd/datafog-shim/main.go:622-720 | For all arguments the round trip is exact exactly when the metadata are single lines without surrounding space, all lines are within the reader's limit, and no line of the binary's path changes what was read |
| `Wrapper.ScriptTold` | cmd/datafog-shim/main.go:676-720 | The parts of the script in order, each line ended by a newline |
| `Wrapper.MetadataTold` | cmd/datafog-shim/main.go:681-687 | Its seven metadata lines |
| `Wrapper.BinaryTold` | cmd/datafog-shim/main.go:689-689 | A shell reads the line of the binary as one word, the variable and the installed path |
| `Wrapper.ModeTold` | cmd/datafog-shim/main.go:690-690 | Likewise the mode |
| `Wrapper.PolicyTold` | cmd/datafog-shim/main.go:691-691 | Likewise the policy service |
| `Wrapper.SinkTold` | cmd/datafog-shim/main.go:692-692 | Likewise the event sink |
| `Wrapper.ErrorsTold` | cmd/datafog-shim/main.go:693-693 | Likewise the option to enforce errors |
| `Wrapper.OverridesTold` | cmd/datafog-shim/main.go:694-706 | Each of the four settings gives way to the environment variable of its own name |
| `Wrapper.ExecTold` | cmd/datafog-shim/main.go:707-716 | The command and its options, line by line |
| `Wrapper.DoubleQuotedIff` | cmd/datafog-shim/main.go:722-725 | Read by section 2.2.3 of the POSIX.1-2017 Shell Command Language, a value escaped for double quotes is itself exactly when it has no expansion and no backslash before a character that a backslash escapes |
| `Wrapper.OptionReadIff` | cmd/datafog-shim/main.go:708-709 | So adapter and target reach the command, without surrounding space, exactly when they are of that kind |
| `Wrapper.LimitTold` | cmd/datafog-shim/main.go:631-672 | A file is read exactly when each of its lines takes less than 65536 bytes |
| `Wrapper.MarkerTold` | cmd/datafog-shim/main.go:637-640 | The marker line makes a file a managed one and says nothing else |
| `Wrapper.OtherTold` | cmd/datafog-shim/main.go:634-648 | A line that is neither the marker nor metadata with an equals sign says nothing |
| `Wrapper.TextsTold` | cmd/datafog-shim/main.go:644-663 | A metadata line sets the text field of its name, and no other |
| `Wrapper.OptionTold` | cmd/datafog-shim/main.go:664-667 | The option is set by the words for true and false, by an empty value to false, and by nothing else |
| `Pipeline.Server.constructor` | internal/server/server.go:100-106 | The server sorts its rules when it starts |
| `Pipeline.Server.HandleDecide` | internal/server/server.go:412-488 | The reply to a decide request without an idempotency key, which is all the gate sends, with its four error cases, evaluated on given or scanned findings |
| `Pipeline.DefaultPlanCovers` | internal/policy/policy.go:279-305 | The default plan rewrites exactly the default entity types |
| `Pipeline.DefaultPlanTakesAll` | internal/policy/policy.go:279-291 | It selects every finding of a scan |
| `Pipeline.OneKindIsDisjoint` | internal/scan/detector.go:78-115 | A scan of a valid text that found a single type, or only names, is disjoint |
| `Pipeline.DecisionByRules` | internal/server/server.go:436-440 | The decision of the endpoint read off the policy rule by rule |
| `Pipeline.ReplyTold` | internal/server/server.go:412-488 | Each error reply with its text, and the evaluation of given findings, or of a scan when none are given, under the id of the saved receipt |
| `Pipeline.EnforcedWrite` | internal/shim/enforcer.go:233-272 | An enforced write decided by the service reaches the file exactly when the receipt was saved and some matching rule allows and none denies or transforms; it stores the data, or its redaction by the default plan if a matching rule asks for one |
| `Pipeline.EnforcedRead` | internal/shim/enforcer.go:208-231 | An enforced read shows the content under the same condition, redacted by a scan of what was read if a matching rule asks for it, and otherwise nothing |
| `Pipeline.RedactedIsOnePass` | internal/shim/enforcer.go:259-263 | A redacted write with disjoint planned findings stores the one-pass rewrite of every finding in range of the eleven default types |
| `Pipeline.ScannedRedaction` | internal/shim/enforcer.go:326-336 | When the gate scans for itself and the findings do not overlap, all of them in range are rewritten in one pass |
| `Pipeline.ValidScanFits` | internal/scan/detector.go:78-115 | In a valid text those are all findings that are not empty |
| `Pipeline.OneKindRedaction` | internal/shim/enforcer.go:326-336 | In particular in a valid text with findings of a single type, or only names |
| `Pipeline.KeyTailStored` | internal/shim/enforcer.go:326-336 | With overlapping findings redaction by the default plan can store a byte of a key |
| `Pipeline.KeyHeadStored` | internal/shim/enforcer.go:326-336 | It can pass a key over and store its first bytes, because a card number in it was redacted |
| `Pipeline.CardTokenStored` | internal/shim/enforcer.go:326-336 | A card number that also reads as a phone number is stored by the default plan as the phone's 12-byte token alone |
| `Pipeline.RedactedWriteHides` | internal/shim/enforcer.go:326-336 | What redaction makes of data, on given findings or those of a scan, does not depend on the redacted values beyond what the default modes show |
| `Pipeline.RedactedReadHides` | internal/shim/enforcer.go:208-231 | An enforced read to be redacted answers the same for two contents that differ only in such values |

## Left out

- HTTP routing, CORS, authorization, body limits, JSON decoding, request ids, tenant and session fields, logging and the HTTP client: plumbing. A handler starts from a decoded request, and a failed decode or transport appears as a failed check.
- The regular expressions: an oracle that returns, per entity type, ordered disjoint spans within the text, as the engine's documentation promises.
- SHA-256 and hexadecimal printing: any function with 64 lower-case hexadecimal digits; for the idempotency caches any function, injective only where a theorem says so. Receipt ids and archive names are inputs.
- JSON: a receipt codec whose decoder inverts its encoder and whose lines have no newline. Response bodies are values.
- Clock and floating point: times are inputs, tokens and averages are real numbers without rounding. Counters do not wrap around at 64 bits.
- Dictionaries, character classes, case folding and the adapter alias table: arbitrary functions, since the theorems hold for any contents. The shim script reader's white space is spelled out.
- The library's sorting algorithm: an in-place insertion sort stands for it; StableSort.StableSortUnique shows that any stable sort gives the same result.
- Go map iteration order and `sync` mutexes: an arbitrary choice of the next key, and atomic critical sections.
- The file system: one log and its archives as byte sequences, with torn writes, failed syncs, renames and opens as outcomes. Whether directory and file can be made and opened is a single outcome of NewReceiptStore.
- LoadPolicyFromFile and ValidatePolicy: input validation before evaluation. Rules with an effect outside the four known ones are in the model, since evaluation skips them.
- Environment and flag resolution, hook installation and removal, target lookup, event files, the demo and the events endpoint: input and output, or too shallow.
- ShimScript.ReadBuild: single-line arguments only; ShimScript.RoundTrip covers all. The shell's own execution of the script is not modelled beyond the quoting of its assignments and options.
- ShellQuote.QuotedIsOneWord: the shell is read only as far as words with single quotes and backslashes; expansions and double quotes end the reading.
- Wrapper.DoubleQuotedIff: expansions inside double quotes are not evaluated; a value that has one is not read as itself.
- Pipeline.ScannedRedaction: overlapping findings are outside it, since the one-pass law then need not hold (Rewriting.OverlapBreaksOnePass, Pipeline.KeyTailStored); Rewriting.TransformLength and Survival.SurvivingBytes cover them.
- Enforcer.Gate.RecordDecisionEvent: does not carry the timestamp, nor the request and trace ids, which the gate's requests leave empty.
- ShimScript.ReadShimMetadata: reads a file as code points; one that is not valid UTF-8 has no counterpart.
- Idempotency: the transform endpoint trims the keys of its mode map while iterating it (internal/server/server.go:521-535); if two become equal, plan and payload hash depend on the order of iteration, and the same request can be refused. A request's payload in the model is what comes out of that step. The error replies before lookup, to malformed or unhashable requests, are not in the protocol either.
- Pipeline.Server.HandleDecide: the receipt's contents and the key lookup are not in this handler; lookup and publication are the subject of the Idempotency module, saving that of Receipts.
