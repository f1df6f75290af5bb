# metry: a verified model of its recording core

metry records GenAI operations as spans and metrics: it sanitizes and bounds payloads, keeps the
number of metric series within a budget, accounts each operation once, carries trusted values
between processes, and hands out continuation tokens. This project models that logic in Dafny and
proves what the library promises about it. Spans and instruments are logs of what is written to
them; the OpenTelemetry SDK, clocks and hashing are parameters.

Strings are byte sequences (`Bytes`), so UTF-8 validity is a property to prove and not a type.
JSON is modelled at three levels: tokens (`JsonText`, `JsonStrings`), trees with numbers kept as
lexemes (`JsonTree`), and the library's decoder with its byte, depth and node limits
(`JsonDepth`, `JsonDecode`), following RFC 8259, sections 2 to 7, and RFC 3629 for UTF-8.

The main results, by part of the library:

* **Payloads.** What is recorded of a payload, a tool result or retrieved documents is, field by field,
  the longest prefix that fits of what the policy makes of them (`RecordedPayloads`,
  `RecordedToolResults`, `RecordedDocuments`, `BoundedJson`). It is always accepted by the independent
  evidence checker of the same configuration (`Evidence`, `EvidenceCompleteness`, `ToolPayload`,
  `RetrievalDocuments`), which refuses everything outside its contract (`EvidenceMeaning`). Whether
  sanitizing makes an accepted payload fail is decided by its bytes alone, counted before it is
  sanitized (`PayloadBounds`, `PayloadGuards`). A redacted payload tells its skeleton and nothing else
  (`Sanitize`, `Protection`).
* **Series budget.** For every validated profile and every interleaving of the library's recorders,
  the series exported per instrument, overflow included, stay within the budget, the first ones that
  fit are let through, and no total moves between currencies, sources or outcomes (`Cardinality`,
  `Admission`, `Recorder`, `RecordedAmounts`, `Tracking`).
* **Handles.** Over every interleaving of starts, finishes, closes, updates and panicking callbacks
  a span ends exactly once, refused calls can be struck from the run, and the exported usage is the
  sum of the committed physical operations (`Handles`, `HandleRuns`, and call by call in
  `HandleRecords`; the classes that callers hold are in `RecordingHandles`). The auditor of that usage
  accepts exactly what the recorder writes (`Accounting`, `AuditMeaning`).
* **Trusted values.** Injecting and then extracting hands over exactly the values that both policies
  admit and that fit, and no carrier can change a local value (`Baggage`, `Ledger`, `Propagation`, `Transport`,
  `Enrichment`, `MapCarrier`).
* **Tokens.** Every valid handle and captured snapshot fits its token and comes back from it
  (`Base64`, `Tokens`, `AsyncHandle`, `AcceptedHandles`, `TraceSnapshots`).

Some statements are sharper than what the code suggests, because the plain form is false; each
comes with an input that shows it:

* Sanitizing can make an accepted payload fail, under redaction with schema keys only: kept keys
  keep their length while the values below them grow. The exact condition is two byte guards over
  the decoded input (`PayloadGuards.SecondValidationIsBytes`, `PayloadGuards.KeptKeysCanOutgrow`).
* Redacting a text twice equals redacting it once exactly when the text can be decoded and the
  bytes of its redaction, counted on the decoded value, are within the input bound. An undecodable
  text becomes `{"redacted":true}`, which a second pass redacts again
  (`PayloadGuards.RedactingTwiceIsOnce`, `PayloadGuards.RedactingTwiceCanDiffer`).
* A metric value keeps its bound of 80 bytes exactly when no kept character of the input lies across
  byte 80 or, when none is kept, the fallback keeps it; the character that reaches the bound is
  written whole, so 83 bytes are possible (`MetricNames.BoundHoldsExactly`, `MetricNames.BoundIsCrossed`).
* An accepted snapshot has a token of its own exactly when its escaped fields fit one: an accepted
  token may spell raw what writing escapes (`TraceSnapshots.ParsedSnapshotsTravel`,
  `TraceSnapshots.AcceptedSnapshotCanOutgrow`).
* The reserve for cost covers more than can be recorded when a profile declares a currency that no
  valid usage can name; otherwise each reserved series is produced (`SeriesReach.ProducedExactly`).
* The auditor refuses the recorder's own evidence when the token components of a valid usage
  together leave int64; `Accounting.OverflowingComponentsAreRefused` gives such a usage.
* A detached recording whose validated options carry sixteen links is refused exactly when its
  origin and the sixteen are enabled and pairwise different (`CausalLinks.RefusedExactlyAtSeventeenSpans`,
  `CausalLinks.SixteenValidLinksCanBeRefused`).

`dafny verify dfyconfig.toml` checks the whole project.

## Model

| member | source | states |
|---|---|---|
| Truncation.TruncateAtRuneBoundary | genai/helpers.go:91-102 | backs up to a byte that starts a character: the result is a prefix within the limit |
| Truncation.TruncateContext | genai/helpers.go:77-89 | for every byte string the result is valid UTF-8 of at most limit bytes |
| Truncation.TruncatedIsLongest | genai/helpers.go:77-89 | valid over-long text keeps its longest rune-aligned prefix that leaves room for the suffix, followed by the suffix; a limit within the suffix length drops the suffix |
| Truncation.CutIsValid | genai/helpers.go:98-101 | a cut through valid text is valid exactly at a byte that starts a character |
| JsonStrings.EscapeLex | internal/traceutil/token.go:10-18 | a written string reads back as its meaning, malformed bytes as U+FFFD, with and without HTML escaping |
| JsonStrings.HtmlLex | genai/bounded_json.go:27-30 | respelling an embedded string with HTML escapes does not change its meaning |
| JsonStrings.HtmlValid | genai/bounded_json.go:27-30 | respelling keeps well-formed text well formed |
| JsonStrings.EscapePrintableLength | internal/traceutil/token.go:8-18 | without HTML escaping printable text at most doubles |
| JsonTree.ParseOfSyms | genai/lossless_json.go:20-28 | the parser reads back the tokens of any tree, leaving the rest untouched |
| JsonTree.SymsOfParse | genai/lossless_json.go:20-28 | whatever the parser accepts is exactly the tokens of the tree it returns |
| JsonTree.MarshalParse | genai/bounded_json.go:27-30 | whatever is marshalled, embedded raw JSON included, parses back to the value that was written |
| JsonDepth.BoundedJSONDepth | genai/payload_policy.go:307-338 | the loop over characters, with its in-string and escape flags, decides the nesting limit |
| JsonDepth.ScannerDecidesDepth | genai/payload_policy.go:307-338 | the scanner accepts a JSON text exactly when the structural depth of its value is at most 32, whatever quotes, backslashes and brackets its strings hold |
| JsonDecode.JsonNodesWithinBudget | genai/lossless_json.go:37-57 | succeeds exactly when the nodes fit the budget, leaves budget minus nodes on success and -1 on failure, in whatever order members are visited |
| JsonDecode.DecodePayloadJSON | genai/lossless_json.go:13-35 | accepts exactly the texts within the byte, depth and node limits that are valid UTF-8 JSON, and tells limit errors from encoding errors |
| JsonDecode.InsertAllIsMap | genai/lossless_json.go:20-28 | reading an object is last-wins assignment to a map, kept in key order |
| JsonDecode.DecodeSound | genai/lossless_json.go:13-35 | every accepted value is well formed, canonical, within both limits, and printing it keeps it |
| JsonDecode.PrintParse | genai/bounded_json.go:27-30 | printing a value that was read and parsing it again changes nothing, number lexemes included |
| JsonDecode.DecodeOfText | genai/bounded_json.go:27-44 | decoding what was marshalled gives the value back exactly when it is within the byte, depth and node limits |
| JsonLength.LengthIsTextLength | genai/bounded_json.go:56-60 | the length used by the searches is the length of the written text |
| BoundedJson.BoundedJSONArray | genai/bounded_json.go:223-266 | the binary search over whole elements finds the longest prefix that fits |
| BoundedJson.ArrayTruncation | genai/bounded_json.go:223-266 | the result is a valid JSON array within the limit, decodes to the longest prefix whose re-encoding fits, and is flagged exactly when an element was dropped |
| BoundedJson.BoundedJSON | genai/bounded_json.go:23-67 | the binary search finds the largest envelope that meets the byte, node and depth limits together |
| BoundedJson.FitsMonotone | genai/bounded_json.go:48-64 | a shorter prefix never fits less well, which is what the search relies on |
| BoundedJson.BoundedRepresents | genai/bounded_json.go:23-89 | the result is the original text when it fits, else the envelope of the largest element or sorted-key prefix, else the marker; it is valid, within the limit, and a cut text decodes to exactly that |
| Sanitize.SanitizeBounds | genai/payload_policy.go:283-305 | sanitizing keeps a value well formed and never adds nodes or depth |
| Sanitize.SanitizedLength | genai/payload_policy.go:283-305 | without schema keys the result costs at most 74 bytes a node |
| Sanitize.RedactionIsShape | genai/payload_policy.go:283-305 | two values redact alike exactly when they have the same allowlisted skeleton: redaction is non-interfering |
| Sanitize.RedactionIsComplete | genai/payload_policy.go:283-305 | only allowlisted keys and the constant leaf survive, and values of that form are the fixed points |
| Sanitize.RedactionIdempotent | genai/payload_policy.go:340-342 | redacting a redacted value changes nothing |
| Sanitize.SanitizedTextDecodes | genai/payload_policy.go:267-281 | sanitized text decodes to the sanitized value unless it outgrew the input bound |
| PayloadGuards.RedactingTwiceIsOnce | genai/payload_policy.go:267-281 | redacting a text twice is redacting it once exactly when the text decodes and the bytes of its redaction, counted on the decoded value, are within the input bound |
| PayloadGuards.RedactingTwiceCanDiffer | genai/payload_policy.go:267-281 | an undecodable text, and a decodable one whose redaction outgrows the bound, that a second pass changes |
| Protection.TextsAreShown | genai/payload_policy.go:154-225 | contents, names and identities are shown as they are, as the constant or as the fingerprint of exactly that text; a kind literally only if it is in the vocabulary |
| Protection.RolesAreShown | genai/payload_policy.go:119-152 | a role outside the vocabulary takes the form of the policy, and no message or part is lost |
| Protection.RawIsHashed | genai/payload_policy.go:227-241 | hashed JSON keeps its arrays and holds the fingerprint of the canonical text of every other value that was read |
| Protection.HashingSeparates | genai/payload_policy.go:283-305 | unless fingerprints of their leaves collide, hashed values are equal exactly when the values are |
| Protection.RedactedPayloadIsSkeleton | genai/payload_policy.go:57-76 | two payloads are redacted alike exactly when they have the same messages, parts, vocabulary, present texts and JSON shapes: nothing else is told |
| Protection.AcceptedDecodes | genai/payload_policy.go:57-76 | every accepted payload is one of these |
| Payload.InputBudget.AddParts | genai/bounded_json.go:137-163 | accepts exactly the parts within the entry and byte budgets whose strings and embedded JSON are valid, and charges both budgets |
| Payload.AddMessages | genai/bounded_json.go:105-115 | message lists draw on one shared budget; the rule is an encoding error exactly when a role is the first thing wrong |
| Payload.ValidatePayloadChannels | genai/bounded_json.go:122-133 | accepts exactly when every channel decodes; the rule is an encoding error exactly when the first failing channel cannot be written |
| Payload.ValidatePayloadEncodingBounds | genai/bounded_json.go:92-117 | accepts exactly the payloads within the shared budgets whose channels decode, and tells encoding errors from size errors by what is wrong first |
| PayloadRules.AcceptedMeans | genai/bounded_json.go:92-176 | accepted exactly with at most 4096 entries and parts and 1 MiB of text over all channels, every part valid text with readable JSON and, as input, no inline media, every role text and every channel writable and readable |
| PayloadBounds.EmptyResponsesCannotBeWritten | genai/bounded_json.go:122-127 | accepted parts fail to encode exactly when one has a present but empty response |
| Payload.BuildPayloadAttributes | genai/helpers.go:234-266 | validation, sanitizing, second validation and bounding, with a truncation marker for each cut channel |
| RecordedPayloads.PayloadIsRecorded | genai/helpers.go:246-265 | of a recorded payload each non-empty channel has exactly one text, which decodes to the longest fitting prefix of one object for each sanitized part or message, followed by a marker exactly when some are left out; an empty channel has nothing |
| RecordedPayloads.ChannelsInOrder | genai/helpers.go:246-265 | the attributes are those of the three channels, in that order |
| RecordedPayloads.PartIsObject | genai/helpers.go:42-49 | a written part reads back as the object of exactly its fields, empty identities and arguments left out |
| RecordedPayloads.MessageIsObject | genai/helpers.go:52-71 | a written message reads back as the object of its role and its parts |
| PayloadWire.RewriteSame | genai/bounded_json.go:27-30 | embedding text that was already written leaves every byte of it as it is |
| PayloadWire.ReadObject | genai/conformance_evidence.go:496-521 | an object written with distinct keys is read back member for member |
| PayloadBounds.SanitizingStaysInBudget | genai/payload_policy.go:193-232 | if a payload passes input validation, hashing it or redacting it without schema keys passes the second validation |
| PayloadBounds.RawStaysInBudget | genai/payload_policy.go:43-58 | the raw policy passes the second validation too |
| PayloadGuards.SafeLengthExact | genai/payload_policy.go:267-305 | the bytes of a sanitized value, kept keys and escapes included, computed on the value itself |
| PayloadGuards.SecondValidationIsBytes | genai/helpers.go:241-244 | under every protecting policy an accepted payload passes the second validation exactly when its counted bytes and each encoded channel, measured on the input, are within the bound; without schema keys they always are |
| PayloadGuards.RecordingSucceedsExactly | genai/helpers.go:234-266 | recording succeeds exactly for payloads that input validation accepts and whose byte guards hold, under every built-in policy |
| PayloadGuards.KeptKeysCanOutgrow | genai/payload_policy.go:254-281 | a concrete payload, accepted as input, that redaction with one schema key of 80 bytes cannot record |
| Evidence.ExporterSatisfiesChecker | genai/conformance_evidence.go:137-170 | every value the exporter emits, truncated or not, is accepted by the checker under the configuration's own contract: size, depth, nodes, array shape, part vocabulary and enums |
| EvidenceMeaning.EvidenceMeans | genai/conformance_evidence.go:137-170 | the checker accepts exactly a bounded JSON array whose items have their required keys, no unknown one and texts in place, and whose kinds and roles are of the vocabulary or in the form of the declared policy; a custom policy shows only the vocabulary |
| EvidenceMeaning.RedactedWordsAreFixed | genai/conformance_evidence.go:362-389 | under a redacting contract exactly the kinds and roles pass that redaction leaves as they are |
| EvidenceMeaning.ContractIsOwn | genai/contract.go:23-27 | the contract of a configuration is raw only when raw content is recorded, and names its own policy and limit |
| EvidenceCompleteness.CompletePayloadEvidence | genai/conformance_evidence.go:108-135 | evidence is complete exactly when payloads are distinct fields, markers accompany their payloads and no controlled field lacks one |
| EvidenceCompleteness.ExporterEvidenceIsComplete | genai/conformance_evidence.go:108-135 | what the exporter emits is always complete evidence |
| ToolPayload.ValidateToolJSONInput | genai/bounded_json.go:179-195 | the checks run in order on one text and report the first rule |
| ToolPayload.ToolInputMeaning | genai/bounded_json.go:179-195 | nothing is wrong exactly with blank text, decodable JSON and text that neither is nor looks like JSON within the scan bounds; what exactly each rule means |
| ToolPayload.ToolInputOnJson | genai/bounded_json.go:187-190 | JSON is accepted exactly within the byte, depth and node bounds and as valid UTF-8 |
| ToolPayload.BoundedToolJSON | genai/bounded_json.go:197-211 | JSON is bounded as it is, plain text as a JSON string |
| ToolPayload.ToolSatisfiesChecker | genai/tool.go:112-129 | every recorded tool payload is accepted by the checker and stands for the sanitized value or its largest prefix |
| RecordedToolResults.ToolResultIsProtected | genai/tool.go:112-129 | a text leaves an attribute exactly when recording is on, the check finds nothing wrong with it and what the policy shows of it can be read and is not empty; the attribute is what is shown or its largest prefix |
| RecordedToolResults.SafeShown | genai/payload_policy.go:267-281 | what a protecting policy shows of a tool text can be read exactly when its bytes, counted on the text, are within the input bound |
| EvidenceMeaning.ToolEvidenceMeans | genai/conformance_evidence.go:137-156 | a tool payload is accepted exactly as JSON in valid UTF-8 within the limit of the contract and the byte, depth and node limits |
| RetrievalDocuments.PrepareRetrievalDocuments | genai/retrieval_documents.go:18-46 | accepts exactly results with bounded valid references and finite scores whose encoding is within the limits |
| RetrievalDocuments.ProtectRetrievalDocuments | genai/retrieval_documents.go:48-55 | every reference is protected in place and every score kept |
| RetrievalDocuments.ProtectedDocumentsEncode | genai/retrieval.go:124-140 | once documents are accepted, protecting and bounding them cannot fail |
| RetrievalDocuments.RetrievalSatisfiesChecker | genai/conformance_evidence.go:438-465 | the recorded documents are accepted by the checker |
| EvidenceMeaning.RetrievalEvidenceMeans | genai/conformance_evidence.go:438-465 | documents are accepted exactly as a bounded array of objects of the four keys, references as texts and the score as a number |
| RecordedDocuments.DocumentsAreRecorded | genai/retrieval.go:124-140 | the text of an accepted result decodes to the longest fitting prefix of its documents, scores unchanged and every reference the fingerprint of the caller's unless the policy is raw |
| ReferencePolicy.Metadata | genai/reference_policy.go:35-58 | a name stays non-empty, over-long text is redacted, and anything else that is changed becomes a fingerprint, never under the raw policy |
| ReferencePolicy.ToolNamesAgree | genai/reference_policy.go:20-31 | the tool name of a span is a fixed point of the clean-up that its metric applies again: both carry the same non-empty name |
| ReferencePolicy.ToolName | genai/reference_policy.go:20-31 | the cleaned name under the raw policy or when a dimension of the profile lists it, else the placeholder |
| Utf8.WidthDecodes | genai/recorder.go:596-599 | every well-formed character is the encoding of the scalar it decodes to, so a kept character is written back as its own bytes |
| Utf8.EncodeDecodes | genai/recorder.go:596-599 | an encoded scalar decodes back whatever follows it |
| MetricNames.SanitizeMetricValue | genai/recorder.go:590-611 | the loop over characters writes what the specified clean-up of the trimmed text writes, and stops at the bound |
| MetricNames.MetricValueIsTidy | genai/recorder.go:590-611 | the result is non-empty valid UTF-8 of letters, digits and four marks, at most three bytes over the bound |
| MetricNames.CleaningIsIdempotent | genai/recorder.go:590-611 | cleaning a cleaned value changes nothing |
| MetricNames.CharacterIsWritten | genai/recorder.go:596-609 | a letter, a digit or one of four marks is kept, white space becomes an underscore, any other character is dropped |
| MetricNames.AllWrittenConcat | genai/recorder.go:596-609 | characters are written independently, one after the other |
| MetricNames.CleanedIsPrefix | genai/recorder.go:603-605 | the value is a prefix of what all characters write, and all of it below the bound |
| MetricNames.TrimSpaceDrops | genai/recorder.go:591 | trimming begins at a character that is not white space, ends with one, and leaves alone what does both |
| MetricNames.BoundHoldsExactly | genai/recorder.go:590-611 | the value is within 80 bytes exactly when no kept character of the trimmed input lies across byte 80 or, when none is kept, the fallback is within them |
| MetricNames.BoundIsCrossed | genai/recorder.go:603-605 | a name of 83 bytes that the bound of 80 lets through |
| Cardinality.ValidateDimensions | genai/profile.go:134-151 | accepts exactly distinct known dimensions with bounded values |
| Cardinality.ValidateProfile | genai/profile.go:115-160 | accepts exactly profiles with a bounded policy identity whose budget is in range and leaves room beyond every currency and source |
| Cardinality.MetricDimensions.constructor | genai/cardinality.go:28-43 | the allocator starts empty with the value sets of the profile |
| Cardinality.MetricDimensions.Normalize | genai/cardinality.go:45-87 | one call admits the combination or overflows, as the specified step does |
| Cardinality.ReserveCovers | genai/cardinality.go:89-105 | the reserve of each instrument is exactly the number of its semantic series, given a declared currency for cost |
| SeriesReach.ProducedExactly | genai/cardinality.go:89-105 | valid recordings of a named operation produce exactly the semantic series of an instrument, those of cost in the declared currencies that a usage can name: none of them is reserved in vain |
| Cardinality.ReserveLeavesRoom | genai/profile.go:153-160 | under a valid profile every reserve is below the budget |
| Cardinality.SeriesBudgetHolds | genai/cardinality.go:45-105 | over every run the series ever exported for an instrument, overflow included, never exceed the budget |
| Admission.FirstSeriesAreAdmitted | genai/cardinality.go:45-87 | over every run from a fresh allocator a write keeps its own normalized attributes exactly when the different series of its instrument, up to the first appearance of its own, fit the budget beside the reserve; otherwise its meaning and the overflow mark remain |
| Admission.OverflowIsMarked | genai/cardinality.go:82-89 | the overflow mark stands exactly on the writes that had no room |
| Cardinality.AdmittedStays | genai/cardinality.go:73-75 | a combination once admitted is never overflowed later |
| Cardinality.OutputKeepsMeaning | genai/cardinality.go:45-87 | neither normalization nor overflow changes a semantic key |
| Cardinality.TotalsConserved | genai/cardinality.go:45-87 | over every run the total per tuple of semantic keys is the same after normalization as before |
| Cardinality.OutputRevealsOnlyAllowed | genai/cardinality.go:53-68 | only semantic values, declared values and placeholders leave the allocator |
| Recorder.RecordingsAreLibraryWrites | genai/helpers.go:346-454 | every write of a validated recording uses a semantic series that the reserve accounts for |
| Recorder.ComponentsKeepTheirAmounts | genai/helpers.go:368-391 | each token component is recorded under its own type and source with its own amount, and nothing else is |
| Recorder.CostKeepsItsCurrency | genai/helpers.go:393-403 | a cost is recorded in its own currency and source and nowhere else |
| RecordedAmounts.SourcesKeepTheirAmounts | genai/helpers.go:346-426 | input, output and video amounts are recorded on their own instruments under their own source, and nowhere else |
| RecordedAmounts.OperationIsLabelled | genai/helpers.go:456-528 | the shared labels are exactly the provider, the operation, the models and the server, each text in the form the metadata policy gives it |
| RecordedAmounts.UsageIsLabelled | genai/helpers.go:346-426 | every usage write carries exactly the shared labels, its source, and the type of its component or the purpose and currency of its cost |
| RecordedAmounts.DurationIsLabelled | genai/helpers.go:428-454 | a duration is recorded once, under exactly the shared labels, its outcome and the class of its error |
| RecordedAmounts.StreamingIsLabelled | genai/metrics.go:43-99 | streaming writes carry exactly the shared labels, the derived ones also their source and calculation |
| RecordedAmounts.FirstTokenIsKept | genai/metrics.go:43-99 | the first token is recorded exactly when it was observed, with its own delay |
| RecordedAmounts.RatesAreDerived | genai/metrics.go:43-99 | the rate times the window after the first token is the output, the interval times the gaps between the tokens is the window, and without window or tokens nothing is derived |
| RecordedAmounts.ToolIsLabelled | genai/tool.go:131-160 | a tool call of positive duration is recorded once, under its name, outcome and class |
| Recorder.DurationKeepsItsOutcome | genai/helpers.go:428-454 | a duration is recorded under its own outcome, on the standard instrument only for a remote interval the caller observed |
| Recorder.InvocationKeepsItsBoundary | genai/invocation.go:308-322 | an invocation is recorded under its own kind, locality and outcome, and nowhere else |
| Tracking.InterleavingsStayWithinBudget | genai/cardinality.go:107-112 | the series budget holds for every interleaving, write by write, of validated recordings |
| UsageValidation.Validate | genai/usage.go:81-133 | accepts exactly valid usage, and otherwise names the first wrong field with the rule it breaks |
| Tracking.Tracker.ValidateUsage | genai/usage.go:135-145 | accepts exactly valid usage whose cost is in a declared currency |
| Tracking.Tracker.RecordUsageMetrics | genai/helpers.go:346-426 | asks for exactly the usage writes, in order, and keeps log and allocator in step |
| Tracking.Tracker.RecordOperationDuration | genai/helpers.go:428-454 | asks for the duration write of a positive interval, on the instrument of its locality |
| Tracking.Tracker.RecordInteraction | genai/helpers.go:161-188 | writes usage and duration when accounting, and nothing otherwise |
| Tracking.Tracker.RecordStreamingQuality | genai/metrics.go:43-99 | asks for the first-token write and, for a positive window with tokens, the derived ones |
| Tracking.Tracker.RecordToolDuration | genai/tool.go:131-160 | asks for the duration write of a positive interval under the cleaned tool name |
| Tracking.Tracker.RecordInvocationDuration | genai/invocation.go:308-322 | asks for one write with kind, locality and outcome |
| Accounting.AccountingMap | genai/conformance_evidence.go:276-302 | succeeds exactly for sound measurements of distinct known instruments |
| Accounting.MapOfHolds | genai/conformance_evidence.go:276-302 | the map of coherent evidence gives back every item |
| Accounting.UsageAccountingMatches | genai/conformance_evidence.go:304-342 | the loops decide the specified match, overflow check included |
| RecordedAmounts.UsageReports | genai/conformance_evidence.go:304-342 | a usage reports each measurement on its own instrument, once if present, and the three components together |
| Accounting.AuditorAcceptsRecorder | genai/conformance_evidence.go:304-342 | for valid usage of a named operation the auditor accepts exactly the evidence that repeats, instrument by instrument, the count and total of the recorder's writes, and only if the token components together fit int64 |
| Accounting.ValidAccounting | genai/conformance_evidence.go:244-274 | passes exactly when expectation and observation are the same coherent map and match the usage, or are silent for a boundary without accounting |
| AuditMeaning.AuditPassesExactly | genai/conformance_evidence.go:244-342 | an accounted boundary passes exactly when host and exporter report the same well-formed items, these show on each usage instrument what the usage reports, and the components fit int64 |
| AuditMeaning.SilentBoundaryPassesExactly | genai/conformance_evidence.go:244-274 | a boundary without accounting passes exactly when both report the same items, none of them counts anything and no series was exported |
| Accounting.RecordingPassesAudit | genai/conformance_evidence.go:244-274 | evidence of what one recording exported, after normalization, passes the whole audit exactly when the components fit int64 |
| Accounting.OverflowingComponentsAreRefused | genai/conformance_evidence.go:325-327 | a concrete valid usage whose own recording the auditor refuses |
| ReferencePolicy.BuiltinPoliciesPassAudit | genai/reference_policy.go:35-58 | the agreement of recorder and auditor holds under every built-in metadata policy |
| Outcome.ResolveOutcome | genai/outcome.go:15-32 | success is only ever reported, an error is never recorded as anything else, contradictions are refused |
| Outcome.ResolveModelOutcome | genai/outcome.go:34-46 | a class accompanies exactly the error outcome, and only a known one |
| Outcome.ResolveToolOutcome | genai/outcome.go:60-85 | the host classifier runs only for an error without an explicit class; the class is bounded and accompanies exactly the error outcome |
| RecordingHandles.OperationHandle.Finish | genai/operation_handle.go:222-291 | an accepted result finishes the handle, closes its span and asks the tracker for exactly its writes; a refused one changes nothing; a panicking policy finishes it as an error without writes |
| HandleRecords.OperationIsRecorded | genai/operation_handle.go:222-291 | a finished operation leaves the caller's attributes, its outcome, one interaction with the built payload, the usage, the answering model and the time since its start, and an end; a physical one asks for its usage, duration and streaming writes, a logical one for nothing |
| HandleRecords.ResultIsAcceptable | genai/operation_handle.go:222-262 | a result is acceptable exactly with a known class only for an error, a bounded model, no duration of its own, valid usage in a declared currency and timings within the recording |
| HandleRecords.CallsAreRefused | genai/operation_handle.go:222-313 | a call without a start is missing one and a call after the end is late; an intermediate usage is only checked, and a tool or invocation is refused for its outcome alone |
| HandleRecords.UntrackedLeavesNothing | genai/operation_handle.go:259-262 | a handle without a tracker leaves nothing on its span and asks nothing of the metrics |
| RecordingHandles.OperationHandle.ValidateStreamingUpdate | genai/operation_handle.go:293-313 | checks an intermediate usage and changes nothing |
| RecordingHandles.OperationHandle.Close | genai/operation_handle.go:315-337 | ends with an unknown outcome and no usage |
| RecordingHandles.OperationHandle.EndOnPanic | genai/callback_failure.go:11-26 | a panic finalizes the handle as an error, marks the callback and ends the span |
| HandleRecords.PanicsEndAsErrors | genai/callback_failure.go:11-26 | a recording ends by a panic exactly when a reached policy or an asked classifier panics; its span then holds an unknown error, the mark and the end, and nothing is written |
| HandleRecords.ClosingClaimsNothing | genai/operation_handle.go:315-337 | closing any open handle leaves an unset outcome, no payload, no usage and no result, and asks for the elapsed time only |
| RecordingHandles.ToolHandle.Finish | genai/tool.go:82-106 | an accepted outcome finishes the handle and records the bounded result; a classifier panic before, or a policy panic after the commitment ends it as an error without a duration |
| HandleRecords.ToolIsRecorded | genai/tool.go:82-106 | a finished tool call leaves its protected result if it has one, whether it failed and its outcome, and asks for one duration under the cleaned name |
| RecordingHandles.ToolHandle.Close | genai/tool.go:108-110 | closing claims neither a result nor success |
| RecordingHandles.RecordedResult | genai/tool.go:112-129 | a refused or empty result leaves no attribute |
| RecordingHandles.RetrievalHandle.Finish | genai/retrieval.go:114-156 | documents are validated before the outcome, protected and bounded; only then the handle finishes, with whole documents up to the limit |
| HandleRecords.RetrievalIsRecorded | genai/retrieval.go:114-156 | a finished retrieval leaves the caller's count and the longest fitting prefix of its documents with references protected and scores unchanged, marked truncated exactly when documents are missing, and its outcome |
| RecordingHandles.RetrievalHandle.Close | genai/retrieval.go:158-173 | ends without claiming a result |
| RecordingHandles.InvocationHandle.Finish | genai/invocation.go:279-302 | an accepted outcome finishes the handle with one duration write; a classifier panic finishes it as an error without one |
| HandleRecords.InvocationIsRecorded | genai/invocation.go:279-302 | a finished invocation leaves its outcome and asks for one duration of its own kind, locality and outcome |
| RecordingHandles.InvocationHandle.Close | genai/invocation.go:304-306 | closing claims no success but keeps the interval |
| HandleRuns.SpansEndExactlyOnce | genai/operation_handle.go:222-337 | over every interleaving on any number of handles, panics included, a span carries one coherent outcome and has ended exactly once, in last place, if its handle is finished, and is untouched if it is not |
| HandleRuns.FinishedForever | genai/callback_failure.go:11-26 | no later call changes a finished handle or its span |
| HandleRuns.RefusedCallsErase | genai/operation_handle.go:222-291 | a rejected, late or missing call anywhere in a run can be struck from it: all handles, spans and writes end up the same |
| HandleRuns.AccountedOnce | genai/operation_handle.go:264-283 | no handle is accounted twice, and only finished handles are |
| HandleRuns.UsageConserved | genai/operation_handle.go:264-283 | over every interleaving the count and total exported per usage instrument equal what the committed results of physical operations report: closed, panicked and logical ones add nothing |
| HandleRuns.BuiltinPoliciesConserveUsage | genai/reference_policy.go:35-58 | usage is conserved over every interleaving under every built-in metadata policy, which never loses a name |
| HandleRuns.HandlesStayWithinBudget | genai/cardinality.go:45-105 | whatever callers do, no instrument exports more series than the profile allows |
| HandleRuns.OperationRefusedOnlyForInput | genai/operation_handle.go:222-263 | an operation is refused exactly for an unacceptable result or a payload its policy cannot record; under the raw and keyless policies that is a payload beyond the input bounds |
| HandleRuns.RetrievalRefusedOnlyForInput | genai/retrieval.go:114-141 | a retrieval is refused exactly for its documents or its outcome, never for their encoding |
| CausalLinks.RecordingLinks | genai/operation_handle.go:183-220 | collects the links in order without duplicates, or refuses |
| CausalLinks.CollectedLinks | genai/operation_handle.go:183-220 | links are pairwise different spans, each enabled handle is linked, and every link comes from the origin or a handle |
| CausalLinks.LinksExactly | genai/operation_handle.go:183-220 | a recording is linked exactly when every enabled handle is valid and the different spans are at most sixteen; each of them is then linked once |
| CausalLinks.RefusedExactlyAtSeventeenSpans | genai/operation_handle.go:183-220 | with validated options the limit is exceeded exactly by a valid origin and sixteen enabled handles that are all different spans |
| CausalLinks.SixteenValidLinksCanBeRefused | genai/operation_handle.go:183-220 | a concrete origin with sixteen valid handles that is refused |
| Decimals.ParseFormat | internal/enrichment/context.go:69-71 | every 64-bit integer is read back from its decimal text |
| Baggage.Build | internal/baggageutil/bounded.go:22-57 | the result is a function of the last-wins map and of the SDK's verdict on the retained prefix alone: a refusing SDK leaves no baggage, the pinned one never refuses |
| Baggage.BuiltIsLongestSortedPrefix | internal/baggageutil/bounded.go:22-57 | it is the longest prefix, in key order, of the members with an encoding within 64 members and 8192 bytes, commas included; the dropped count is all other keys |
| Baggage.OrderIsIrrelevant | internal/baggageutil/bounded.go:22-34 | the order of distinct members does not matter |
| Baggage.LastCounts | internal/baggageutil/bounded.go:23-26 | of several members with one key the last counts |
| Baggage.RebuildDropsNothing | internal/baggageutil/bounded.go:22-57 | building again from any retained members drops nothing |
| Ledger.Put | internal/enrichment/context.go:24-45 | values go into a fresh copy; the published array is unchanged |
| Ledger.PutUnique | internal/enrichment/context.go:24-45 | keys stay unique |
| Ledger.PutConcat | internal/enrichment/context.go:24-45 | putting a concatenation is putting its parts in turn |
| Ledger.PutLookup | internal/enrichment/context.go:24-45 | the last local value put wins, else the local value held, else the last value put, else the value held |
| Ledger.String | internal/enrichment/context.go:54-62 | the loop returns the first string value of the key |
| Ledger.StringIsLookup | internal/enrichment/context.go:54-62 | the string read is the value of the key when it has string type, and never a typed value |
| Propagation.NewPolicy | propagation/policy.go:29-53 | accepts exactly lists of well-formed keys, and one malformed key refuses all |
| Propagation.Inject | propagation/policy.go:81-112 | every declared field is replaced by what the base writes for trace and allowlisted ledger values, other entries are kept, and the context's own baggage plays no part |
| Transport.CarrierExactly | propagation/policy.go:103-111 | after an injection each declared field is what the base wrote or empty, and every other entry is as before |
| Transport.SentExactly | propagation/policy.go:81-101 | a key is sent exactly when the ledger holds it, the policy lets it out, the SDK accepts its type and text, and the sendable members up to it in key order are within 64 members and 8192 bytes |
| Propagation.Extract | propagation/policy.go:114-161 | only importable members join the ledger, as remote values; baggage is rebuilt from trusted values; a rejected trace leaves the caller's |
| Transport.ExtractedExactly | propagation/policy.go:114-148 | after an extraction into any context a key holds its own local value, else what the carrier brought if it is allowlisted, unreserved and a text of its declared type, else what it held |
| Transport.DeclaredType | propagation/policy.go:136-142 | the type a member declares is that of its first type property; one without any is a string |
| Transport.TrustedBaggage | propagation/policy.go:149-161 | the rebuilt baggage retains of all the ledger's members exactly those that fit in key order |
| Transport.OutgoingIsTrusted | propagation/policy.go:81-101 | whatever leaves is an allowlisted trusted value in its own member |
| Transport.InjectThenExtract | propagation/policy.go:81-161 | a receiver with an empty context holds exactly the sender's values that the sender's policy lets out, that fit and that its own policy admits, text and type unchanged, marked remote, and rebuilding drops nothing |
| Transport.LedgerStaysSafe | propagation/policy.go:128-148 | over every run of enrichments and extractions from any carriers keys stay unique and every remote value is allowlisted, unreserved and a valid scalar |
| Transport.LocalValuesStay | internal/enrichment/context.go:24-45 | over every run a local value is changed only by a later local value |
| Enrichment.Enrich | enrich.go:21-92 | invalid attributes are skipped, the rest join the ledger, and baggage is rebuilt from the whole ledger over the foreign members |
| Enrichment.ValuesAreLocal | enrich.go:31-37 | what is set here is local |
| Enrichment.ValuesAreSet | enrich.go:31-64 | after an enrichment a key holds the last attribute with a known key and an accepted, non-empty text, under its type, else what it held |
| Enrichment.EnrichedBaggage | enrich.go:66-92 | the baggage retains of the foreign members and of all the ledger's members, which win, exactly those that fit in key order |
| Enrichment.LocalScalarsAreValid | enrich.go:31-37 | integers, booleans and finite floats set here are valid scalars wherever they arrive |
| Baggage.RetainedExactly | internal/baggageutil/bounded.go:36-51 | a member with an encoding is retained exactly when the candidates up to it fit |
| Enrichment.OmittedValueReturns | enrich.go:70-92 | a value left out by an earlier overflow returns exactly when the candidates up to it fit |
| MapCarrier.InjectToMap | propagation/map.go:12-31 | declared fields are replaced or removed, host keys kept, undeclared writes ignored |
| MapCarrier.ExtractFromMap | propagation/map.go:33-54 | only non-empty string values of declared fields reach the propagator; without any the context is returned |
| MapCarrier.MapIsTransparent | propagation/map.go:12-54 | what was written arrives, and the host's own entries have no influence |
| Base64.EncodedLength | internal/async/handle.go:100-103 | the token length is the unpadded base64url length of RFC 4648, section 5 |
| Base64.EncodesBits | internal/async/handle.go:100-103 | each symbol is the letter of the URL-safe alphabet for its six bits of the octets |
| Base64.DecodeEncode | internal/async/handle.go:113-116 | every octet string comes back from its token |
| Tokens.HtmlEscapingWouldOverflow | internal/traceutil/token.go:8-18 | with HTML escaping a legal tracestate could overflow the token, without it none can |
| AsyncHandle.ValidHandlesFit | internal/async/handle.go:80-104 | marshalling succeeds exactly for valid handles with a tracestate of at most 512 bytes: the late size check never fires |
| AcceptedHandles.AcceptedExactly | internal/async/handle.go:107-147 | of a JSON object a handle is accepted exactly when its fields have their types, both identities are hexadecimal and not zero, and the tracestate is short and empty or legal; the handle holds what the fields say |
| AcceptedHandles.OnlyObjectsAreAccepted | internal/async/handle.go:107-122 | nothing else is accepted |
| AsyncHandle.HandlesRoundTrip | internal/async/handle.go:80-147 | every such handle is parsed back from its token unchanged |
| AsyncHandle.ParsedHandlesTravel | internal/async/handle.go:80-147 | every accepted token gives a valid span whose handle can be marshalled again, and the new token gives it back |
| TraceSnapshots.SnapshotsRoundTrip | trace_snapshot.go:51-127 | every captured snapshot has a token within the limit that gives it back |
| AcceptedHandles.SnapshotAcceptedExactly | trace_snapshot.go:51-127 | of a JSON object a snapshot is accepted exactly when both fields are texts, the tracestate short and legal, and the propagator restores a span from them |
| TraceSnapshots.ParsedSnapshotsTravel | trace_snapshot.go:51-127 | every accepted snapshot restores a valid span within the W3C budget; it can be marshalled again exactly when the JSON text of its fields, escapes included, is at most 1536 bytes, as that of the injected form always is, and the new token gives it back |
| TraceSnapshots.AcceptedSnapshotCanOutgrow | trace_snapshot.go:51-127 | a concrete token, accepted under a propagator that restores traceparents of later versions, whose snapshot is refused a token |

## Left out

- The OpenTelemetry SDK, exporters, samplers, middleware, provider construction and shutdown: foreign calls; spans and instruments are logs, and instrument creation either yields all instruments or no tracker.
- SHA-256: a function from text to 64 lower-case hexadecimal digits.
- Clocks: the time of a call is an arbitrary integer of nanoseconds.
- Rounding of float64: costs, seconds and rates are reals with non-finite values apart; a usage has one cost and one video length, so the audited float totals are sums of one term.
- Panics and custom host code: a payload policy or error classifier may panic where it is called; custom policies, classifiers and propagators are otherwise arbitrary functions.
- Write-level interleaving of two handles: a body under a handle's mutex is one step; `Tracking.InterleavingsStayWithinBudget` covers interleaved writes for the series budget.
- The SDK's baggage wire format, its key and value checks and the base propagator: parameters; the transport theorem asks the base propagator to be lossless for baggage within the limits.
- Tracestate grammar and W3C extraction: parameters; a tracestate is its canonical text.
- Evidence.ExporterSatisfiesChecker: the checker's decoding into structs is modelled on exact keys, without Go's case-insensitive matching, and without the tool and retrieval channels, which have their own lemmas.
- Payload.ValidatePayloadEncodingBounds: nil and empty slices encode alike.
- MetricNames.SanitizeMetricValue: the Unicode classes are parameters; idempotence asks that letters and the four marks are not white space.
- ToolPayload.ValidateToolJSONInput: white space is ASCII white space; Unicode spaces are not distinguished.
- Propagation.NewPolicy: white space around a key is ASCII white space; a key that starts or ends with a Unicode space is left to the SDK's key check.
- Handles.NamesOperation: takes an operation name as blank when it is ASCII white space; names of Unicode spaces alone are not distinguished.
- Outcome.ResolveToolOutcome: the classifier's answer is taken after its lower-casing and clean-up.
- AsyncHandle.HandlesRoundTrip: identities are held in their hexadecimal spelling, and object keys are matched exactly.
- Ledger.Put: the context that publishes the array is not modelled; the other modules hold the ledger as a sequence.
- Propagation.Extract: type properties without a value are taken as empty text.
- Cardinality.ValidateProfile: whether raw recording is allowed is compared when a recorder is created, which is not part of this model.
- Starting a recording: identities, scopes, names and option enums are checked field by field; the handles begin with what those checks establish.
- Completed recordings without a handle, trace payloads, evaluation, feedback and asynchronous results: they use the same recorders and add no state.
- Diagnostics, attribute names and labels, security events, the metrics registry, examples and test helpers.
