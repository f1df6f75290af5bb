/** Protection of caller references and metadata (genai/reference_policy.go). */
module ReferencePolicy {
  import opened Bytes
  import opened Utf8
  import opened Sanitize
  import opened Payload
  import Cardinality
  import Recorder
  import Accounting
  import Decimals
  import Usage
  import opened Outcome
  import opened MetricNames

  const MAX_REFERENCE: int := 256

  /** References are protected in every mode but raw, whatever the content policy keeps. */
  function ReferenceLabel(policy: Policy, hash: Hash, s: Bytes): Bytes
  {
    if s == [] then []
    else if |s| > MAX_REFERENCE then REDACTED
    else if policy.RawPolicy? then s
    else Fingerprint(hash, s)
  }

  predicate Declared(dimensions: seq<Cardinality.Dimension>, key: Cardinality.Key, value: Bytes)
  {
    exists i :: 0 <= i < |dimensions| && dimensions[i].key == key && value in dimensions[i].values
  }

  /** Declared values and the operations of the schema stay readable; the rest is a reference. */
  function Metadata(policy: Policy, hash: Hash, dimensions: seq<Cardinality.Dimension>, operations: set<Bytes>,
    key: Cardinality.Key, value: Bytes): (r: Bytes)
    ensures r == "" <==> value == ""
    ensures |value| > MAX_REFERENCE ==> r == REDACTED
    ensures r != value && |value| <= MAX_REFERENCE ==> r == Fingerprint(hash, value) && !policy.RawPolicy?
    ensures value != "" && value != UNKNOWN && !policy.RawPolicy? && !Declared(dimensions, key, value)
              && (key != Cardinality.OperationName || value !in operations) ==>
              r == if |value| > MAX_REFERENCE then REDACTED else Fingerprint(hash, value)
    ensures |value| <= MAX_REFERENCE && (policy.RawPolicy? || Declared(dimensions, key, value)) ==> r == value
    ensures |value| <= MAX_REFERENCE && key == Cardinality.OperationName && value in operations ==> r == value
  {
    if value == "" || value == UNKNOWN then value
    else if |value| > MAX_REFERENCE then REDACTED
    else if policy.RawPolicy? then value
    else if Declared(dimensions, key, value) then value
    else if key == Cardinality.OperationName && value in operations then value
    else ReferenceLabel(policy, hash, value)
  }

  function PolicyLabels(policy: Policy, hash: Hash, dimensions: seq<Cardinality.Dimension>, operations: set<Bytes>)
    : Recorder.Labels
  {
    (k: Cardinality.Key, s: Bytes) => Metadata(policy, hash, dimensions, operations, k, s)
  }

  /** The name of a tool on its span: cleaned up, and literal only when declared or raw. */
  function ToolName(u: Unicode, policy: Policy, dimensions: seq<Cardinality.Dimension>, value: Bytes): (r: Bytes)
    ensures policy.RawPolicy? ==> r == MetricValue(u, value, UNKNOWN)
    ensures r == UNKNOWN || r == MetricValue(u, value, UNKNOWN)
    ensures (exists d :: d in dimensions && d.key == Cardinality.ToolName && MetricValue(u, value, UNKNOWN) in d.values)
            ==> r == MetricValue(u, value, UNKNOWN)
    ensures !policy.RawPolicy? && r != UNKNOWN ==>
              exists d :: d in dimensions && d.key == Cardinality.ToolName && r in d.values
  {
    var name := MetricValue(u, value, UNKNOWN);
    if policy.RawPolicy? || Declared(dimensions, Cardinality.ToolName, name) then name else UNKNOWN
  }

  /** The metric cleans the span's name again, and finds the same name. */
  lemma ToolNamesAgree(u: Unicode, policy: Policy, dimensions: seq<Cardinality.Dimension>, value: Bytes)
    requires Disjoint(u) && LatinLetters(u)
    ensures var name := ToolName(u, policy, dimensions, value);
      MetricValue(u, name, UNKNOWN) == name && name != "" && Valid(name) && |name| <= MAX_VALUE + 3
  {
    hide MetricValue, Tidy, Disjoint, LatinLetters, Declared;
    LettersAreTidy(u, UNKNOWN, 0);
    MetricValueIsTidy(u, value, UNKNOWN);
    CleaningIsIdempotent(u, value, UNKNOWN, UNKNOWN);
    MetricValueIsTidy(u, UNKNOWN, UNKNOWN);
    TidyKeepsTrim(u, UNKNOWN);
    TidyIsFixed(u, UNKNOWN, 0);
    UnknownIsFixed(u);
  }

  lemma UnknownIsFixed(u: Unicode)
    requires TrimSpace(u, UNKNOWN) == UNKNOWN && Cleaned(u, UNKNOWN, 0) == UNKNOWN
    ensures MetricValue(u, UNKNOWN, UNKNOWN) == UNKNOWN
  {
    hide TrimSpace, Cleaned;
  }

  /** Under every built-in policy an operation with a name is audited as recorded. */
  lemma BuiltinPoliciesPassAudit(policy: Policy, hash: Hash, dimensions: seq<Cardinality.Dimension>,
      operations: set<Bytes>, meta: Recorder.Meta, u: Usage.Usage, expected: Accounting.Tallies)
    requires Usage.ValidUsage(u) && Accounting.Int64Usage(u) && meta.operation != ""
    ensures Accounting.Matches(u, expected) <==>
      (Accounting.ComponentSum(u) <= Decimals.MAX_INT64 &&
       forall k :: 0 <= k < |Accounting.AUDITED| ==>
         Accounting.Get(expected, Accounting.AUDITED[k]) == Accounting.Witness(
           Recorder.UsageWrites(PolicyLabels(policy, hash, dimensions, operations), meta, u), Accounting.AUDITED[k]))
  {
    hide Metadata, Accounting.Matches, Usage.ValidUsage, Accounting.Witness, Recorder.UsageWrites;
    Accounting.AuditorAcceptsRecorder(PolicyLabels(policy, hash, dimensions, operations), meta, u, expected);
  }
}
