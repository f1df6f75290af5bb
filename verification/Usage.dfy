/** Usage of an operation and its validation (genai/usage.go). */
module Usage {
  import opened Bytes

  /** A float64, with its non-finite values apart. */
  datatype Float = Finite(r: real) | NotANumber | Infinite

  datatype Measurement<T> = Measurement(value: T, present: bool, source: Bytes, unit: Bytes)

  const MEASURED: Bytes := "measured"
  const PROVIDER: Bytes := "provider_reported"
  const ESTIMATED: Bytes := "estimated"
  const SOURCES: set<Bytes> := {MEASURED, PROVIDER, ESTIMATED}

  datatype Usage = Usage(
    inputTokens: Measurement<int>, outputTokens: Measurement<int>,
    cacheWrite: Measurement<int>, cacheRead: Measurement<int>, reasoning: Measurement<int>,
    cost: Measurement<Float>, currency: Bytes,
    audioSeconds: Measurement<Float>, imageCount: Measurement<int>,
    videoSeconds: Measurement<Float>, videoFrames: Measurement<int>,
    purpose: Bytes, mapping: Bytes, priceReference: Bytes)

  /** An absent measurement claims nothing. */
  predicate Absent<T(==)>(m: Measurement<T>, zero: T)
  {
    m.value == zero && m.unit == "" && (m.source == "" || m.source == "unknown")
  }

  predicate ValidInt(m: Measurement<int>, unit: Bytes)
  {
    if !m.present then Absent(m, 0) else m.unit == unit && m.source in SOURCES && m.value >= 0
  }

  predicate ValidFloat(m: Measurement<Float>, unit: Bytes)
  {
    if !m.present then Absent(m, Finite(0.0))
    else m.unit == unit && m.source in SOURCES && m.value.Finite? && m.value.r >= 0.0
  }

  predicate WithinTotal(component: Measurement<int>, total: Measurement<int>)
  {
    component.present && total.present ==> component.value <= total.value
  }

  predicate AsciiCurrency(s: Bytes) { forall i :: 0 <= i < |s| ==> 'A' <= s[i] <= 'Z' }

  /** Usage.Validate finds nothing to object to. */
  predicate ValidUsage(u: Usage)
  {
    && ValidInt(u.inputTokens, "token") && ValidInt(u.outputTokens, "token")
    && ValidInt(u.cacheWrite, "token") && ValidInt(u.cacheRead, "token") && ValidInt(u.reasoning, "token")
    && ValidInt(u.imageCount, "image") && ValidInt(u.videoFrames, "frame")
    && ValidFloat(u.cost, "currency") && ValidFloat(u.audioSeconds, "s") && ValidFloat(u.videoSeconds, "s")
    && WithinTotal(u.cacheWrite, u.inputTokens) && WithinTotal(u.cacheRead, u.inputTokens)
    && WithinTotal(u.reasoning, u.outputTokens)
    && (u.cost.present ==> 0 < |u.currency| <= 16 && AsciiCurrency(u.currency))
    && |u.priceReference| <= 256 && |u.purpose| <= 80
    && (u.mapping == "" || u.mapping == "inclusive")
  }

  predicate HasUsage(u: Usage)
  {
    || u.inputTokens.present || u.outputTokens.present || u.cacheWrite.present || u.cacheRead.present
    || u.reasoning.present || u.cost.present || u.audioSeconds.present || u.imageCount.present
    || u.videoSeconds.present || u.videoFrames.present
  }

  const ABSENT_INT: Measurement<int> := Measurement(0, false, "", "")
  const ABSENT_FLOAT: Measurement<Float> := Measurement(Finite(0.0), false, "", "")

  /** The zero value of Usage. */
  const NO_USAGE: Usage := Usage(
    ABSENT_INT, ABSENT_INT, ABSENT_INT, ABSENT_INT, ABSENT_INT, ABSENT_FLOAT, "",
    ABSENT_FLOAT, ABSENT_INT, ABSENT_FLOAT, ABSENT_INT, "", "", "")
}
