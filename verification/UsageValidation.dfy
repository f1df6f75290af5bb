/** The check of a reported usage (genai/usage.go): which rule the first wrong field breaks. */
module UsageValidation {
  import opened Bytes
  import opened Usage

  /** A field and the rule it breaks; values are never repeated. */
  datatype Violation = Violation(field: Bytes, rule: Bytes)

  /** A field of the usage with the unit it must have. */
  datatype Row = Row(field: Bytes, value: Measurement<Float>, unit: Bytes)

  function AsFloat(m: Measurement<int>): Measurement<Float>
  {
    Measurement(Finite(m.value as real), m.present, m.source, m.unit)
  }

  function CountRows(u: Usage): seq<Row>
  {
    [Row("input_tokens", AsFloat(u.inputTokens), "token"), Row("output_tokens", AsFloat(u.outputTokens), "token"),
     Row("cache_write", AsFloat(u.cacheWrite), "token"), Row("cache_read", AsFloat(u.cacheRead), "token"),
     Row("reasoning", AsFloat(u.reasoning), "token"), Row("images", AsFloat(u.imageCount), "image"),
     Row("video_frames", AsFloat(u.videoFrames), "frame")]
  }

  function AmountRows(u: Usage): seq<Row>
  {
    [Row("cost", u.cost, "currency"), Row("audio_seconds", u.audioSeconds, "s"),
     Row("video_seconds", u.videoSeconds, "s")]
  }

  /** A component and the total it is part of. */
  datatype Pair = Pair(field: Bytes, component: Measurement<int>, total: Measurement<int>)

  function Pairs(u: Usage): seq<Pair>
  {
    [Pair("cache_write", u.cacheWrite, u.inputTokens), Pair("cache_read", u.cacheRead, u.inputTokens),
     Pair("reasoning", u.reasoning, u.outputTokens)]
  }

  /** validateMeasurement: the first rule a measurement breaks. */
  function RuleBroken(m: Measurement<Float>, unit: Bytes): Option<Bytes>
  {
    if !m.present then
      if m.value != Finite(0.0) || m.unit != "" || (m.source != "" && m.source != "unknown")
      then Some("contradictory_absence") else None
    else if m.unit != unit then Some("incompatible_unit")
    else if m.source != MEASURED && m.source != PROVIDER && m.source != ESTIMATED then Some("invalid_source")
    else if !m.value.Finite? || m.value.r < 0.0 then Some("invalid_value")
    else None
  }

  predicate Exceeds(p: Pair) { p.component.present && p.total.present && p.component.value > p.total.value }

  /** The first of these fields that breaks a rule, and no earlier one. */
  ghost predicate FirstIn(rows: seq<Row>, v: Violation)
  {
    exists k :: 0 <= k < |rows| && v.field == rows[k].field && RuleBroken(rows[k].value, rows[k].unit) == Some(v.rule)
      && forall j :: 0 <= j < k ==> RuleBroken(rows[j].value, rows[j].unit) == None
  }

  ghost predicate FirstPair(pairs: seq<Pair>, v: Violation)
  {
    exists k :: 0 <= k < |pairs| && v == Violation(pairs[k].field, "exceeds_total") && Exceeds(pairs[k])
      && forall j :: 0 <= j < k ==> !Exceeds(pairs[j])
  }

  predicate Clean(rows: seq<Row>) { forall j :: 0 <= j < |rows| ==> RuleBroken(rows[j].value, rows[j].unit) == None }

  predicate NoneExceeds(pairs: seq<Pair>) { forall j :: 0 <= j < |pairs| ==> !Exceeds(pairs[j]) }

  predicate CurrencyNamed(u: Usage) { u.cost.present ==> 0 < |u.currency| <= 16 && AsciiCurrency(u.currency) }

  /** Accepts exactly valid usage, and otherwise names the first wrong field with its rule: counts,
      then amounts, then components, then the currency and the texts. */
  method Validate(u: Usage) returns (r: Option<Violation>)
    ensures r == None <==> ValidUsage(u)
    ensures r.Some? ==>
              || FirstIn(CountRows(u) + AmountRows(u), r.value)
              || (Clean(CountRows(u) + AmountRows(u)) && FirstPair(Pairs(u), r.value))
              || (&& Clean(CountRows(u) + AmountRows(u)) && NoneExceeds(Pairs(u))
                  && r.value == if !CurrencyNamed(u) then Violation("currency", "required_currency_code")
                                else if |u.priceReference| > 256 || |u.purpose| > 80
                                then Violation("usage_metadata", "too_large")
                                else Violation("mapping", "unsupported"))
  {
    hide RuleBroken, Exceeds, ValidUsage, CurrencyNamed, CountRows, AmountRows, Pairs;
    var rows := CountRows(u) + AmountRows(u);
    CleanMeans(u);
    var i := 0;
    while i < |rows|
      invariant 0 <= i <= |rows| && forall j :: 0 <= j < i ==> RuleBroken(rows[j].value, rows[j].unit) == None
    {
      var rule := RuleBroken(rows[i].value, rows[i].unit);
      if rule.Some? {
        return Some(Violation(rows[i].field, rule.value));
      }
      i := i + 1;
    }
    var pairs := Pairs(u);
    i := 0;
    while i < |pairs|
      invariant 0 <= i <= |pairs| && forall j :: 0 <= j < i ==> !Exceeds(pairs[j])
    {
      if Exceeds(pairs[i]) {
        return Some(Violation(pairs[i].field, "exceeds_total"));
      }
      i := i + 1;
    }
    if !CurrencyNamed(u) {
      return Some(Violation("currency", "required_currency_code"));
    }
    if |u.priceReference| > 256 || |u.purpose| > 80 {
      return Some(Violation("usage_metadata", "too_large"));
    }
    if u.mapping != "" && u.mapping != "inclusive" {
      return Some(Violation("mapping", "unsupported"));
    }
    return None;
  }

  /** The rules field by field, and what remains of the usage. */
  lemma CleanMeans(u: Usage)
    ensures ValidUsage(u) <==>
      && Clean(CountRows(u) + AmountRows(u)) && NoneExceeds(Pairs(u)) && CurrencyNamed(u)
      && |u.priceReference| <= 256 && |u.purpose| <= 80 && (u.mapping == "" || u.mapping == "inclusive")
  {
    hide RuleBroken, Exceeds, AsFloat, AsciiCurrency, ValidInt, ValidFloat, WithinTotal;
    var rows := CountRows(u) + AmountRows(u);
    CountClean(u.inputTokens, "token");
    CountClean(u.outputTokens, "token");
    CountClean(u.cacheWrite, "token");
    CountClean(u.cacheRead, "token");
    CountClean(u.reasoning, "token");
    CountClean(u.imageCount, "image");
    CountClean(u.videoFrames, "frame");
    AmountClean(u.cost, "currency");
    AmountClean(u.audioSeconds, "s");
    AmountClean(u.videoSeconds, "s");
    TenRows(rows);
    ThreePairs(u);
  }

  lemma CountClean(m: Measurement<int>, unit: Bytes)
    ensures RuleBroken(AsFloat(m), unit) == None <==> ValidInt(m, unit)
  {
  }

  lemma AmountClean(m: Measurement<Float>, unit: Bytes)
    ensures RuleBroken(m, unit) == None <==> ValidFloat(m, unit)
  {
  }

  predicate Fine(row: Row) { RuleBroken(row.value, row.unit) == None }

  lemma TenRows(rows: seq<Row>)
    requires |rows| == 10
    ensures Clean(rows) <==>
      && Fine(rows[0]) && Fine(rows[1]) && Fine(rows[2]) && Fine(rows[3]) && Fine(rows[4]) && Fine(rows[5])
      && Fine(rows[6]) && Fine(rows[7]) && Fine(rows[8]) && Fine(rows[9])
  {
    hide RuleBroken;
  }

  lemma ThreePairs(u: Usage)
    ensures NoneExceeds(Pairs(u)) <==>
      && WithinTotal(u.cacheWrite, u.inputTokens) && WithinTotal(u.cacheRead, u.inputTokens)
      && WithinTotal(u.reasoning, u.outputTokens)
  {
    var pairs := Pairs(u);
    assert NoneExceeds(pairs) <==> !Exceeds(pairs[0]) && !Exceeds(pairs[1]) && !Exceeds(pairs[2]);
  }
}
