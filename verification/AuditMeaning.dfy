/** What the audit of a boundary accepts (genai/conformance_evidence.go), told by the reported items
    and the usage. */
module AuditMeaning {
  import opened Bytes
  import opened Decimals
  import opened Usage
  import opened Cardinality
  import opened Recorder
  import opened Accounting
  import opened RecordedAmounts

  /** An item a host or an exporter may report: of a known instrument, in the channel of that
      instrument, never negative, and nothing without an observation. */
  predicate Reportable(m: AccountingMeasurement)
  {
    && m.instrument.Some? && m.total.Finite? && m.total.r >= 0.0 && m.integer >= 0
    && (if m.instrument.value in {InputTokens, OutputTokens, TokenComponent, VideoFrames} then m.total.r == 0.0
        else m.integer == 0)
    && (m.count == 0 ==> m.total.r == 0.0 && m.integer == 0)
  }

  ghost predicate WellReported(items: seq<AccountingMeasurement>)
  {
    && |items| <= 128 && (forall m :: m in items ==> Reportable(m))
    && forall i, j :: 0 <= i < j < |items| ==> items[i].instrument != items[j].instrument
  }

  /** The items report this of an instrument. */
  ghost predicate Reports(items: seq<AccountingMeasurement>, i: Instrument, t: Tally)
  {
    exists m :: m in items && m.instrument == Some(i) && m.total.Finite? && t == Tally(m.count, m.total.r, m.integer)
  }

  ghost predicate Mentions(items: seq<AccountingMeasurement>, i: Instrument)
  {
    exists m :: m in items && m.instrument == Some(i)
  }

  lemma ReportableIsSound(m: AccountingMeasurement)
    ensures Reportable(m) <==> Sound(m)
  {
  }

  lemma WellReportedIsCoherent(items: seq<AccountingMeasurement>)
    ensures WellReported(items) <==> |items| <= MAX_ITEMS && Coherent(items)
  {
    hide Sound, Reportable;
    forall i | 0 <= i < |items|
      ensures Reportable(items[i]) <==> Sound(items[i])
    {
      ReportableIsSound(items[i]);
    }
  }

  /** The map of an evidence holds exactly what is reported. */
  lemma MapHolds(items: seq<AccountingMeasurement>, i: Instrument, t: Tally)
    requires Coherent(items)
    ensures i in MapOf(items) <==> Mentions(items, i)
    ensures Reports(items, i, t) <==> i in MapOf(items) && MapOf(items)[i] == t
  {
    hide Sound, MapOf, TallyOf;
    MapOfKeys(items);
    if i in MapOf(items) {
      var k :| 0 <= k < |items| && items[k].instrument == Some(i);
      assert items[k] in items;
      MapOfHolds(items, k);
      SoundTally(items[k]);
      if Reports(items, i, t) {
        var m :| m in items && m.instrument == Some(i) && m.total.Finite? && t == Tally(m.count, m.total.r, m.integer);
        var n :| 0 <= n < |items| && items[n] == m;
        assert n == k;
      }
    }
    if Mentions(items, i) {
      var m :| m in items && m.instrument == Some(i);
      var n :| 0 <= n < |items| && items[n] == m;
      assert items[n].instrument == Some(i);
    }
  }

  lemma SoundTally(m: AccountingMeasurement)
    requires Sound(m)
    ensures m.total.Finite? && TallyOf(m) == Tally(m.count, m.total.r, m.integer)
  {
  }

  lemma SameReports(a: seq<AccountingMeasurement>, b: seq<AccountingMeasurement>)
    requires Coherent(a) && Coherent(b)
    ensures MapOf(a) == MapOf(b) <==> forall i, t :: Reports(a, i, t) <==> Reports(b, i, t)
  {
    hide Coherent, MapOf, Reports;
    var ma, mb := MapOf(a), MapOf(b);
    forall i, t
      ensures Reports(a, i, t) <==> i in ma && ma[i] == t
      ensures Reports(b, i, t) <==> i in mb && mb[i] == t
    {
      MapHolds(a, i, t);
      MapHolds(b, i, t);
    }
    if forall i, t :: Reports(a, i, t) <==> Reports(b, i, t) {
      forall i
        ensures i in ma <==> i in mb
        ensures i in ma ==> ma[i] == mb[i]
      {
        if i in ma {
          assert Reports(a, i, ma[i]);
        }
        if i in mb {
          assert Reports(b, i, mb[i]);
        }
      }
    }
  }

  /** What a usage must show on an instrument. */
  function Due(u: Usage, i: Instrument): Tally
    requires ValidUsage(u)
  {
    UsageIsFinite(u);
    match i
    case InputTokens => CountTally(u.inputTokens)
    case OutputTokens => CountTally(u.outputTokens)
    case VideoFrames => CountTally(u.videoFrames)
    case Cost => AmountTally(u.cost)
    case VideoSeconds => AmountTally(u.videoSeconds)
    case TokenComponent => Plus(Plus(CountTally(u.cacheRead), CountTally(u.cacheWrite)), CountTally(u.reasoning))
    case _ => NOTHING
  }

  /** The components of a usage, which share one instrument and one int64 total. */
  function Components(u: Usage): int
  {
    (if u.cacheRead.present then u.cacheRead.value else 0) + (if u.cacheWrite.present then u.cacheWrite.value else 0)
    + if u.reasoning.present then u.reasoning.value else 0
  }

  lemma MatchesMeans(u: Usage, expected: Tallies)
    requires ValidUsage(u) && Int64Usage(u)
    ensures Matches(u, expected) <==>
      && Components(u) <= MAX_INT64
      && forall i :: i in {InputTokens, OutputTokens, TokenComponent, Cost, VideoSeconds, VideoFrames} ==>
           Get(expected, i) == Due(u, i)
  {
    hide Matches, ValidUsage, Int64Usage, Witness, UsageWrites, TallyItems, UsageItems, Get, CountTally, AmountTally,
         Plus;
    var labels, meta := (k: Key, s: Bytes) => s, Meta("", "", "chat", "", "", "", "", 0, 0, "", false, "");
    AuditorAcceptsRecorder(labels, meta, u, expected);
    UsageReports(u);
    UsageWitness(labels, meta, u, InputTokens);
    UsageWitness(labels, meta, u, OutputTokens);
    UsageWitness(labels, meta, u, TokenComponent);
    UsageWitness(labels, meta, u, Cost);
    UsageWitness(labels, meta, u, VideoSeconds);
    UsageWitness(labels, meta, u, VideoFrames);
    assert AUDITED[0] == OutputTokens && AUDITED[1] == InputTokens && AUDITED[2] == TokenComponent;
    assert AUDITED[3] == Cost && AUDITED[4] == VideoSeconds && AUDITED[5] == VideoFrames && |AUDITED| == 6;
  }

  /** The report shows what is due: the tally itself, or no mention of the instrument when nothing is. */
  ghost predicate Shows(items: seq<AccountingMeasurement>, i: Instrument, due: Tally)
  {
    Reports(items, i, due) || (due == NOTHING && !Mentions(items, i))
  }

  lemma ShowsIsGet(items: seq<AccountingMeasurement>, i: Instrument, due: Tally)
    requires Coherent(items)
    ensures Shows(items, i, due) <==> Get(MapOf(items), i) == due
  {
    hide Coherent, MapOf, Reports, Mentions;
    MapHolds(items, i, due);
  }

  /** An accounted boundary passes exactly when host and exporter report the same well-formed items
      for the same spans, these show on each usage instrument what the usage reports, and its token
      components together fit int64. */
  lemma AuditPassesExactly(u: Usage, series: seq<int>, e: Evidence)
    requires ValidUsage(u) && Int64Usage(u)
    ensures Passes(true, u, series, e) <==>
      && 0 <= e.expectedSpans <= 128 && e.actualSpans == e.expectedSpans
      && WellReported(e.expected) && WellReported(e.actual)
      && (forall i, t :: Reports(e.expected, i, t) <==> Reports(e.actual, i, t))
      && Components(u) <= MAX_INT64
      && forall i :: i in {InputTokens, OutputTokens, TokenComponent, Cost, VideoSeconds, VideoFrames} ==>
           Shows(e.expected, i, Due(u, i))
  {
    hide Coherent, WellReported, MapOf, Reports, Matches, Shows, Get, Due, ValidUsage, Int64Usage;
    WellReportedIsCoherent(e.expected);
    WellReportedIsCoherent(e.actual);
    if Coherent(e.expected) && Coherent(e.actual) {
      SameReports(e.expected, e.actual);
      MatchesMeans(u, MapOf(e.expected));
      forall i
        ensures Shows(e.expected, i, Due(u, i)) <==> Get(MapOf(e.expected), i) == Due(u, i)
      {
        ShowsIsGet(e.expected, i, Due(u, i));
      }
    }
  }

  /** A boundary without accounting passes exactly when both report the same silent items and no
      series was exported. */
  lemma SilentBoundaryPassesExactly(u: Usage, series: seq<int>, e: Evidence)
    ensures Passes(false, u, series, e) <==>
      && 0 <= e.expectedSpans <= 128 && e.actualSpans == e.expectedSpans
      && WellReported(e.expected) && WellReported(e.actual)
      && (forall i, t :: Reports(e.expected, i, t) <==> Reports(e.actual, i, t))
      && (forall i, t :: Reports(e.expected, i, t) ==> t.count == 0 && t.total == 0.0 && t.integer == 0)
      && forall n :: n in series ==> n == 0
  {
    hide Coherent, WellReported, MapOf, Reports;
    WellReportedIsCoherent(e.expected);
    WellReportedIsCoherent(e.actual);
    assert (forall n :: n in series ==> n == 0) <==> (forall i :: 0 <= i < |series| ==> series[i] == 0) by {
      assert forall i :: 0 <= i < |series| ==> series[i] in series;
    }
    if Coherent(e.expected) && Coherent(e.actual) {
      SameReports(e.expected, e.actual);
      var m := MapOf(e.expected);
      forall i, t
        ensures Reports(e.expected, i, t) <==> i in m && m[i] == t
      {
        MapHolds(e.expected, i, t);
      }
      assert Silent(m) <==>
        (forall i, t :: Reports(e.expected, i, t) ==> t.count == 0 && t.total == 0.0 && t.integer == 0) by {
        if forall i, t :: Reports(e.expected, i, t) ==> t.count == 0 && t.total == 0.0 && t.integer == 0 {
          forall i | i in m
            ensures m[i] == NOTHING
          {
            assert Reports(e.expected, i, m[i]);
          }
        }
      }
    }
  }
}
