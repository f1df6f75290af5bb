/** Causal links of a recording (genai/operation_handle.go, wire_init.go). */
module CausalLinks {
  import opened Bytes
  import opened AsyncHandle

  const MAX_LINKS: int := 16

  predicate SameSpan(a: SpanContext, b: SpanContext) { a.traceId == b.traceId && a.spanId == b.spanId }

  predicate Linked(links: seq<SpanContext>, c: SpanContext)
  {
    exists i :: 0 <= i < |links| && SameSpan(links[i], c)
  }

  /** The reference of a handle: none when it is disabled, an error when it is neither disabled nor valid. */
  function Reference(h: Handle): AsyncHandle.Result<SpanContext>
  {
    if h.disabled then Ok(ZERO_CONTEXT) else if !IsValid(h) then Err(InvalidHandle) else Ok(h.context)
  }

  function AddLink(links: seq<SpanContext>, h: Handle): seq<SpanContext>
  {
    if h.disabled || Linked(links, h.context) then links else links + [h.context]
  }

  function Collected(start: seq<SpanContext>, handles: seq<Handle>): seq<SpanContext>
  {
    if handles == [] then start else AddLink(Collected(start, handles[..|handles| - 1]), handles[|handles| - 1])
  }

  predicate AllReferences(handles: seq<Handle>) { forall i :: 0 <= i < |handles| ==> Reference(handles[i]).Ok? }

  function Origin(origin: Option<SpanContext>, detached: bool): seq<SpanContext>
  {
    if detached && origin.Some? && ValidContext(origin.value) then [origin.value] else []
  }

  /** The links of a recording; None when a reference is invalid or there are too many spans. */
  function Links(origin: Option<SpanContext>, detached: bool, handles: seq<Handle>): Option<seq<SpanContext>>
  {
    if AllReferences(handles) && |Collected(Origin(origin, detached), handles)| <= MAX_LINKS
    then Some(Collected(Origin(origin, detached), handles))
    else None
  }

  method RecordingLinks(origin: Option<SpanContext>, detached: bool, handles: seq<Handle>)
    returns (r: Option<seq<SpanContext>>)
    ensures r == Links(origin, detached, handles)
  {
    hide SameSpan, ValidContext;
    var links := Origin(origin, detached);
    var i := 0;
    while i < |handles|
      invariant 0 <= i <= |handles| && AllReferences(handles[..i])
      invariant links == Collected(Origin(origin, detached), handles[..i])
    {
      assert handles[..i + 1] == handles[..i] + [handles[i]] && handles[..i + 1][..i] == handles[..i];
      var reference := Reference(handles[i]);
      if reference.Err? {
        return None;
      }
      if !handles[i].disabled {
        var duplicate := false;
        var k := 0;
        while k < |links| && !duplicate
          invariant 0 <= k <= |links| && (duplicate ==> Linked(links, reference.value))
          invariant !duplicate ==> forall j :: 0 <= j < k ==> !SameSpan(links[j], reference.value)
        {
          duplicate := SameSpan(links[k], reference.value);
          k := k + 1;
        }
        if !duplicate {
          links := links + [reference.value];
        }
      }
      i := i + 1;
    }
    assert handles[..i] == handles;
    if |links| > MAX_LINKS {
      return None;
    }
    return Some(links);
  }

  ghost predicate NoDuplicates(links: seq<SpanContext>)
  {
    forall i, j :: 0 <= i < j < |links| ==> !SameSpan(links[i], links[j])
  }

  /** The links are pairwise different spans; each comes from the start or a valid handle, and
      every enabled handle is linked. */
  lemma {:induction false} CollectedLinks(start: seq<SpanContext>, handles: seq<Handle>)
    requires NoDuplicates(start)
    ensures NoDuplicates(Collected(start, handles)) && start <= Collected(start, handles)
    ensures |Collected(start, handles)| <= |start| + |handles|
    ensures forall h :: h in handles && !h.disabled ==> Linked(Collected(start, handles), h.context)
    ensures forall c :: c in Collected(start, handles) ==>
      c in start || exists h :: h in handles && !h.disabled && h.context == c
  {
    if handles != [] {
      var init, last := handles[..|handles| - 1], handles[|handles| - 1];
      CollectedLinks(start, init);
      assert handles == init + [last];
      AddedLink(Collected(start, init), last);
      assert last in handles;
      forall c | c in Collected(start, handles)
        ensures c in start || exists h :: h in handles && !h.disabled && h.context == c
      {
        if c in Collected(start, init) && c !in start {
          var h :| h in init && !h.disabled && h.context == c;
          assert h in handles;
        }
      }
    }
  }

  lemma AddedLink(links: seq<SpanContext>, h: Handle)
    requires NoDuplicates(links)
    ensures NoDuplicates(AddLink(links, h)) && links <= AddLink(links, h)
    ensures !h.disabled ==> Linked(AddLink(links, h), h.context)
    ensures forall c :: Linked(links, c) ==> Linked(AddLink(links, h), c)
    ensures forall c :: c in AddLink(links, h) ==> c in links || (!h.disabled && c == h.context)
  {
    var r := AddLink(links, h);
    if !h.disabled && !Linked(links, h.context) {
      assert SameSpan(r[|links|], h.context);
    }
    forall c | Linked(links, c)
      ensures Linked(r, c)
    {
      var i :| 0 <= i < |links| && SameSpan(links[i], c);
      assert SameSpan(r[i], c);
    }
  }

  /** The origin and the handles are all enabled and name pairwise different spans. */
  predicate AllDifferent(start: seq<SpanContext>, handles: seq<Handle>)
  {
    && (forall i :: 0 <= i < |handles| ==> !handles[i].disabled && !Linked(start, handles[i].context))
    && forall i, j :: 0 <= i < j < |handles| ==> !SameSpan(handles[i].context, handles[j].context)
  }

  /** With validated options, at most sixteen handles and all of them references, a recording is
      refused exactly when it is detached from a valid origin and brings sixteen handles whose spans
      differ from the origin and from one another: duplicates and disabled handles never count. */
  lemma RefusedExactlyAtSeventeenSpans(origin: Option<SpanContext>, detached: bool, handles: seq<Handle>)
    requires AllReferences(handles) && |handles| <= MAX_LINKS
    ensures Links(origin, detached, handles) == None <==>
              (|handles| == MAX_LINKS && detached && origin.Some? && ValidContext(origin.value)
               && AllDifferent([origin.value], handles))
  {
    hide AllDifferent, ValidContext, AllReferences;
    var start := Origin(origin, detached);
    CollectedLinks(start, handles);
    FullExactlyIfDifferent(start, handles);
  }

  lemma FullExactlyIfDifferent(start: seq<SpanContext>, handles: seq<Handle>)
    requires NoDuplicates(start)
    ensures |Collected(start, handles)| == |start| + |handles| <==> AllDifferent(start, handles)
  {
    if |Collected(start, handles)| == |start| + |handles| {
      FullMeansDistinct(start, handles);
    }
    if AllDifferent(start, handles) {
      DistinctMeansFull(start, handles);
    }
  }

  /** Spans that are all different are all linked. */
  lemma {:induction false} DistinctMeansFull(start: seq<SpanContext>, handles: seq<Handle>)
    requires NoDuplicates(start) && AllDifferent(start, handles)
    ensures |Collected(start, handles)| == |start| + |handles|
  {
    if handles != [] {
      var init, last := handles[..|handles| - 1], handles[|handles| - 1];
      assert AllDifferent(start, init) by {
        assert forall i :: 0 <= i < |init| ==> init[i] == handles[i];
      }
      DistinctMeansFull(start, init);
      CollectedLinks(start, init);
      forall k | 0 <= k < |Collected(start, init)|
        ensures !SameSpan(Collected(start, init)[k], last.context)
      {
        FromStartOrHandle(start, init, Collected(start, init)[k], last.context);
      }
    }
  }

  lemma FromStartOrHandle(start: seq<SpanContext>, init: seq<Handle>, c: SpanContext, other: SpanContext)
    requires c in start || exists h :: h in init && !h.disabled && h.context == c
    requires !Linked(start, other) && forall i :: 0 <= i < |init| ==> !SameSpan(init[i].context, other)
    ensures !SameSpan(c, other)
  {
    if c in start {
      var i :| 0 <= i < |start| && start[i] == c;
      assert !SameSpan(start[i], other);
    } else {
      var h :| h in init && !h.disabled && h.context == c;
      var i :| 0 <= i < |init| && init[i] == h;
      assert !SameSpan(init[i].context, other);
    }
  }

  // ----- the links in terms of spans

  function SpanOf(c: SpanContext): (Bytes, Bytes) { (c.traceId, c.spanId) }

  /** The different spans a recording may link to: a valid origin it is detached from, and the spans of
      the enabled handles. */
  ghost function Spans(origin: Option<SpanContext>, detached: bool, handles: seq<Handle>): set<(Bytes, Bytes)>
  {
    (if detached && origin.Some? && ValidContext(origin.value) then {SpanOf(origin.value)} else {})
    + set h | h in handles && !h.disabled :: SpanOf(h.context)
  }

  ghost function SpansOf(links: seq<SpanContext>): set<(Bytes, Bytes)> { set c | c in links :: SpanOf(c) }

  lemma {:induction false} SpansCount(links: seq<SpanContext>)
    requires NoDuplicates(links)
    ensures |SpansOf(links)| == |links|
  {
    if links != [] {
      var init, last := links[..|links| - 1], links[|links| - 1];
      assert NoDuplicates(init) && links == init + [last];
      SpansCount(init);
      forall c | c in init
        ensures SpanOf(c) != SpanOf(last)
      {
        var k :| 0 <= k < |init| && init[k] == c;
        assert !SameSpan(links[k], last);
      }
      assert SpansOf(links) == SpansOf(init) + {SpanOf(last)};
    }
  }

  lemma LinkedMeans(links: seq<SpanContext>, c: SpanContext)
    ensures Linked(links, c) <==> SpanOf(c) in SpansOf(links)
  {
    if Linked(links, c) {
      var i :| 0 <= i < |links| && SameSpan(links[i], c);
      assert links[i] in links && SpanOf(links[i]) == SpanOf(c);
    }
    if SpanOf(c) in SpansOf(links) {
      var x :| x in links && SpanOf(x) == SpanOf(c);
      var i :| 0 <= i < |links| && links[i] == x;
      assert SameSpan(links[i], c);
    }
  }

  lemma CollectedSpans(origin: Option<SpanContext>, detached: bool, handles: seq<Handle>)
    ensures var links := Collected(Origin(origin, detached), handles);
      NoDuplicates(links) && SpansOf(links) == Spans(origin, detached, handles)
  {
    hide ValidContext, SameSpan, Linked, SpanOf, Collected;
    var start := Origin(origin, detached);
    var links := Collected(start, handles);
    CollectedLinks(start, handles);
    forall span
      ensures span in SpansOf(links) <==> span in Spans(origin, detached, handles)
    {
      if span in SpansOf(links) {
        var c :| c in links && SpanOf(c) == span;
        if c !in start {
          var h :| h in handles && !h.disabled && h.context == c;
        }
      }
      if span in Spans(origin, detached, handles) {
        if h :| h in handles && !h.disabled && SpanOf(h.context) == span {
          LinkedMeans(links, h.context);
        } else {
          assert start[0] in links;
        }
      }
    }
  }

  /** A recording is linked exactly when every enabled handle is valid and there are at most sixteen
      different spans; the links then name each of these spans once, in the words of the origin or of
      a handle. */
  lemma LinksExactly(origin: Option<SpanContext>, detached: bool, handles: seq<Handle>)
    ensures var r := Links(origin, detached, handles);
      && (r.Some? <==> && (forall h :: h in handles && !h.disabled ==> ValidContext(h.context))
                       && |Spans(origin, detached, handles)| <= 16)
      && (r.Some? ==>
            && |r.value| == |Spans(origin, detached, handles)| && SpansOf(r.value) == Spans(origin, detached, handles)
            && forall c :: c in r.value ==>
                 || (detached && origin == Some(c))
                 || exists h :: h in handles && !h.disabled && h.context == c)
  {
    hide ValidContext, SameSpan, Linked, SpanOf, Collected, Spans, SpansOf;
    var links := Collected(Origin(origin, detached), handles);
    CollectedSpans(origin, detached, handles);
    CollectedLinks(Origin(origin, detached), handles);
    SpansCount(links);
    assert AllReferences(handles) <==> forall h :: h in handles && !h.disabled ==> ValidContext(h.context) by {
      if AllReferences(handles) {
        forall h | h in handles && !h.disabled
          ensures ValidContext(h.context)
        {
          var i :| 0 <= i < |handles| && handles[i] == h;
          assert Reference(handles[i]).Ok?;
        }
      }
      if forall h :: h in handles && !h.disabled ==> ValidContext(h.context) {
        forall i | 0 <= i < |handles|
          ensures Reference(handles[i]).Ok?
        {
          assert handles[i] in handles;
        }
      }
    }
  }

  // ----- a recording that is refused

  /** A span identity for each hexadecimal digit. */
  function SpanId(c: byte): Bytes { Repeat('1', 15) + [c] }

  const DIGITS: Bytes := "0123456789abcdef"

  function SampleContext(spanId: Bytes): SpanContext { SpanContext(Repeat('1', 32), spanId, 1, "", false) }

  function SampleHandles(digits: Bytes): (r: seq<Handle>)
    ensures |r| == |digits|
    ensures forall i :: 0 <= i < |digits| ==> r[i] == Handle(SampleContext(SpanId(digits[i])), false)
  {
    if digits == [] then []
    else [Handle(SampleContext(SpanId(digits[0])), false)] + SampleHandles(digits[1..])
  }

  lemma SampleValid(c: byte)
    requires LowerHex(c)
    ensures ValidContext(SampleContext(SpanId(c)))
  {
    hide Repeat;
    assert Repeat('1', 32)[0] == '1' && SpanId(c)[0] == '1';
  }

  lemma DigitsAreHex()
    ensures |DIGITS| == 16 && forall i :: 0 <= i < 16 ==> LowerHex(DIGITS[i])
    ensures forall i, j :: 0 <= i < j < 16 ==> DIGITS[i] < DIGITS[j]
  {
  }

  lemma SampleSpans(digits: Bytes)
    requires forall i :: 0 <= i < |digits| ==> LowerHex(digits[i])
    requires forall i, j :: 0 <= i < j < |digits| ==> digits[i] < digits[j]
    ensures AllReferences(SampleHandles(digits))
    ensures AllDifferent([SampleContext(Repeat('2', 16))], SampleHandles(digits))
  {
    hide ValidContext, SampleHandles, Repeat;
    var origin, handles := SampleContext(Repeat('2', 16)), SampleHandles(digits);
    forall i | 0 <= i < |digits|
      ensures Reference(handles[i]).Ok? && !handles[i].disabled && !Linked([origin], handles[i].context)
    {
      SampleValid(digits[i]);
      assert origin.spanId[0] == '2' && SpanId(digits[i])[0] == '1';
    }
    forall i, j | 0 <= i < j < |digits|
      ensures !SameSpan(handles[i].context, handles[j].context)
    {
      assert SpanId(digits[i])[15] == digits[i] && SpanId(digits[j])[15] == digits[j];
    }
  }

  /** Sixteen valid handles under a detached recording from a seventeenth span are refused,
      although no option exceeds its limit. */
  lemma SixteenValidLinksCanBeRefused()
    ensures var origin, handles := SampleContext(Repeat('2', 16)), SampleHandles(DIGITS);
      && ValidContext(origin) && AllReferences(handles) && |handles| == MAX_LINKS
      && Links(Some(origin), true, handles) == None
  {
    hide Links, ValidContext, AllReferences, AllDifferent, SampleContext, SampleHandles, Repeat;
    DigitsAreHex();
    OriginValid();
    SampleSpans(DIGITS);
    RefusedExactlyAtSeventeenSpans(Some(SampleContext(Repeat('2', 16))), true, SampleHandles(DIGITS));
  }

  lemma OriginValid()
    ensures ValidContext(SampleContext(Repeat('2', 16)))
  {
    hide Repeat;
    assert Repeat('2', 16)[0] == '2' && Repeat('1', 32)[0] == '1';
  }

  lemma {:induction false} FullMeansDistinct(start: seq<SpanContext>, handles: seq<Handle>)
    requires NoDuplicates(start) && |Collected(start, handles)| == |start| + |handles|
    ensures AllDifferent(start, handles)
  {
    if handles != [] {
      var init, last := handles[..|handles| - 1], handles[|handles| - 1];
      CollectedLinks(start, init);
      FullMeansDistinct(start, init);
      var links := Collected(start, init);
      assert !last.disabled && !Linked(links, last.context);
      LinkedPrefix(start, links, last.context);
      forall i | 0 <= i < |init|
        ensures !SameSpan(init[i].context, last.context)
      {
        assert init[i] in init;
        LinkedTransfers(links, init[i].context, last.context);
      }
      forall i, j | 0 <= i < j < |handles|
        ensures !SameSpan(handles[i].context, handles[j].context)
      {
        if j < |init| {
          assert !SameSpan(init[i].context, init[j].context);
        } else {
          assert handles[i] == init[i];
        }
      }
    }
  }

  lemma LinkedPrefix(start: seq<SpanContext>, links: seq<SpanContext>, c: SpanContext)
    requires start <= links
    ensures Linked(start, c) ==> Linked(links, c)
  {
    if Linked(start, c) {
      var i :| 0 <= i < |start| && SameSpan(start[i], c);
      assert SameSpan(links[i], c);
    }
  }

  lemma LinkedTransfers(links: seq<SpanContext>, a: SpanContext, b: SpanContext)
    requires Linked(links, a) && !Linked(links, b)
    ensures !SameSpan(a, b)
  {
    var i :| 0 <= i < |links| && SameSpan(links[i], a);
    assert !SameSpan(links[i], b);
  }
}
