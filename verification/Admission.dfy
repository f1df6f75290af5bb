/** Which series the allocator lets through (genai/cardinality.go), told by the writes alone: the
    first ones, as long as there is room beside the reserve. */
module Admission {
  import opened Bytes
  import opened Decimals
  import opened Cardinality
  import opened Tracking

  /** The normalized series of a write under a profile. */
  function OwnSeries(p: Profile, w: Write): Series
  {
    SeriesOf(NormalizeAll(AllowedOf(p.dimensions), w.instrument, w.attrs))
  }

  /** The different normalized series of an instrument among these writes. */
  function Distinct(p: Profile, ws: seq<Write>, instrument: Instrument): set<Series>
  {
    set i | 0 <= i < |ws| && ws[i].instrument == instrument :: OwnSeries(p, ws[i])
  }

  /** The number of series an instrument may have besides its reserve. */
  function Room(p: Profile, instrument: Instrument): int { p.budget - Reserve(AllowedOf(p.dimensions), instrument) }

  /** The first write of its instrument with the normalized series of write j, looked for from write i on. */
  function First(p: Profile, ws: seq<Write>, j: nat, i: nat): (f: nat)
    requires i <= j < |ws|
    requires forall k :: 0 <= k < i && ws[k].instrument == ws[j].instrument ==>
               OwnSeries(p, ws[k]) != OwnSeries(p, ws[j])
    ensures f <= j && ws[f].instrument == ws[j].instrument && OwnSeries(p, ws[f]) == OwnSeries(p, ws[j])
    ensures forall k :: 0 <= k < f && ws[k].instrument == ws[j].instrument ==>
               OwnSeries(p, ws[k]) != OwnSeries(p, ws[j])
    decreases j - i
  {
    if i == j || (ws[i].instrument == ws[j].instrument && OwnSeries(p, ws[i]) == OwnSeries(p, ws[j])) then i
    else First(p, ws, j, i + 1)
  }

  /** The different series of an instrument among the first k writes. */
  function Upto(p: Profile, ws: seq<Write>, k: nat, instrument: Instrument): set<Series>
    requires k <= |ws|
  {
    Distinct(p, ws[..k], instrument)
  }

  function Count(p: Profile, ws: seq<Write>, k: nat, instrument: Instrument): nat
    requires k <= |ws|
  {
    |Upto(p, ws, k, instrument)|
  }

  lemma UptoSnoc(p: Profile, ws: seq<Write>, k: nat, instrument: Instrument)
    requires k < |ws|
    ensures Upto(p, ws, 0, instrument) == {}
    ensures Upto(p, ws, k + 1, instrument) ==
      Upto(p, ws, k, instrument) + if ws[k].instrument == instrument then {OwnSeries(p, ws[k])} else {}
  {
    hide OwnSeries;
    var before, after := ws[..k], ws[..k + 1];
    assert after == before + [ws[k]];
    assert forall i :: 0 <= i < k ==> after[i] == before[i];
    assert after[k] == ws[k];
  }

  lemma CountSnoc(p: Profile, ws: seq<Write>, k: nat, instrument: Instrument)
    requires k < |ws|
    ensures Count(p, ws, k + 1, instrument) ==
      Count(p, ws, k, instrument)
        + if ws[k].instrument == instrument && OwnSeries(p, ws[k]) !in Upto(p, ws, k, instrument) then 1 else 0
  {
    hide OwnSeries, Upto;
    UptoSnoc(p, ws, k, instrument);
    var before := Upto(p, ws, k, instrument);
    if ws[k].instrument == instrument {
      if OwnSeries(p, ws[k]) in before {
        assert before + {OwnSeries(p, ws[k])} == before;
      }
    } else {
      assert before + {} == before;
    }
  }

  lemma NothingCounted(p: Profile, ws: seq<Write>, instrument: Instrument)
    ensures Count(p, ws, 0, instrument) == 0
  {
    assert Upto(p, ws, 0, instrument) == {};
  }

  lemma {:induction false} UptoGrows(p: Profile, ws: seq<Write>, j: nat, k: nat, instrument: Instrument)
    requires j <= k <= |ws|
    ensures Upto(p, ws, j, instrument) <= Upto(p, ws, k, instrument)
    ensures Count(p, ws, j, instrument) <= Count(p, ws, k, instrument)
    decreases k - j
  {
    hide Upto, OwnSeries;
    if j < k {
      UptoGrows(p, ws, j, k - 1, instrument);
      UptoSnoc(p, ws, k - 1, instrument);
      CountSnoc(p, ws, k - 1, instrument);
    }
  }

  /** How many of k writes came before the room was used up. */
  function LastRoom(p: Profile, ws: seq<Write>, k: nat, instrument: Instrument): (m: nat)
    requires k <= |ws|
    ensures m <= k
  {
    if k == 0 || Count(p, ws, k, instrument) <= Room(p, instrument) then k else LastRoom(p, ws, k - 1, instrument)
  }

  lemma {:induction false} LastRoomIs(p: Profile, ws: seq<Write>, k: nat, instrument: Instrument)
    requires k <= |ws| && 0 < Room(p, instrument)
    ensures var m := LastRoom(p, ws, k, instrument);
      && Count(p, ws, m, instrument) <= Room(p, instrument)
      && (m < k ==> Count(p, ws, m + 1, instrument) > Room(p, instrument)
                    && Count(p, ws, m, instrument) == Room(p, instrument))
  {
    hide Count, Room, OwnSeries, Upto;
    if k == 0 {
      NothingCounted(p, ws, instrument);
    } else if Count(p, ws, k, instrument) > Room(p, instrument) {
      LastRoomIs(p, ws, k - 1, instrument);
      CountSnoc(p, ws, k - 1, instrument);
    }
  }

  /** The state after the first k writes of a run. */
  function At(p: Profile, ws: seq<Write>, k: nat): State
    requires k <= |ws|
  {
    RunState(Start(p), ws[..k])
  }

  lemma AtSnoc(p: Profile, ws: seq<Write>, k: nat)
    requires k < |ws|
    ensures At(p, ws, k + 1) == NextState(At(p, ws, k), ws[k].instrument, ws[k].attrs)
  {
    hide NextState, Start;
    assert ws[..k + 1] == ws[..k] + [ws[k]];
    RunSnoc(Start(p), ws[..k], ws[k]);
  }

  /** The state belongs to the profile, and has admitted this much for the instrument. */
  ghost predicate Admits(p: Profile, s: State, instrument: Instrument, seen: set<Series>)
  {
    s.budget == p.budget && s.allowed == AllowedOf(p.dimensions) && Seen(s, instrument) == seen
  }

  lemma StepAdmits(p: Profile, s: State, w: Write, instrument: Instrument, seen: set<Series>)
    requires Admits(p, s, instrument, seen)
    ensures Admits(p, NextState(s, w.instrument, w.attrs), instrument,
                   if w.instrument == instrument && OwnSeries(p, w) !in seen && |seen| < Room(p, instrument)
                   then seen + {OwnSeries(p, w)} else seen)
  {
    hide Reserve, NormalizeAll, SeriesOf, AllowedOf;
  }

  /** The combinations admitted by k writes are all that appeared while there was room. */
  lemma {:induction false} AdmittedSoFar(p: Profile, ws: seq<Write>, k: nat, instrument: Instrument)
    requires k <= |ws| && 0 < Room(p, instrument)
    ensures Admits(p, At(p, ws, k), instrument, Upto(p, ws, LastRoom(p, ws, k, instrument), instrument))
  {
    hide Admits, At, Upto, LastRoom, Room, NextState, OwnSeries;
    if k == 0 {
      NothingAdmitted(p, ws, instrument);
    } else {
      AdmittedSoFar(p, ws, k - 1, instrument);
      AtSnoc(p, ws, k - 1);
      var seen := Upto(p, ws, LastRoom(p, ws, k - 1, instrument), instrument);
      StepAdmits(p, At(p, ws, k - 1), ws[k - 1], instrument, seen);
      RoomStep(p, ws, k - 1, instrument);
    }
  }

  lemma NothingAdmitted(p: Profile, ws: seq<Write>, instrument: Instrument)
    ensures Admits(p, At(p, ws, 0), instrument, Upto(p, ws, LastRoom(p, ws, 0, instrument), instrument))
  {
    assert ws[..0] == [];
    assert Upto(p, ws, 0, instrument) == {};
  }

  /** One write more, in the terms of the writes. */
  lemma RoomStep(p: Profile, ws: seq<Write>, k: nat, instrument: Instrument)
    requires k < |ws| && 0 < Room(p, instrument)
    ensures var seen := Upto(p, ws, LastRoom(p, ws, k, instrument), instrument);
      Upto(p, ws, LastRoom(p, ws, k + 1, instrument), instrument) ==
        if ws[k].instrument == instrument && OwnSeries(p, ws[k]) !in seen && |seen| < Room(p, instrument)
        then seen + {OwnSeries(p, ws[k])} else seen
  {
    hide Upto, Room, OwnSeries;
    LastRoomIs(p, ws, k, instrument);
    UptoSnoc(p, ws, k, instrument);
    CountSnoc(p, ws, k, instrument);
    var before := Upto(p, ws, k, instrument);
    assert before + {} == before;
    if OwnSeries(p, ws[k]) in before {
      assert before + {OwnSeries(p, ws[k])} == before;
    }
  }

  // ----- what is exported

  lemma {:induction false} OutputPrefix(s: State, ws: seq<Write>, k: nat)
    requires k <= |ws|
    ensures RunOutput(s, ws)[..k] == RunOutput(s, ws[..k])
    decreases |ws|
  {
    hide NextState, Output;
    if k < |ws| {
      var init := ws[..|ws| - 1];
      assert ws == init + [ws[|ws| - 1]];
      RunSnoc(s, init, ws[|ws| - 1]);
      OutputPrefix(s, init, k);
      assert init[..k] == ws[..k];
    } else {
      AddEmpty(ws);
      AddEmpty(RunOutput(s, ws));
    }
  }

  lemma OutputAt(p: Profile, ws: seq<Write>, j: nat)
    requires j < |ws|
    ensures RunOutput(Start(p), ws)[j].attrs == Output(At(p, ws, j), ws[j].instrument, ws[j].attrs)
  {
    hide NextState, Output, RunOutput, RunState, Start;
    OutputPrefix(Start(p), ws, j + 1);
    assert ws[..j + 1] == ws[..j] + [ws[j]];
    RunSnoc(Start(p), ws[..j], ws[j]);
    assert RunOutput(Start(p), ws)[j] == RunOutput(Start(p), ws)[..j + 1][j];
  }

  /** A dimension of the profile lists the value. */
  predicate Listed(ds: seq<Dimension>, a: Attribute)
  {
    exists i :: 0 <= i < |ds| && ds[i].key == a.key &&
      match a.value
      case Text(s) => s in ds[i].values
      case Int(n) => FormatInt(n) in ds[i].values
      case Bool(b) => (if b then "true" else "false") in ds[i].values
  }

  /** The keys that tell provenance, outcome and boundary, and the currency of a cost. */
  predicate AlwaysKept(instrument: Instrument, k: Key)
  {
    k in {Source, Calculation, TokenType, Status, InvocationKind, Locality} || (k == Currency && instrument == Cost)
  }

  /** What a series shows of an attribute. */
  function Shown(ds: seq<Dimension>, instrument: Instrument, a: Attribute): Attribute
  {
    if AlwaysKept(instrument, a.key) || Listed(ds, a) then a
    else a.(value := if a.value.Int? then Int(0) else Text("unknown"))
  }

  lemma {:induction false} ListedValues(ds: seq<Dimension>, k: Key, s: Bytes)
    requires forall i, j :: 0 <= i < j < |ds| ==> ds[i].key != ds[j].key
    ensures s in Values(AllowedOf(ds), k) <==> exists i :: 0 <= i < |ds| && ds[i].key == k && s in ds[i].values
  {
    if ds != [] {
      var init, last := ds[..|ds| - 1], ds[|ds| - 1];
      ListedValues(init, k, s);
      assert forall i :: 0 <= i < |init| ==> init[i] == ds[i];
      if exists i :: 0 <= i < |init| && init[i].key == k && s in init[i].values {
        var i :| 0 <= i < |init| && init[i].key == k && s in init[i].values;
        assert ds[i].key == k && s in ds[i].values && last.key != k;
      }
      if last.key == k && s in last.values {
        assert ds[|ds| - 1].key == k;
      }
    }
  }

  lemma NormalizedIsShown(p: Profile, instrument: Instrument, a: Attribute)
    requires ValidProfile(p)
    ensures NormalizeOne(AllowedOf(p.dimensions), instrument, a) == Shown(p.dimensions, instrument, a)
  {
    hide AllowedOf, Values;
    ListedValues(p.dimensions, a.key, ValueText(a.value));
  }

  lemma OverflowShown(s: State, w: Write)
    requires OwnOverflows(s, w)
    ensures SeriesOf(Output(s, w.instrument, w.attrs)) == Meaning(w.instrument, w.attrs)[Overflow := Bool(true)]
  {
    hide Reserve, NormalizeAll, Semantic, SeriesOf;
    var part := SemanticPart(w.instrument, w.attrs);
    SeriesOfPart(w.instrument, w.attrs);
    OverflowMeaning(w.instrument, part);
  }

  /** The write has neither been admitted nor is there room for it. */
  predicate OwnOverflows(s: State, w: Write)
  {
    var seen := Seen(s, w.instrument);
    SeriesOf(NormalizeAll(s.allowed, w.instrument, w.attrs)) !in seen
      && |seen| >= s.budget - Reserve(s.allowed, w.instrument)
  }

  /** In terms of the writes: room was used up before the series of write j appeared. */
  lemma OverflowsWhenFull(p: Profile, ws: seq<Write>, j: nat)
    requires j < |ws| && 0 < Room(p, ws[j].instrument)
    ensures OwnOverflows(At(p, ws, j), ws[j])
       <==> Count(p, ws, First(p, ws, j, 0) + 1, ws[j].instrument) > Room(p, ws[j].instrument)
  {
    hide Count, Upto, At, LastRoom, Reserve, AllowedOf, SeriesOf, NormalizeAll;
    var instrument := ws[j].instrument;
    var f, m := First(p, ws, j, 0), LastRoom(p, ws, j, instrument);
    AdmittedSoFar(p, ws, j, instrument);
    LastRoomIs(p, ws, j, instrument);
    FirstAppears(p, ws, j, f, m);
    CountSnoc(p, ws, f, instrument);
    if f < m {
      UptoGrows(p, ws, f + 1, m, instrument);
    } else if m < f {
      UptoGrows(p, ws, m + 1, f, instrument);
    }
    FirstAppears(p, ws, j, f, f);
    CountIs(p, ws, m, instrument);
  }

  lemma CountIs(p: Profile, ws: seq<Write>, m: nat, instrument: Instrument)
    requires m <= |ws|
    ensures |Upto(p, ws, m, instrument)| == Count(p, ws, m, instrument)
  {
  }

  lemma FirstAppears(p: Profile, ws: seq<Write>, j: nat, f: nat, m: nat)
    requires j < |ws| && m <= |ws| && f == First(p, ws, j, 0)
    ensures OwnSeries(p, ws[j]) in Upto(p, ws, m, ws[j].instrument) <==> f < m
  {
    hide OwnSeries;
    var before := ws[..m];
    if f < m {
      assert before[f] == ws[f];
    }
    assert forall i :: 0 <= i < m ==> before[i] == ws[i];
  }

  /** Over every run from a fresh allocator of a valid profile a write is let through with its own
      normalized attributes exactly when its series was among the first that the budget has room for
      besides the reserve; otherwise only its meaning and the overflow mark remain. */
  lemma FirstSeriesAreAdmitted(p: Profile, ws: seq<Write>, j: nat)
    requires ValidProfile(p) && j < |ws|
    ensures var w, out := ws[j], RunOutput(Start(p), ws)[j].attrs;
      var fits := |Distinct(p, ws[..First(p, ws, j, 0) + 1], w.instrument)|
        <= p.budget - Reserve(AllowedOf(p.dimensions), w.instrument);
      && (fits ==> |out| == |w.attrs|
                   && forall i :: 0 <= i < |out| ==> out[i] == Shown(p.dimensions, w.instrument, w.attrs[i]))
      && (!fits ==> SeriesOf(out) == Meaning(w.instrument, w.attrs)[Overflow := Bool(true)])
  {
    hide Distinct, OwnSeries, Reserve, AllowedOf, NormalizeOne, Shown, SeriesOf, Meaning, RunOutput, At, ValidProfile;
    var w := ws[j];
    ReserveLeavesRoom(p, w.instrument);
    OutputAt(p, ws, j);
    OverflowsWhenFull(p, ws, j);
    AdmittedSoFar(p, ws, j, w.instrument);
    if OwnOverflows(At(p, ws, j), w) {
      OverflowShown(At(p, ws, j), w);
    } else {
      forall i | 0 <= i < |w.attrs|
        ensures NormalizeOne(AllowedOf(p.dimensions), w.instrument, w.attrs[i])
             == Shown(p.dimensions, w.instrument, w.attrs[i])
      {
        NormalizedIsShown(p, w.instrument, w.attrs[i]);
      }
    }
  }

  /** The overflow mark itself tells the two apart. */
  lemma OverflowIsMarked(p: Profile, ws: seq<Write>, j: nat)
    requires ValidProfile(p) && j < |ws| && forall i :: 0 <= i < |ws[j].attrs| ==> ws[j].attrs[i].key != Overflow
    ensures Overflow in SeriesOf(RunOutput(Start(p), ws)[j].attrs)
       <==> |Distinct(p, ws[..First(p, ws, j, 0) + 1], ws[j].instrument)|
            > p.budget - Reserve(AllowedOf(p.dimensions), ws[j].instrument)
  {
    hide Distinct, OwnSeries, Reserve, AllowedOf, Listed, SeriesOf, Meaning, RunOutput, ValidProfile, First;
    FirstSeriesAreAdmitted(p, ws, j);
    NoMark(RunOutput(Start(p), ws)[j].attrs);
  }

  lemma {:induction false} NoMark(attrs: seq<Attribute>)
    ensures (forall i :: 0 <= i < |attrs| ==> attrs[i].key != Overflow) ==> Overflow !in SeriesOf(attrs)
  {
    if attrs != [] {
      NoMark(attrs[..|attrs| - 1]);
    }
  }
}
