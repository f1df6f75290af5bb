/** Completeness of payload evidence (genai/conformance_evidence.go): which attributes and which
    truncation markers must accompany each other. */
module EvidenceCompleteness {
  import opened Bytes
  import opened Payload

  /** A declared field: its name and whether it is encoded as a boolean. */
  datatype Field = Field(name: Bytes, boolean: bool)

  /** The controlled channels of a contract and the channel of each truncation marker. */
  datatype Channels = Channels(controlled: set<Bytes>, markers: map<Bytes, Bytes>)

  predicate ValidTruncationField(c: Channels, f: Field, seen: set<Bytes>)
  {
    f.name in c.markers ==> c.markers[f.name] in seen && f.boolean
  }

  ghost predicate Distinct(names: seq<Bytes>) { forall i, j :: 0 <= i < j < |names| ==> names[i] != names[j] }

  /** One payload per attribute, each a field of the span; each marker with its payload; each
      controlled field with its payload. */
  ghost predicate Complete(c: Channels, fields: seq<Field>, payloads: seq<Bytes>)
  {
    && Distinct(payloads)
    && (forall n :: n in payloads ==> exists f :: f in fields && f.name == n)
    && (forall f :: f in fields ==> f.name in c.markers ==> c.markers[f.name] in payloads && f.boolean)
    && (forall f :: f in fields && f.name in c.controlled ==> f.name in payloads)
  }

  method CompletePayloadEvidence(c: Channels, fields: seq<Field>, payloads: seq<Bytes>) returns (ok: bool)
    ensures ok <==>
      && (forall i, j :: 0 <= i < j < |payloads| ==> payloads[i] != payloads[j])
      && (forall n :: n in payloads ==> exists f :: f in fields && f.name == n)
      && (forall f :: f in fields && f.name in c.markers ==> c.markers[f.name] in payloads && f.boolean)
      && (forall f :: f in fields && f.name in c.controlled ==> f.name in payloads)
    ensures ok <==> Complete(c, fields, payloads)
  {
    var seen: set<Bytes> := {};
    var i := 0;
    while i < |payloads|
      invariant 0 <= i <= |payloads| && Distinct(payloads[..i])
      invariant forall n :: n in seen <==> n in payloads[..i]
      invariant forall n :: n in payloads[..i] ==> exists f :: f in fields && f.name == n
    {
      var name := payloads[i];
      if name in seen {
        return false;
      }
      var present := HasField(fields, name);
      if !present {
        assert payloads[i] in payloads;
        return false;
      }
      assert payloads[..i + 1] == payloads[..i] + [name];
      seen := seen + {name};
      i := i + 1;
    }
    assert payloads[..i] == payloads;
    i := 0;
    while i < |fields|
      invariant 0 <= i <= |fields|
      invariant forall k :: 0 <= k < i ==> ValidTruncationField(c, fields[k], seen)
      invariant forall k :: 0 <= k < i ==> fields[k].name in c.controlled ==> fields[k].name in seen
    {
      assert fields[i] in fields;
      if !ValidTruncationField(c, fields[i], seen) {
        return false;
      }
      if fields[i].name in c.controlled && fields[i].name !in seen {
        return false;
      }
      i := i + 1;
    }
    return true;
  }

  method HasField(fields: seq<Field>, name: Bytes) returns (present: bool)
    ensures present <==> exists f :: f in fields && f.name == name
  {
    var i := 0;
    while i < |fields|
      invariant 0 <= i <= |fields| && forall k :: 0 <= k < i ==> fields[k].name != name
    {
      if fields[i].name == name {
        assert fields[i] in fields;
        return true;
      }
      i := i + 1;
    }
    return false;
  }

  // ----- what the exporter emits

  function NameOf(c: Channel): Bytes
  {
    match c
    case SystemInstructions => "gen_ai.system_instructions"
    case InputMessages => "gen_ai.input.messages"
    case OutputMessages => "gen_ai.output.messages"
  }

  function MarkerOf(c: Channel): Bytes
  {
    match c
    case SystemInstructions => "metry.gen_ai.payload.system_instructions.truncated"
    case InputMessages => "metry.gen_ai.payload.input_messages.truncated"
    case OutputMessages => "metry.gen_ai.payload.output_messages.truncated"
  }

  /** The field of an emitted attribute. */
  function FieldOf(a: Attribute): Field
  {
    match a
    case Value(c, _) => Field(NameOf(c), false)
    case Truncated(c) => Field(MarkerOf(c), true)
  }

  function FieldsOf(attrs: seq<Attribute>): (r: seq<Field>)
    ensures |r| == |attrs| && forall i :: 0 <= i < |attrs| ==> r[i] == FieldOf(attrs[i])
  {
    seq(|attrs|, i requires 0 <= i < |attrs| => FieldOf(attrs[i]))
  }

  function PayloadNames(attrs: seq<Attribute>): seq<Bytes>
  {
    if attrs == [] then []
    else (if attrs[0].Value? then [NameOf(attrs[0].channel)] else []) + PayloadNames(attrs[1..])
  }

  /** A contract that declares the three message channels with their markers. */
  ghost predicate Declares(c: Channels)
  {
    && (forall ch: Channel :: MarkerOf(ch) in c.markers && c.markers[MarkerOf(ch)] == NameOf(ch))
    && (forall ch: Channel :: NameOf(ch) !in c.markers && MarkerOf(ch) !in c.controlled)
  }

  lemma {:induction false} NamesConcat(a: seq<Attribute>, b: seq<Attribute>)
    ensures PayloadNames(a + b) == PayloadNames(a) + PayloadNames(b)
  {
    hide NameOf;
    if a == [] {
      AddEmpty(b);
      AddEmpty(PayloadNames(b));
    } else {
      var head := if a[0].Value? then [NameOf(a[0].channel)] else [];
      NamesConcat(a[1..], b);
      assert (a + b)[1..] == a[1..] + b;
      Assoc(head, PayloadNames(a[1..]), PayloadNames(b));
    }
  }

  /** The attributes of some channels: each marker has its value, each value its own channel. */
  ghost predicate Paired(attrs: seq<Attribute>, cs: seq<Channel>)
  {
    && Distinct(PayloadNames(attrs))
    && (forall a :: a in attrs ==> a.channel in cs && NameOf(a.channel) in PayloadNames(attrs))
    && (forall n :: n in PayloadNames(attrs) ==> exists a :: a in attrs && a.Value? && NameOf(a.channel) == n)
  }

  lemma ChannelPaired(p: Payload, c: Channel, limit: int)
    requires ChannelAttributes(p, c, limit).Some?
    ensures Paired(ChannelAttributes(p, c, limit).value, [c])
    ensures forall n :: n in PayloadNames(ChannelAttributes(p, c, limit).value) ==> n == NameOf(c)
  {
    hide ChannelJson, BoundedJson.BoundedArray, NameOf;
    var attrs := ChannelAttributes(p, c, limit).value;
    if attrs != [] {
      assert PayloadNames(attrs[1..]) == [] by {
        if |attrs| == 2 {
          assert attrs[1..][1..] == [];
        }
      }
      assert attrs[0] in attrs;
    }
  }

  lemma NamesDiffer(c: Channel, d: Channel)
    requires c != d
    ensures NameOf(c) != NameOf(d)
  {
    assert |NameOf(SystemInstructions)| != |NameOf(InputMessages)|;
    assert |NameOf(InputMessages)| != |NameOf(OutputMessages)|;
    assert NameOf(SystemInstructions)[7] == 's' && NameOf(OutputMessages)[7] == 'o';
  }

  lemma {:induction false} ChannelsPaired(p: Payload, cs: seq<Channel>, limit: int)
    requires ChannelsAttributes(p, cs, limit).Some?
    requires forall i, j :: 0 <= i < j < |cs| ==> cs[i] != cs[j]
    ensures Paired(ChannelsAttributes(p, cs, limit).value, cs)
  {
    hide ChannelAttributes, NameOf;
    if cs != [] {
      var a, rest := ChannelAttributes(p, cs[0], limit).value, ChannelsAttributes(p, cs[1..], limit).value;
      ChannelPaired(p, cs[0], limit);
      ChannelsPaired(p, cs[1..], limit);
      NamesConcat(a, rest);
      assert cs == [cs[0]] + cs[1..];
      forall n | n in PayloadNames(rest)
        ensures n != NameOf(cs[0])
      {
        var x :| x in rest && x.Value? && NameOf(x.channel) == n;
        var i :| 0 <= i < |cs[1..]| && cs[1..][i] == x.channel;
        assert cs[i + 1] != cs[0];
        NamesDiffer(x.channel, cs[0]);
      }
      PairedConcat(a, rest, [cs[0]], cs[1..]);
    }
  }

  lemma PairedConcat(a: seq<Attribute>, b: seq<Attribute>, cs: seq<Channel>, ds: seq<Channel>)
    requires Paired(a, cs) && Paired(b, ds) && forall n :: n in PayloadNames(a) ==> n !in PayloadNames(b)
    ensures Paired(a + b, cs + ds)
  {
    hide PayloadNames, NameOf;
    NamesConcat(a, b);
    var names := PayloadNames(a + b);
    forall i, j | 0 <= i < j < |names|
      ensures names[i] != names[j]
    {
      if i < |PayloadNames(a)| <= j {
        assert names[i] in PayloadNames(a) && names[j] in PayloadNames(b);
      }
    }
    forall n | n in names
      ensures exists x :: x in a + b && x.Value? && NameOf(x.channel) == n
    {
      if n in PayloadNames(a) {
        var x :| x in a && x.Value? && NameOf(x.channel) == n;
        assert x in a + b;
      } else {
        var x :| x in b && x.Value? && NameOf(x.channel) == n;
        assert x in a + b;
      }
    }
  }

  /** Every emitted payload is a field. */
  lemma NamesAreFields(attrs: seq<Attribute>, cs: seq<Channel>)
    requires Paired(attrs, cs)
    ensures forall n :: n in PayloadNames(attrs) ==> exists f :: f in FieldsOf(attrs) && f.name == n
  {
    hide NameOf, MarkerOf, PayloadNames;
    var fields := FieldsOf(attrs);
    forall n | n in PayloadNames(attrs)
      ensures exists f :: f in fields && f.name == n
    {
      var a :| a in attrs && a.Value? && NameOf(a.channel) == n;
      var i :| 0 <= i < |attrs| && attrs[i] == a;
      assert fields[i] in fields && fields[i].name == n;
    }
  }

  /** Every emitted field comes with its payload. */
  lemma FieldsHaveNames(attrs: seq<Attribute>, cs: seq<Channel>, c: Channels)
    requires Paired(attrs, cs) && Declares(c)
    ensures forall f :: f in FieldsOf(attrs) ==>
              && (f.name in c.markers ==> c.markers[f.name] in PayloadNames(attrs) && f.boolean)
              && (f.name in c.controlled ==> f.name in PayloadNames(attrs))
  {
    hide NameOf, MarkerOf, PayloadNames;
    var fields := FieldsOf(attrs);
    forall f | f in fields
      ensures f.name in c.markers ==> c.markers[f.name] in PayloadNames(attrs) && f.boolean
      ensures f.name in c.controlled ==> f.name in PayloadNames(attrs)
    {
      var i :| 0 <= i < |fields| && fields[i] == f;
      assert attrs[i] in attrs;
    }
  }

  lemma NothingIsComplete(c: Channels)
    ensures Complete(c, FieldsOf([]), PayloadNames([]))
  {
  }

  /** What the exporter emits is complete evidence under every contract that declares the
      message channels: no orphaned marker, no controlled field without its payload, none twice. */
  lemma ExporterEvidenceIsComplete(cfg: Config, p: Payload, c: Channels)
    requires PayloadAttributes(cfg, p).Some? && Declares(c)
    ensures Complete(c, FieldsOf(PayloadAttributes(cfg, p).value), PayloadNames(PayloadAttributes(cfg, p).value))
  {
    hide ChannelsAttributes, Accepted, FieldsOf, PayloadNames, Declares, CHANNELS;
    var attrs := PayloadAttributes(cfg, p).value;
    if attrs != [] {
      EmittedPaired(cfg, p);
      NamesAreFields(attrs, CHANNELS);
      FieldsHaveNames(attrs, CHANNELS, c);
    } else {
      NothingIsComplete(c);
    }
  }

  lemma EmittedPaired(cfg: Config, p: Payload)
    requires PayloadAttributes(cfg, p).Some? && PayloadAttributes(cfg, p).value != []
    ensures Paired(PayloadAttributes(cfg, p).value, CHANNELS)
  {
    hide ChannelsAttributes, Accepted, Paired;
    ChannelsPaired(SanitizePayload(cfg.policy, p), CHANNELS, cfg.limit);
  }
}
