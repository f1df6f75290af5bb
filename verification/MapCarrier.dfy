/** Propagation through a host's own map (propagation/map.go). */
module MapCarrier {
  import opened Bytes
  import opened Propagation

  /** A value of the host's map: a string or anything else. */
  datatype Any = Str(s: Bytes) | Other(id: int)

  class HostMap {
    var values: map<Bytes, Any>

    constructor (values: map<Bytes, Any>)
      ensures this.values == values
    {
      this.values := values;
    }
  }

  /** Any propagator: what it writes into an empty carrier, and the context it extracts. */
  datatype AnyPropagator = AnyPropagator(
    fields: seq<Bytes>, inject: Context -> map<Bytes, Bytes>, extract: (Context, map<Bytes, Bytes>) -> Context)

  /** Declared fields are replaced or cleared, undeclared writes ignored, host keys kept. */
  function InjectedMap(fields: seq<Bytes>, before: map<Bytes, Any>, written: map<Bytes, Bytes>): map<Bytes, Any>
  {
    map k | k in before.Keys + (set f | f in fields) && (k in fields ==> ValueAt(written, k) != "") ::
      if k in fields then Str(ValueAt(written, k)) else before[k]
  }

  method InjectToMap(ctx: Context, propagator: Option<AnyPropagator>, carrier: HostMap?)
    modifies carrier
    ensures carrier != null && propagator == None ==> carrier.values == old(carrier.values)
    ensures carrier != null && propagator.Some? ==>
              carrier.values == InjectedMap(propagator.value.fields, old(carrier.values), propagator.value.inject(ctx))
  {
    if carrier == null || propagator == None {
      return;
    }
    var fields, written := propagator.value.fields, propagator.value.inject(ctx);
    ghost var before := carrier.values;
    Delete(carrier, fields);
    var i := 0;
    while i < |fields|
      invariant 0 <= i <= |fields|
      invariant forall k :: k in carrier.values <==>
                  (k in before && k !in fields) || (k in fields[..i] && ValueAt(written, k) != "")
      invariant forall k :: k in carrier.values ==>
                  carrier.values[k] == if k in fields then Str(ValueAt(written, k)) else before[k]
    {
      assert fields[..i + 1] == fields[..i] + [fields[i]] && fields[i] in fields;
      var v := ValueAt(written, fields[i]);
      if v != "" {
        carrier.values := carrier.values[fields[i] := Str(v)];
      }
      i := i + 1;
    }
    assert fields[..i] == fields;
  }

  method Delete(carrier: HostMap, fields: seq<Bytes>)
    modifies carrier
    ensures forall k :: k in carrier.values <==> k in old(carrier.values) && k !in fields
    ensures forall k :: k in carrier.values ==> carrier.values[k] == old(carrier.values)[k]
  {
    var i := 0;
    while i < |fields|
      invariant 0 <= i <= |fields|
      invariant forall k :: k in carrier.values <==> k in old(carrier.values) && k !in fields[..i]
      invariant forall k :: k in carrier.values ==> carrier.values[k] == old(carrier.values)[k]
    {
      assert fields[..i + 1] == fields[..i] + [fields[i]];
      carrier.values := carrier.values - {fields[i]};
      i := i + 1;
    }
    assert fields[..i] == fields;
  }

  /** The usable entries of a host's map: declared, of string type, not empty. */
  function Usable(fields: seq<Bytes>, values: map<Bytes, Any>): map<Bytes, Bytes>
  {
    map k | k in values && k in fields && values[k].Str? && values[k].s != "" :: values[k].s
  }

  method ExtractFromMap(ctx: Context, propagator: Option<AnyPropagator>, carrier: HostMap?) returns (r: Context)
    ensures propagator == None || carrier == null ==> r == ctx
    ensures propagator.Some? && carrier != null ==>
              var usable := Usable(propagator.value.fields, carrier.values);
              r == if usable == map[] then ctx else propagator.value.extract(ctx, usable)
  {
    if propagator == None || carrier == null || carrier.values == map[] {
      if propagator.Some? && carrier != null {
        assert Usable(propagator.value.fields, carrier.values) == map[];
      }
      return ctx;
    }
    var fields := propagator.value.fields;
    var strings: map<Bytes, Bytes> := map[];
    var i := 0;
    while i < |fields|
      invariant 0 <= i <= |fields| && strings == Usable(fields[..i], carrier.values)
    {
      assert fields[..i + 1] == fields[..i] + [fields[i]];
      var k := fields[i];
      i := i + 1;
      if k !in carrier.values || !carrier.values[k].Str? || carrier.values[k].s == "" {
        continue;
      }
      strings := strings[k := carrier.values[k].s];
    }
    assert fields[..i] == fields;
    if strings == map[] {
      return ctx;
    }
    return propagator.value.extract(ctx, strings);
  }

  /** Through a host's map a context arrives as through the propagator itself, and the host's
      own entries have no influence. */
  lemma MapIsTransparent(fields: seq<Bytes>, before: map<Bytes, Any>, written: map<Bytes, Bytes>)
    ensures Usable(fields, InjectedMap(fields, before, written)) == Declared(fields, written)
    ensures forall k :: k in before && k !in fields ==>
              k in InjectedMap(fields, before, written) && InjectedMap(fields, before, written)[k] == before[k]
  {
    var after := InjectedMap(fields, before, written);
    forall k
      ensures k in Usable(fields, after) <==> k in Declared(fields, written)
    {
      if k in fields && k in written && written[k] != "" {
        assert k in before.Keys + (set f | f in fields);
      }
    }
  }
}
