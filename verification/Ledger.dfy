/** The ledger of trusted enrichment values (internal/enrichment/context.go). */
module Ledger {
  import opened Bytes
  import opened Decimals

  const TYPE_KEY: Bytes := "metry.attr.type"

  /** A value with the name of its type; local values were set in this process. */
  datatype Entry = Entry(key: Bytes, text: Bytes, typeName: Bytes, local: bool)

  // ----- putting values

  /** The first entry of a key. */
  function Find(ledger: seq<Entry>, key: Bytes): (i: Option<nat>)
    ensures i.Some? ==>
              && i.value < |ledger| && ledger[i.value].key == key
              && forall j :: 0 <= j < i.value ==> ledger[j].key != key
    ensures i.None? ==> forall j :: 0 <= j < |ledger| ==> ledger[j].key != key
  {
    if ledger == [] then None
    else if ledger[0].key == key then Some(0)
    else
      match Find(ledger[1..], key)
      case None => None
      case Some(i) => Some(i + 1)
  }

  function Lookup(ledger: seq<Entry>, key: Bytes): Option<Entry>
  {
    match Find(ledger, key)
    case None => None
    case Some(i) => Some(ledger[i])
  }

  /** A remote value never replaces a local one. */
  function PutOne(ledger: seq<Entry>, v: Entry): seq<Entry>
  {
    match Find(ledger, v.key)
    case None => ledger + [v]
    case Some(i) => if v.local || !ledger[i].local then ledger[i := v] else ledger
  }

  function PutAll(ledger: seq<Entry>, vs: seq<Entry>): seq<Entry>
  {
    if vs == [] then ledger else PutOne(PutAll(ledger, vs[..|vs| - 1]), vs[|vs| - 1])
  }

  /** Values are put into a copy: the published ledger and every snapshot of it stay as they are. */
  method Put(published: array<Entry>, incoming: seq<Entry>) returns (r: array<Entry>)
    ensures fresh(r) && r[..] == PutAll(published[..], incoming)
  {
    hide PutOne;
    var values := new Entry[published.Length + |incoming|](i => Entry("", "", "", false));
    var n: nat := 0;
    while n < published.Length
      invariant 0 <= n <= published.Length && values[..n] == published[..n]
    {
      values[n] := published[n];
      n := n + 1;
    }
    assert values[..n] == published[..];
    var k := 0;
    while k < |incoming|
      invariant 0 <= k <= |incoming| && n <= published.Length + k
      invariant values[..n] == PutAll(published[..], incoming[..k])
    {
      n := PutIn(values, n, incoming[k]);
      assert incoming[..k + 1][..k] == incoming[..k];
      k := k + 1;
    }
    assert incoming[..k] == incoming;
    r := new Entry[n](i requires 0 <= i < n reads values => values[i]);
    assert r[..] == values[..n];
  }

  /** One value into the first n slots of a buffer that has a free one. */
  method PutIn(values: array<Entry>, n: nat, v: Entry) returns (m: nat)
    requires n < values.Length
    modifies values
    ensures m <= n + 1 && m <= values.Length && values[..m] == PutOne(old(values[..n]), v)
  {
    var i := 0;
    while i < n
      invariant 0 <= i <= n && values[..] == old(values[..])
      invariant forall j :: 0 <= j < i ==> values[j].key != v.key
    {
      if values[i].key == v.key {
        FindAt(values[..n], i);
        if v.local || !values[i].local {
          values[i] := v;
          assert values[..n] == old(values[..n])[i := v];
        }
        return n;
      }
      i := i + 1;
    }
    assert Find(values[..n], v.key) == None;
    values[n] := v;
    assert values[..n + 1] == old(values[..n]) + [v];
    return n + 1;
  }

  lemma {:induction false} FindAt(ledger: seq<Entry>, i: nat)
    requires i < |ledger| && forall j :: 0 <= j < i ==> ledger[j].key != ledger[i].key
    ensures Find(ledger, ledger[i].key) == Some(i)
  {
    if i > 0 {
      assert forall j :: 0 <= j < i - 1 ==> ledger[1..][j] == ledger[j + 1];
      FindAt(ledger[1..], i - 1);
    }
  }

  // ----- what a ledger says

  ghost predicate Unique(ledger: seq<Entry>)
  {
    forall i, j :: 0 <= i < j < |ledger| ==> ledger[i].key != ledger[j].key
  }

  lemma PutOneUnique(ledger: seq<Entry>, v: Entry)
    requires Unique(ledger)
    ensures Unique(PutOne(ledger, v))
  {
  }

  lemma {:induction false} PutUnique(ledger: seq<Entry>, vs: seq<Entry>)
    requires Unique(ledger)
    ensures Unique(PutAll(ledger, vs))
  {
    hide PutOne, Unique;
    if vs != [] {
      PutUnique(ledger, vs[..|vs| - 1]);
      PutOneUnique(PutAll(ledger, vs[..|vs| - 1]), vs[|vs| - 1]);
    }
  }

  /** Putting a concatenation is putting its parts one after the other. */
  lemma {:induction false} PutConcat(ledger: seq<Entry>, a: seq<Entry>, b: seq<Entry>)
    ensures PutAll(ledger, a + b) == PutAll(PutAll(ledger, a), b)
  {
    hide PutOne;
    if b == [] {
      AddEmpty(a);
    } else {
      PutConcat(ledger, a, b[..|b| - 1]);
      assert (a + b)[..|a + b| - 1] == a + b[..|b| - 1];
    }
  }

  /** The value that wins between the one held and a newer one. */
  function Newer(held: Option<Entry>, v: Entry): Option<Entry>
  {
    if held.Some? && held.value.local && !v.local then held else Some(v)
  }

  lemma PutOneLookup(ledger: seq<Entry>, v: Entry, key: Bytes)
    ensures Lookup(PutOne(ledger, v), key) ==
              if v.key == key then Newer(Lookup(ledger, key), v) else Lookup(ledger, key)
  {
    var r := PutOne(ledger, v);
    match Find(ledger, v.key) {
      case None =>
        match Find(ledger, key) {
          case Some(i) => FindAt(r, i);
          case None => if v.key == key { FindAt(r, |ledger|); }
        }
      case Some(k) =>
        match Find(ledger, key) {
          case Some(i) =>
            assert forall j :: 0 <= j < |r| ==> r[j].key == ledger[j].key;
            FindAt(r, i);
          case None =>
            assert forall j :: 0 <= j < |r| ==> r[j].key == ledger[j].key;
        }
    }
  }

  /** The last of the values of a key; the last local one when asked for locals only. */
  function Last(vs: seq<Entry>, key: Bytes, onlyLocal: bool): Option<Entry>
  {
    if vs == [] then None
    else
      var v := vs[|vs| - 1];
      if v.key == key && (v.local || !onlyLocal) then Some(v) else Last(vs[..|vs| - 1], key, onlyLocal)
  }

  /** Who wins: the last local value put, else the local value held, else the last value put,
      else the value held. */
  function Winner(held: Option<Entry>, vs: seq<Entry>, key: Bytes): Option<Entry>
  {
    if Last(vs, key, true).Some? then Last(vs, key, true)
    else if held.Some? && held.value.local then held
    else if Last(vs, key, false).Some? then Last(vs, key, false)
    else held
  }

  lemma {:induction false} LastFacts(vs: seq<Entry>, key: Bytes)
    ensures Last(vs, key, true).Some? ==> Last(vs, key, true).value.local && Last(vs, key, false).Some?
    ensures Last(vs, key, false).Some? && Last(vs, key, false).value.local ==>
      Last(vs, key, true) == Last(vs, key, false)
  {
    if vs != [] {
      LastFacts(vs[..|vs| - 1], key);
    }
  }

  /** Local values win over remote ones, later ones over earlier ones, whatever the order of arrival. */
  lemma {:induction false} PutLookup(ledger: seq<Entry>, vs: seq<Entry>, key: Bytes)
    ensures Lookup(PutAll(ledger, vs), key) == Winner(Lookup(ledger, key), vs, key)
  {
    hide PutOne, Lookup;
    if vs != [] {
      var init, last := vs[..|vs| - 1], vs[|vs| - 1];
      PutLookup(ledger, init, key);
      PutOneLookup(PutAll(ledger, init), last, key);
      LastFacts(init, key);
    }
  }

  // ----- scalars

  const BOOLS: set<Bytes> := {"1", "t", "T", "TRUE", "true", "True", "0", "f", "F", "FALSE", "false", "False"}

  /** The texts of finite 64-bit floats, as the platform parses them. */
  type Floats = Bytes -> bool

  predicate ValidScalar(finite: Floats, v: Entry)
  {
    || v.typeName == "string"
    || (v.typeName == "int" && ParseInt(v.text).Some?)
    || (v.typeName == "bool" && v.text in BOOLS)
    || (v.typeName == "float" && finite(v.text))
  }

  /** The trusted string of a key: never a typed value, whatever its text. */
  function StringValue(ledger: seq<Entry>, key: Bytes): Bytes
  {
    if ledger == [] then ""
    else if ledger[0].key == key && ledger[0].typeName == "string" then ledger[0].text
    else StringValue(ledger[1..], key)
  }

  method String(ledger: seq<Entry>, key: Bytes) returns (text: Bytes)
    ensures text == StringValue(ledger, key)
  {
    var i := 0;
    while i < |ledger|
      invariant 0 <= i <= |ledger| && StringValue(ledger, key) == StringValue(ledger[i..], key)
    {
      if ledger[i].key == key && ledger[i].typeName == "string" {
        return ledger[i].text;
      }
      assert ledger[i..][1..] == ledger[i + 1..];
      i := i + 1;
    }
    return "";
  }

  lemma {:induction false} StringIsLookup(ledger: seq<Entry>, key: Bytes)
    requires Unique(ledger)
    ensures StringValue(ledger, key) ==
      match Lookup(ledger, key)
      case Some(e) => if e.typeName == "string" then e.text else ""
      case None => ""
  {
    if ledger != [] {
      assert Unique(ledger[1..]);
      StringIsLookup(ledger[1..], key);
      if ledger[0].key == key {
        forall j | 0 <= j < |ledger[1..]|
          ensures ledger[1..][j].key != key
        {
          assert ledger[0].key != ledger[j + 1].key;
        }
      }
    }
  }
}
