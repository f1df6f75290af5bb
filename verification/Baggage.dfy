/** Bounded transport baggage (internal/baggageutil/bounded.go). */
module Baggage {
  import opened Bytes

  datatype Property = Property(key: Bytes, value: Bytes)

  datatype Member = Member(key: Bytes, value: Bytes, properties: seq<Property>)

  /** Members by key. */
  type Bag = map<Bytes, Member>

  /** The encoded form of a member; empty when it has none. */
  type Wire = Member -> Bytes

  const MAX_MEMBERS: int := 64
  const MAX_BYTES: int := 8192

  function LastWins(ms: seq<Member>): Bag
  {
    if ms == [] then map[] else LastWins(ms[..|ms| - 1])[ms[|ms| - 1].key := ms[|ms| - 1]]
  }

  // ----- ascending keys

  ghost predicate Ascending(keys: seq<Bytes>)
  {
    forall i, j :: 0 <= i < j < |keys| ==> Less(keys[i], keys[j])
  }

  ghost predicate Enumerates(keys: seq<Bytes>, s: set<Bytes>)
  {
    Ascending(keys) && forall k :: k in keys <==> k in s
  }

  function InsertKey(keys: seq<Bytes>, k: Bytes): (r: seq<Bytes>)
    ensures |r| == |keys| + 1
  {
    if keys == [] || Less(k, keys[0]) then [k] + keys else [keys[0]] + InsertKey(keys[1..], k)
  }

  /** What slices.Sort leaves. */
  function SortKeys(keys: seq<Bytes>): seq<Bytes>
  {
    if keys == [] then [] else InsertKey(SortKeys(keys[..|keys| - 1]), keys[|keys| - 1])
  }

  lemma {:induction false} InsertKeyEnumerates(keys: seq<Bytes>, k: Bytes)
    requires Ascending(keys) && k !in keys
    ensures Ascending(InsertKey(keys, k)) && forall x :: x in InsertKey(keys, k) <==> x == k || x in keys
  {
    if keys == [] {
    } else if Less(k, keys[0]) {
      var r := [k] + keys;
      forall i, j | 0 <= i < j < |r|
        ensures Less(r[i], r[j])
      {
        if i == 0 && j > 1 {
          LessTransitive(k, keys[0], keys[j - 1]);
        }
      }
    } else {
      LessTotal(k, keys[0]);
      var rest := InsertKey(keys[1..], k);
      InsertKeyEnumerates(keys[1..], k);
      assert keys == [keys[0]] + keys[1..];
      var r := [keys[0]] + rest;
      forall i, j | 0 <= i < j < |r|
        ensures Less(r[i], r[j])
      {
        if i == 0 {
          assert rest[j - 1] in rest;
          if rest[j - 1] != k {
            var n :| 0 <= n < |keys[1..]| && keys[1..][n] == rest[j - 1];
            assert Less(keys[0], keys[n + 1]);
          }
        }
      }
    }
  }

  lemma {:induction false} SortKeysEnumerates(keys: seq<Bytes>)
    requires forall i, j :: 0 <= i < j < |keys| ==> keys[i] != keys[j]
    ensures Enumerates(SortKeys(keys), set k | k in keys) && |SortKeys(keys)| == |keys|
  {
    if keys != [] {
      var init, last := keys[..|keys| - 1], keys[|keys| - 1];
      SortKeysEnumerates(init);
      assert last !in init;
      InsertKeyEnumerates(SortKeys(init), last);
      assert keys == init + [last];
    }
  }

  /** A set has one ascending enumeration. */
  lemma {:induction false} EnumerationUnique(a: seq<Bytes>, b: seq<Bytes>, s: set<Bytes>)
    requires Enumerates(a, s) && Enumerates(b, s)
    ensures a == b
  {
    NoneOrBoth(a, b, s);
    NoneOrBoth(b, a, s);
    if a != [] {
      SameHead(a, b, s);
      TailEnumerates(a, s);
      TailEnumerates(b, s);
      EnumerationUnique(a[1..], b[1..], s - {a[0]});
      assert a == [a[0]] + a[1..] && b == [b[0]] + b[1..];
    }
  }

  lemma NoneOrBoth(a: seq<Bytes>, b: seq<Bytes>, s: set<Bytes>)
    requires Enumerates(a, s) && Enumerates(b, s)
    ensures a != [] ==> b != []
  {
    if a != [] {
      assert a[0] in a;
    }
  }

  lemma SameHead(a: seq<Bytes>, b: seq<Bytes>, s: set<Bytes>)
    requires Enumerates(a, s) && Enumerates(b, s) && a != [] && b != []
    ensures a[0] == b[0]
  {
    assert a[0] in b && b[0] in a;
    var i :| 0 <= i < |b| && b[i] == a[0];
    var j :| 0 <= j < |a| && a[j] == b[0];
    if i > 0 && j > 0 {
      LessAsymmetric(a[0], b[0]);
    }
  }

  lemma TailEnumerates(a: seq<Bytes>, s: set<Bytes>)
    requires Enumerates(a, s) && a != []
    ensures Enumerates(a[1..], s - {a[0]})
  {
    LessIrreflexive(a[0]);
    forall k
      ensures k in a[1..] <==> k in s - {a[0]}
    {
      if k in a[1..] {
        var i :| 0 <= i < |a[1..]| && a[1..][i] == k;
        assert a[i + 1] == k;
      }
    }
  }

  ghost function AscendingKeys(s: set<Bytes>): (keys: seq<Bytes>)
    ensures Enumerates(keys, s) && |keys| == |s|
  {
    if s == {} then []
    else
      var k :| k in s;
      var rest := AscendingKeys(s - {k});
      InsertKeyEnumerates(rest, k);
      InsertKey(rest, k)
  }

  // ----- the specification

  /** The members that have an encoding, in key order. */
  function Encodable(keys: seq<Bytes>, unique: Bag, wire: Wire): seq<Member>
    requires forall k :: k in keys ==> k in unique
  {
    if keys == [] then []
    else
      var m := unique[keys[|keys| - 1]];
      Encodable(keys[..|keys| - 1], unique, wire) + if wire(m) == [] then [] else [m]
  }

  ghost function Candidates(unique: Bag, wire: Wire): seq<Member>
  {
    Encodable(AscendingKeys(unique.Keys), unique, wire)
  }

  function Weight(ms: seq<Member>, wire: Wire): nat
  {
    if ms == [] then 0 else Weight(ms[..|ms| - 1], wire) + |wire(ms[|ms| - 1])| + 1
  }

  /** The length of the header: the encodings joined by commas. */
  function Size(ms: seq<Member>, wire: Wire): int { if ms == [] then 0 else Weight(ms, wire) - 1 }

  predicate Fits(ms: seq<Member>, wire: Wire) { |ms| <= MAX_MEMBERS && Size(ms, wire) <= MAX_BYTES }

  function Fitting(ms: seq<Member>, wire: Wire): seq<Member>
  {
    if Fits(ms, wire) then ms else if ms == [] then [] else Fitting(ms[..|ms| - 1], wire)
  }

  /** Retained members and the number of dropped keys, as a function of the last-wins map alone. */
  ghost function Built(unique: Bag, wire: Wire): (Bag, int)
  {
    var retained := Fitting(Candidates(unique, wire), wire);
    (LastWins(retained), |unique| - |retained|)
  }

  lemma {:induction false} WeightPrefix(ms: seq<Member>, n: nat, wire: Wire)
    requires n <= |ms|
    ensures Weight(ms[..n], wire) <= Weight(ms, wire)
    ensures Fits(ms, wire) ==> Fits(ms[..n], wire)
    ensures |ms| > 0 ==> Weight(ms, wire) > 0
  {
    if n < |ms| {
      WeightPrefix(ms[..|ms| - 1], n, wire);
      assert ms[..|ms| - 1][..n] == ms[..n];
      if n > 0 {
        PositiveWeight(ms[..n], wire);
      }
    } else {
      assert ms[..n] == ms;
    }
  }

  lemma PositiveWeight(ms: seq<Member>, wire: Wire)
    requires ms != []
    ensures Weight(ms, wire) > 0
  {
  }

  /** The fitting prefix is the longest: a prefix fits exactly when it is no longer. */
  lemma {:induction false} FittingIsLongest(ms: seq<Member>, wire: Wire)
    ensures Fitting(ms, wire) <= ms
    ensures forall n :: 0 <= n <= |ms| ==> (Fits(ms[..n], wire) <==> n <= |Fitting(ms, wire)|)
  {
    if Fits(ms, wire) {
      forall n | 0 <= n <= |ms|
        ensures Fits(ms[..n], wire)
      {
        WeightPrefix(ms, n, wire);
      }
    } else {
      var init := ms[..|ms| - 1];
      FittingIsLongest(init, wire);
      forall n | 0 <= n <= |ms|
        ensures Fits(ms[..n], wire) <==> n <= |Fitting(ms, wire)|
      {
        if n < |ms| {
          assert ms[..n] == init[..n];
        } else {
          assert ms[..n] == ms;
        }
      }
    }
  }

  lemma EncodableStep(keys: seq<Bytes>, i: nat, unique: Bag, wire: Wire)
    requires i < |keys| && forall k :: k in keys ==> k in unique
    ensures keys[i] in unique && (forall k :: k in keys[..i] ==> k in unique)
      && (forall k :: k in keys[..i + 1] ==> k in unique)
    ensures Encodable(keys[..i + 1], unique, wire) == Encodable(keys[..i], unique, wire)
              + if wire(unique[keys[i]]) == [] then [] else [unique[keys[i]]]
  {
    assert keys[..i + 1][..i] == keys[..i];
    assert keys[i] in keys;
    forall k | k in keys[..i] || k in keys[..i + 1]
      ensures k in unique
    {
      assert k in keys;
    }
  }

  lemma {:induction false} EncodablePrefix(keys: seq<Bytes>, i: nat, unique: Bag, wire: Wire)
    requires i <= |keys| && forall k :: k in keys ==> k in unique
    ensures (forall k :: k in keys[..i] ==> k in unique)
      && Encodable(keys[..i], unique, wire) <= Encodable(keys, unique, wire)
    decreases |keys| - i
  {
    forall k | k in keys[..i]
      ensures k in unique
    {
      assert k in keys;
    }
    if i == |keys| {
      assert keys[..i] == keys;
    } else {
      EncodableStep(keys, i, unique, wire);
      EncodablePrefix(keys, i + 1, unique, wire);
    }
  }

  lemma SizeSnoc(ms: seq<Member>, m: Member, wire: Wire)
    ensures Size(ms + [m], wire) == Size(ms, wire) + |wire(m)| + if ms == [] then 0 else 1
  {
    assert (ms + [m])[..|ms|] == ms;
    assert Weight(ms + [m], wire) == Weight(ms, wire) + |wire(m)| + 1;
    if ms != [] {
      PositiveWeight(ms, wire);
    }
  }

  /** What the SDK of the pinned version accepts: any list within both limits. */
  function PinnedSdk(wire: Wire): seq<Member> -> bool { (ms: seq<Member>) => Fits(ms, wire) }

  /** Duplicates last-wins, keys sorted, a fitting prefix retained. An SDK that refuses that
      prefix leaves no baggage at all, never a part of it. */
  method Build(members: seq<Member>, wire: Wire, accepts: seq<Member> -> bool) returns (bag: Bag, dropped: int)
    ensures var unique := LastWins(members);
      (bag, dropped) == if accepts(Fitting(Candidates(unique, wire), wire)) then Built(unique, wire)
        else (map[], |unique|)
    ensures accepts == PinnedSdk(wire) ==> (bag, dropped) == Built(LastWins(members), wire)
  {
    hide LastWins, SortKeys, AscendingKeys, Encodable, Size, Fits, Fitting, Ascending;
    var unique := Deduplicate(members);
    var keys := KeysOf(unique);
    keys := SortKeys(keys);
    EnumerationUnique(keys, AscendingKeys(unique.Keys), unique.Keys);
    NothingEncodable(unique, wire);
    var retained: seq<Member> := [];
    var bytes := 0;
    var i := 0;
    ghost var all := Encodable(keys, unique, wire);
    while i < |keys|
      invariant 0 <= i <= |keys|
      invariant forall k :: k in keys[..i] ==> k in unique
      invariant retained == Encodable(keys[..i], unique, wire) && bytes == Size(retained, wire) && Fits(retained, wire)
    {
      var member := unique[keys[i]];
      var encoded := wire(member);
      EncodableStep(keys, i, unique, wire);
      if encoded == [] {
        AddEmpty(retained);
        i := i + 1;
        continue;
      }
      var size := |encoded|;
      if |retained| != 0 {
        size := size + 1;
      }
      SizeSnoc(retained, member, wire);
      FitsBound(retained, wire);
      if |retained| == MAX_MEMBERS || size > MAX_BYTES - bytes {
        DoesNotFit(retained, member, wire);
        EncodablePrefix(keys, i + 1, unique, wire);
        Overflowing(all, retained, member, wire);
        break;
      }
      StillFits(retained, member, wire);
      retained := retained + [member];
      bytes := bytes + size;
      i := i + 1;
    }
    if i == |keys| {
      assert keys[..i] == keys;
      AllFit(retained, wire);
    }
    assert retained == Fitting(all, wire);
    PinnedAccepts(all, wire);
    if !accepts(retained) {
      return map[], |keys|;
    }
    return LastWins(retained), |keys| - |retained|;
  }

  lemma {:induction false} PinnedAccepts(ms: seq<Member>, wire: Wire)
    ensures PinnedSdk(wire)(Fitting(ms, wire))
  {
    if !Fits(ms, wire) && ms != [] {
      PinnedAccepts(ms[..|ms| - 1], wire);
    }
  }

  lemma NothingEncodable(unique: Bag, wire: Wire)
    ensures Encodable([], unique, wire) == [] && Size([], wire) == 0 && Fits([], wire)
  {
  }

  lemma FitsBound(ms: seq<Member>, wire: Wire)
    requires Fits(ms, wire)
    ensures |ms| <= MAX_MEMBERS && Size(ms, wire) <= MAX_BYTES
  {
  }

  lemma DoesNotFit(retained: seq<Member>, member: Member, wire: Wire)
    requires |retained| == MAX_MEMBERS
      || |wire(member)| + (if retained == [] then 0 else 1) > MAX_BYTES - Size(retained, wire)
    ensures !Fits(retained + [member], wire)
  {
    SizeSnoc(retained, member, wire);
  }

  lemma StillFits(retained: seq<Member>, member: Member, wire: Wire)
    requires |retained| < MAX_MEMBERS
      && |wire(member)| + (if retained == [] then 0 else 1) <= MAX_BYTES - Size(retained, wire)
    ensures Fits(retained + [member], wire)
  {
    SizeSnoc(retained, member, wire);
  }

  lemma AllFit(ms: seq<Member>, wire: Wire)
    requires Fits(ms, wire)
    ensures Fitting(ms, wire) == ms
  {
  }

  lemma Overflowing(all: seq<Member>, retained: seq<Member>, member: Member, wire: Wire)
    requires retained + [member] <= all && Fits(retained, wire) && !Fits(retained + [member], wire)
    ensures Fitting(all, wire) == retained
  {
    FittingIsLongest(all, wire);
    var n := |retained|;
    assert all[..n] == retained && all[..n + 1] == retained + [member];
    assert Fits(all[..n], wire) && !Fits(all[..n + 1], wire);
  }

  method Deduplicate(members: seq<Member>) returns (unique: Bag)
    ensures unique == LastWins(members)
  {
    unique := map[];
    var i := 0;
    while i < |members|
      invariant 0 <= i <= |members|
      invariant unique == LastWins(members[..i])
    {
      assert members[..i + 1][..i] == members[..i];
      unique := unique[members[i].key := members[i]];
      i := i + 1;
    }
    assert members[..i] == members;
  }

  /** The keys in the order of map iteration, which is any order. */
  method KeysOf(unique: Bag) returns (keys: seq<Bytes>)
    ensures Enumerates(SortKeys(keys), unique.Keys) && |SortKeys(keys)| == |unique|
  {
    hide Enumerates, SortKeys;
    keys := [];
    var rest := unique.Keys;
    while rest != {}
      invariant rest <= unique.Keys && |keys| + |rest| == |unique|
      invariant forall k :: k in keys <==> k in unique && k !in rest
      invariant forall i, j :: 0 <= i < j < |keys| ==> keys[i] != keys[j]
    {
      var k :| k in rest;
      Append(keys, k);
      keys := keys + [k];
      rest := rest - {k};
    }
    assert (set k | k in keys) == unique.Keys;
    SortKeysEnumerates(keys);
  }

  lemma Append(keys: seq<Bytes>, k: Bytes)
    requires k !in keys && forall i, j :: 0 <= i < j < |keys| ==> keys[i] != keys[j]
    ensures forall i, j :: 0 <= i < j < |keys + [k]| ==> (keys + [k])[i] != (keys + [k])[j]
    ensures forall x :: x in keys + [k] <==> x in keys || x == k
  {
  }

  // ----- what the specification means

  ghost predicate Keyed(bag: Bag) { forall k :: k in bag ==> bag[k].key == k }

  lemma {:induction false} LastWinsIsKeyed(ms: seq<Member>)
    ensures Keyed(LastWins(ms))
    ensures forall k :: k in LastWins(ms) ==> LastWins(ms)[k] in ms
    ensures forall m :: m in ms ==> m.key in LastWins(ms)
  {
    if ms != [] {
      LastWinsIsKeyed(ms[..|ms| - 1]);
      assert ms == ms[..|ms| - 1] + [ms[|ms| - 1]];
    }
  }

  /** Of several members with one key the last counts. */
  lemma {:induction false} LastCounts(ms: seq<Member>, i: nat)
    requires i < |ms| && forall j :: i < j < |ms| ==> ms[j].key != ms[i].key
    ensures ms[i].key in LastWins(ms) && LastWins(ms)[ms[i].key] == ms[i]
  {
    if i < |ms| - 1 {
      var init := ms[..|ms| - 1];
      assert ms[|ms| - 1].key != ms[i].key;
      assert forall j :: i < j < |init| ==> init[j] == ms[j];
      LastCounts(init, i);
    }
  }

  ghost predicate DistinctMembers(ms: seq<Member>)
  {
    forall i, j :: 0 <= i < j < |ms| ==> ms[i].key != ms[j].key
  }

  lemma DistinctBag(ms: seq<Member>)
    requires DistinctMembers(ms)
    ensures forall k :: k in LastWins(ms) ==> LastWins(ms)[k].key == k && LastWins(ms)[k] in ms
    ensures forall m :: m in ms ==> m.key in LastWins(ms) && LastWins(ms)[m.key] == m
    ensures |LastWins(ms)| == |ms|
  {
    hide LastWins;
    LastWinsIsKeyed(ms);
    BagSize(ms);
    forall m | m in ms
      ensures m.key in LastWins(ms) && LastWins(ms)[m.key] == m
    {
      var i :| 0 <= i < |ms| && ms[i] == m;
      LastCounts(ms, i);
    }
  }

  lemma {:induction false} BagSize(ms: seq<Member>)
    requires DistinctMembers(ms)
    ensures |LastWins(ms)| == |ms|
  {
    if ms != [] {
      var init, last := ms[..|ms| - 1], ms[|ms| - 1];
      BagSize(init);
      LastWinsIsKeyed(init);
      FreshKey(ms);
      assert LastWins(ms).Keys == LastWins(init).Keys + {last.key};
      assert |LastWins(ms)| == |LastWins(ms).Keys| && |LastWins(init)| == |LastWins(init).Keys|;
    }
  }

  lemma FreshKey(ms: seq<Member>)
    requires DistinctMembers(ms) && ms != []
    ensures ms[|ms| - 1].key !in LastWins(ms[..|ms| - 1])
  {
    hide LastWins;
    var init, key := ms[..|ms| - 1], ms[|ms| - 1].key;
    LastWinsIsKeyed(init);
    forall m | m in init
      ensures m.key != key
    {
      var i :| 0 <= i < |init| && init[i] == m;
      assert ms[i].key != ms[|ms| - 1].key;
    }
  }

  /** The order of distinct members does not matter to the result. */
  lemma OrderIsIrrelevant(a: seq<Member>, b: seq<Member>, wire: Wire)
    requires DistinctMembers(a) && DistinctMembers(b) && forall m :: m in a <==> m in b
    ensures Built(LastWins(a), wire) == Built(LastWins(b), wire)
  {
    hide Built, LastWins, DistinctMembers;
    DistinctBag(a);
    DistinctBag(b);
    assert forall k :: k in LastWins(a) ==> k in LastWins(b) && LastWins(b)[k] == LastWins(a)[k];
    assert forall k :: k in LastWins(b) ==> k in LastWins(a);
    assert LastWins(a) == LastWins(b);
  }

  /** Each candidate is the member of its key, and every member with an encoding is one. */
  ghost predicate Lists(c: seq<Member>, keys: seq<Bytes>, unique: Bag, wire: Wire)
  {
    && (forall i, j :: 0 <= i < j < |c| ==> Less(c[i].key, c[j].key))
    && (forall i :: 0 <= i < |c| ==>
      c[i].key in keys && c[i].key in unique && c[i] == unique[c[i].key] && wire(c[i]) != [])
    && (forall k :: k in keys && k in unique && wire(unique[k]) != [] ==> unique[k] in c)
  }

  lemma {:induction false} EncodableLists(keys: seq<Bytes>, unique: Bag, wire: Wire)
    requires Ascending(keys) && Keyed(unique) && forall k :: k in keys ==> k in unique
    ensures Lists(Encodable(keys, unique, wire), keys, unique, wire)
  {
    hide Lists, Ascending;
    if keys == [] {
      NothingListed(unique, wire);
    } else {
      AscendingInit(keys);
      EncodableLists(keys[..|keys| - 1], unique, wire);
      ListsSnoc(Encodable(keys[..|keys| - 1], unique, wire), keys, unique, wire);
    }
  }

  lemma NothingListed(unique: Bag, wire: Wire)
    ensures Lists([], [], unique, wire)
  {
  }

  lemma AscendingInit(keys: seq<Bytes>)
    requires Ascending(keys) && keys != []
    ensures Ascending(keys[..|keys| - 1]) && forall k :: k in keys[..|keys| - 1] ==> k in keys
  {
    hide Less;
  }

  lemma KeyBefore(keys: seq<Bytes>, k: Bytes)
    requires Ascending(keys) && keys != [] && k in keys[..|keys| - 1]
    ensures Less(k, keys[|keys| - 1])
  {
    hide Less;
    var n :| 0 <= n < |keys| - 1 && keys[..|keys| - 1][n] == k;
    assert Less(keys[n], keys[|keys| - 1]);
  }

  /** One key more, and its member if it has an encoding. */
  lemma ListsSnoc(c: seq<Member>, keys: seq<Bytes>, unique: Bag, wire: Wire)
    requires keys != [] && Keyed(unique) && keys[|keys| - 1] in unique
    requires Lists(c, keys[..|keys| - 1], unique, wire)
    requires Ascending(keys)
    ensures var m := unique[keys[|keys| - 1]];
      Lists(c + if wire(m) == [] then [] else [m], keys, unique, wire)
  {
    hide Less, Ascending;
    var init, last := keys[..|keys| - 1], keys[|keys| - 1];
    var m := unique[last];
    var r := c + if wire(m) == [] then [] else [m];
    assert keys == init + [last] && last in keys && m.key == last;
    forall i, j | 0 <= i < j < |r|
      ensures Less(r[i].key, r[j].key)
    {
      if j < |c| {
        assert r[i] == c[i] && r[j] == c[j];
        assert Less(c[i].key, c[j].key);
      } else {
        assert r[j] == m && r[i] == c[i] && c[i].key in init;
        KeyBefore(keys, c[i].key);
      }
    }
    forall i | 0 <= i < |r|
      ensures r[i].key in keys && r[i].key in unique && r[i] == unique[r[i].key] && wire(r[i]) != []
    {
      if i < |c| {
        assert r[i] == c[i] && c[i].key in init;
      }
    }
    forall k | k in keys && k in unique && wire(unique[k]) != []
      ensures unique[k] in r
    {
      if k in init {
        assert unique[k] in c;
      }
    }
  }

  /** The result is the longest prefix, in key order, of the members with an encoding that
      stays within both limits; every other key is counted as dropped. */
  lemma BuiltIsLongestSortedPrefix(members: seq<Member>, wire: Wire)
    ensures var unique := LastWins(members);
      var c := Candidates(unique, wire);
      var n := |Fitting(c, wire)|;
      && Lists(c, AscendingKeys(unique.Keys), unique, wire)
      && n <= |c| && Fits(c[..n], wire) && (n < |c| ==> !Fits(c[..n + 1], wire))
      && Built(unique, wire).1 == |unique| - n && |Built(unique, wire).0| == n
      && (forall k :: k in Built(unique, wire).0 ==>
        Built(unique, wire).0[k].key == k && Built(unique, wire).0[k] in c[..n])
      && (forall m :: m in c[..n] ==> m.key in Built(unique, wire).0 && Built(unique, wire).0[m.key] == m)
  {
    hide Fitting, Fits, LastWins, Encodable, Lists;
    var unique := LastWins(members);
    LastWinsIsKeyed(members);
    var c := Candidates(unique, wire);
    EncodableLists(AscendingKeys(unique.Keys), unique, wire);
    FittingIsLongest(c, wire);
    var r := Fitting(c, wire);
    assert c[..|r|] == r;
    ListsDistinct(c, AscendingKeys(unique.Keys), unique, wire);
    DistinctBag(r);
  }

  lemma ListsDistinct(c: seq<Member>, keys: seq<Bytes>, unique: Bag, wire: Wire)
    requires Lists(c, keys, unique, wire)
    ensures DistinctMembers(c)
  {
    forall i, j | 0 <= i < j < |c|
      ensures c[i].key != c[j].key
    {
      LessIrreflexive(c[i].key);
    }
  }

  /** The members up to and including the one with a key. */
  function UpTo(ms: seq<Member>, key: Bytes): seq<Member>
  {
    if ms == [] then []
    else if ms[0].key == key then [ms[0]] else [ms[0]] + UpTo(ms[1..], key)
  }

  lemma {:induction false} UpToIsPrefix(ms: seq<Member>, i: nat)
    requires i < |ms| && forall j :: 0 <= j < i ==> ms[j].key != ms[i].key
    ensures UpTo(ms, ms[i].key) == ms[..i + 1]
  {
    if i == 0 {
      assert ms[..1] == [ms[0]];
    } else {
      assert ms[0].key != ms[i].key;
      assert forall j :: 0 <= j < i - 1 ==> ms[1..][j] == ms[j + 1];
      UpToIsPrefix(ms[1..], i - 1);
      assert ms[..i + 1] == [ms[0]] + ms[1..][..i];
    }
  }

  /** A member with an encoding is retained exactly when the candidates up to it fit. */
  lemma RetainedExactly(unique: Bag, wire: Wire, key: Bytes)
    requires Keyed(unique) && key in unique && wire(unique[key]) != []
    ensures var bag := Built(unique, wire).0;
      && (key in bag <==> Fits(UpTo(Candidates(unique, wire), key), wire))
      && (key in bag ==> bag[key] == unique[key])
  {
    hide LastWins, Encodable, Fits, Fitting, UpTo;
    var keys, c := AscendingKeys(unique.Keys), Candidates(unique, wire);
    EncodableLists(keys, unique, wire);
    ListsDistinct(c, keys, unique, wire);
    assert key in keys && unique[key] in c;
    var i :| 0 <= i < |c| && c[i] == unique[key];
    UpToIsPrefix(c, i);
    FittingIsLongest(c, wire);
    var r := Fitting(c, wire);
    assert Fits(c[..i + 1], wire) <==> i < |r|;
    DistinctBag(r);
    if i < |r| {
      assert r[i] in r;
    }
    if key in LastWins(r) {
      var j :| 0 <= j < |r| && r[j] == LastWins(r)[key];
      assert c[j].key == c[i].key;
    }
  }

  // ----- building again

  function Kept(ms: seq<Member>, sub: Bag): seq<Member>
  {
    if ms == [] then []
    else Kept(ms[..|ms| - 1], sub) + if ms[|ms| - 1].key in sub then [ms[|ms| - 1]] else []
  }

  lemma {:induction false} KeptWeighsLess(ms: seq<Member>, sub: Bag, wire: Wire)
    ensures Weight(Kept(ms, sub), wire) <= Weight(ms, wire) && |Kept(ms, sub)| <= |ms|
  {
    if ms != [] {
      var init, last := ms[..|ms| - 1], ms[|ms| - 1];
      KeptWeighsLess(init, sub, wire);
      AddEmpty(Kept(init, sub));
      if last.key in sub {
        assert (Kept(init, sub) + [last])[..|Kept(init, sub)|] == Kept(init, sub);
        assert Weight(Kept(init, sub) + [last], wire) == Weight(Kept(init, sub), wire) + |wire(last)| + 1;
      }
    }
  }

  lemma KeptFits(ms: seq<Member>, sub: Bag, wire: Wire)
    requires Fits(ms, wire)
    ensures Fits(Kept(ms, sub), wire)
  {
    KeptWeighsLess(ms, sub, wire);
    if Kept(ms, sub) != [] {
      PositiveWeight(Kept(ms, sub), wire);
    }
  }

  lemma {:induction false} KeptLists(ms: seq<Member>, sub: Bag)
    requires InKeyOrder(ms)
    ensures InKeyOrder(Kept(ms, sub))
    ensures forall m :: m in Kept(ms, sub) <==> m in ms && m.key in sub
  {
    if ms != [] {
      var init, last := ms[..|ms| - 1], ms[|ms| - 1];
      KeptLists(init, sub);
      assert ms == init + [last];
      var c := Kept(init, sub);
      forall i | 0 <= i < |c|
        ensures Less(c[i].key, last.key)
      {
        assert c[i] in init;
        var n :| 0 <= n < |init| && init[n] == c[i];
        assert Less(ms[n].key, ms[|ms| - 1].key);
      }
    }
  }

  ghost predicate InKeyOrder(ms: seq<Member>) { forall i, j :: 0 <= i < j < |ms| ==> Less(ms[i].key, ms[j].key) }

  lemma TailMembers(a: seq<Member>)
    requires InKeyOrder(a) && a != []
    ensures InKeyOrder(a[1..]) && forall m :: m in a[1..] <==> m in a && m != a[0]
  {
    LessIrreflexive(a[0].key);
    assert a == [a[0]] + a[1..];
  }

  lemma SameFirst(a: seq<Member>, b: seq<Member>)
    requires InKeyOrder(a) && InKeyOrder(b) && a != [] && b != [] && a[0] in b && b[0] in a
    ensures a[0] == b[0]
  {
    var i :| 0 <= i < |b| && b[i] == a[0];
    var j :| 0 <= j < |a| && a[j] == b[0];
    if i > 0 && j > 0 {
      LessAsymmetric(a[0].key, b[0].key);
    }
  }

  /** Two lists in key order with the same members are equal. */
  lemma {:induction false} SameLists(a: seq<Member>, b: seq<Member>)
    requires InKeyOrder(a) && InKeyOrder(b) && forall m :: m in a <==> m in b
    ensures a == b
  {
    hide InKeyOrder;
    assert a != [] ==> a[0] in a;
    assert b != [] ==> b[0] in b;
    if a != [] && b != [] {
      SameFirst(a, b);
      TailMembers(a);
      TailMembers(b);
      SameLists(a[1..], b[1..]);
      assert a == [a[0]] + a[1..] && b == [b[0]] + b[1..];
    }
  }

  /** Building again from members that a build retained drops nothing. */
  lemma RebuildDropsNothing(unique: Bag, sub: Bag, wire: Wire)
    requires Keyed(unique) && forall k :: k in sub ==> k in Built(unique, wire).0 && sub[k] == Built(unique, wire).0[k]
    ensures Built(sub, wire) == (sub, 0)
  {
    hide Fitting, Fits, LastWins, Lists, Kept, Candidates, DistinctMembers, InKeyOrder;
    var r := Fitting(Candidates(unique, wire), wire);
    RetainedMembers(unique, wire);
    assert forall k :: k in sub ==> sub[k].key == k && sub[k] in r;
    assert forall m :: m in r && m.key in sub ==> m == sub[m.key];
    CandidatesOfKept(r, sub, wire);
    KeptFits(r, sub, wire);
    AllFit(Kept(r, sub), wire);
  }

  lemma RetainedMembers(unique: Bag, wire: Wire)
    requires Keyed(unique)
    ensures var r := Fitting(Candidates(unique, wire), wire);
      var bag := Built(unique, wire).0;
      && InKeyOrder(r) && Fits(r, wire) && (forall m :: m in r ==> wire(m) != [])
      && (forall k :: k in bag ==> bag[k].key == k && bag[k] in r)
      && (forall m :: m in r ==> m.key in bag && bag[m.key] == m)
  {
    hide Fitting, Fits, LastWins, Encodable;
    var c := Candidates(unique, wire);
    EncodableLists(AscendingKeys(unique.Keys), unique, wire);
    ListsDistinct(c, AscendingKeys(unique.Keys), unique, wire);
    FittingIsLongest(c, wire);
    var r := Fitting(c, wire);
    assert c[..|r|] == r;
    DistinctBag(r);
  }

  /** A build changes no member. */
  lemma BuiltWithin(unique: Bag, wire: Wire)
    requires Keyed(unique)
    ensures forall k :: k in Built(unique, wire).0 ==> k in unique && Built(unique, wire).0[k] == unique[k]
  {
    hide Fitting, Fits, LastWins, Encodable, Candidates, Lists, InKeyOrder;
    RetainedMembers(unique, wire);
    var c := Candidates(unique, wire);
    var r := Fitting(c, wire);
    CandidateMembers(unique, wire);
    FittingIsLongest(c, wire);
    assert forall m :: m in r ==> m in c;
  }

  lemma CandidateMembers(unique: Bag, wire: Wire)
    requires Keyed(unique)
    ensures forall m :: m in Candidates(unique, wire) ==> m.key in unique && unique[m.key] == m
  {
    hide Encodable;
    EncodableLists(AscendingKeys(unique.Keys), unique, wire);
  }

  /** The members kept of an ordered list are the candidates of the map they form. */
  lemma CandidatesOfKept(r: seq<Member>, sub: Bag, wire: Wire)
    requires InKeyOrder(r) && forall m :: m in r ==> wire(m) != []
    requires forall k :: k in sub ==> sub[k].key == k && sub[k] in r
    requires forall m :: m in r && m.key in sub ==> m == sub[m.key]
    ensures Candidates(sub, wire) == Kept(r, sub) && LastWins(Kept(r, sub)) == sub && |Kept(r, sub)| == |sub|
  {
    hide LastWins, Kept, Encodable, Lists, DistinctMembers, InKeyOrder, Ascending;
    var d := Candidates(sub, wire);
    var keys := AscendingKeys(sub.Keys);
    EncodableLists(keys, sub, wire);
    KeptLists(r, sub);
    ListsDistinct(d, keys, sub, wire);
    ListMembers(d, keys, sub, wire);
    assert forall k :: k in sub ==> k in keys && sub[k] in d;
    SameLists(Kept(r, sub), d);
    BagOfMembers(d, sub);
  }

  lemma BagOfMembers(d: seq<Member>, sub: Bag)
    requires DistinctMembers(d)
    requires forall k :: k in sub ==> sub[k].key == k && sub[k] in d
    requires forall m :: m in d ==> m.key in sub && m == sub[m.key]
    ensures LastWins(d) == sub && |d| == |sub|
  {
    hide LastWins, DistinctMembers;
    DistinctBag(d);
    assert forall k :: k in LastWins(d) ==> k in sub && LastWins(d)[k] == sub[k];
    assert forall k :: k in sub ==> k in LastWins(d);
    assert LastWins(d) == sub;
  }

  lemma ListMembers(d: seq<Member>, keys: seq<Bytes>, sub: Bag, wire: Wire)
    requires Lists(d, keys, sub, wire)
    ensures InKeyOrder(d) && forall m :: m in d ==> m.key in sub && m == sub[m.key]
    ensures forall k :: k in keys && k in sub && wire(sub[k]) != [] ==> sub[k] in d
  {
  }
}
