/** What the conformance checker of exported payloads (genai/conformance_evidence.go) accepts and
    what it refuses, told by the members of the decoded text. */
module EvidenceMeaning {
  import opened Bytes
  import opened Utf8
  import opened JsonText
  import opened JsonTree
  import opened JsonDepth
  import opened JsonDecode
  import opened Sanitize
  import opened Payload
  import opened Evidence
  import opened RecordedPayloads
  import opened RetrievalDocuments
  import opened ToolPayload

  // ----- kinds and roles

  /** A word of the vocabulary, or what the declared policy makes of any other: under a custom
      policy nothing else passes. */
  predicate WordShown(contract: Contract, vocabulary: set<Bytes>, s: Bytes)
  {
    || s == "" || s in vocabulary
    || (contract.raw && |s| <= 0x100000)
    || (contract.policy == IdRedact && s == "[redacted]")
    || (&& contract.policy == IdHash && |s| == 71 && s[..7] == "sha256:"
        && forall i :: 7 <= i < 71 ==> s[i] in "0123456789abcdef")
  }

  lemma WordsShort(s: Bytes)
    requires s in KINDS || s in ROLES
    ensures |s| <= 0x100000
  {
    assert |"tool_call_response"| == 18;
  }

  lemma HexDigit(c: byte)
    ensures LowerHex(c) <==> c in "0123456789abcdef"
  {
    var digits := "0123456789abcdef";
    if '0' <= c <= '9' {
      assert digits[c as int - '0' as int] == c;
    }
    if 'a' <= c <= 'f' {
      assert digits[10 + c as int - 'a' as int] == c;
    }
    forall i | 0 <= i < 16
      ensures LowerHex(digits[i])
    {
    }
  }

  lemma FingerprintForm(s: Bytes)
    ensures ValidFingerprint(s) <==>
              |s| == 71 && s[..7] == "sha256:" && forall i :: 7 <= i < 71 ==> s[i] in "0123456789abcdef"
  {
    hide LowerHex;
    assert |FINGERPRINT| == 7;
    if |s| == 71 {
      forall i | 7 <= i < 71
        ensures LowerHex(s[i]) <==> s[i] in "0123456789abcdef"
      {
        HexDigit(s[i]);
      }
    }
  }

  lemma EnumMeans(contract: Contract, vocabulary: set<Bytes>, s: Bytes)
    requires vocabulary == KINDS || vocabulary == ROLES
    ensures OptionalEnum(contract, vocabulary, s) <==> WordShown(contract, vocabulary, s)
  {
    hide KINDS, ROLES, ValidFingerprint;
    FingerprintForm(s);
    if s in vocabulary {
      WordsShort(s);
    }
  }

  /** A redacting contract without raw recording accepts exactly the kinds and roles that redaction
      leaves as they are. */
  lemma RedactedWordsAreFixed(contract: Contract, vocabulary: set<Bytes>, keys: set<Bytes>, s: Bytes)
    requires contract.policy == IdRedact && !contract.raw && (vocabulary == KINDS || vocabulary == ROLES)
    ensures OptionalEnum(contract, vocabulary, s) <==> Enum(RedactPolicy(keys), vocabulary, s) == s
  {
    hide KINDS, ROLES, OptionalEnum;
    EnumMeans(contract, vocabulary, s);
  }

  /** The contract of a configuration: the identity of its policy, raw only if raw content is
      recorded, and its own limit. */
  lemma ContractIsOwn(cfg: Config)
    ensures var contract := ContractOf(cfg);
      && contract.limit == cfg.limit && (contract.raw <==> cfg.record && cfg.policy == RawPolicy)
      && (contract.policy == IdRedact <==> cfg.policy.RedactPolicy?)
      && (contract.policy == IdHash <==> cfg.policy.HashPolicy?)
      && (contract.policy == IdRaw <==> cfg.policy.RawPolicy?)
  {
  }

  // ----- members

  ghost predicate Has(ms: seq<Member>, key: Bytes) { exists m :: m in ms && m.key == key }

  lemma {:induction false} FindMember(ms: seq<Member>, key: Bytes)
    requires Sorted(ms)
    ensures Find(ms, key).Some? <==> Has(ms, key)
    ensures forall m :: m in ms && m.key == key ==> Find(ms, key) == Some(m.value)
  {
    hide Less;
    if ms != [] {
      SortedHead(ms, key);
      FindMember(ms[1..], key);
      assert ms == [ms[0]] + ms[1..];
      FindIn(ms, key);
      if HasKey(ms, key) {
        var i :| 0 <= i < |ms| && ms[i].key == key;
        assert ms[i] in ms;
      }
      FindIn(ms[1..], key);
      forall m | m in ms[1..]
        ensures HasKey(ms[1..], m.key)
      {
        var i :| 0 <= i < |ms[1..]| && ms[1..][i] == m;
      }
    }
  }

  // ----- parts and messages

  /** The value of a key is a text or null. */
  ghost predicate TextOrNull(ms: seq<Member>, key: Bytes)
  {
    forall m :: m in ms && m.key == key ==> m.value.JStr? || m.value.JNull?
  }

  /** A part the checker accepts: no other key than these, texts where texts belong, a type, the
      field its type asks for, and a type the contract shows. */
  ghost predicate PartConforms(contract: Contract, v: Json)
  {
    && v.JObj? && (forall m :: m in v.members ==> m.key in {"type", "content", "id", "name", "arguments", "response"})
    && TextOrNull(v.members, "type") && TextOrNull(v.members, "content")
    && TextOrNull(v.members, "id") && TextOrNull(v.members, "name")
    && Has(v.members, "type")
    && forall m :: m in v.members && m.key == "type" && m.value.JStr? ==>
         && WordShown(contract, KINDS, m.value.s)
         && (m.value.s == "text" ==> Has(v.members, "content"))
         && (m.value.s == "tool_call" ==> Has(v.members, "name"))
         && (m.value.s == "tool_call_response" ==> Has(v.members, "response"))
  }

  /** A message the checker accepts: a role the contract shows and an array of parts, nothing else. */
  ghost predicate MessageConforms(contract: Contract, v: Json)
  {
    && v.JObj? && (forall m :: m in v.members ==> m.key in {"role", "parts"})
    && Has(v.members, "role") && Has(v.members, "parts")
    && forall m :: m in v.members ==>
         if m.key == "role" then m.value.JStr? && WordShown(contract, ROLES, m.value.s)
         else m.value.JArr? && forall i :: 0 <= i < |m.value.items| ==> PartConforms(contract, m.value.items[i])
  }

  lemma TextFound(ms: seq<Member>, key: Bytes)
    requires Sorted(ms)
    ensures StringOrNull(Find(ms, key)) <==> TextOrNull(ms, key)
    ensures Find(ms, key).Some? <==> Has(ms, key)
    ensures Find(ms, key).Some? ==> Member(key, Find(ms, key).value) in ms
  {
    FindMember(ms, key);
    if Has(ms, key) {
      var m :| m in ms && m.key == key;
      assert m == Member(key, Find(ms, key).value);
    }
  }

  lemma KeysConform(ms: seq<Member>, keys: set<Bytes>)
    ensures KeysWithin(ms, keys) <==> forall m :: m in ms ==> m.key in keys
  {
  }

  lemma PartMeans(contract: Contract, v: Json)
    requires Canonical(v)
    ensures PartWire(v) && PartShape(v) && PartEnum(contract, v) <==> PartConforms(contract, v)
  {
    hide Sorted, CanonicalMembers, Find, Has, TextOrNull, StringOrNull, KeysWithin, OptionalEnum, WordShown, KINDS,
         ROLES;
    if v.JObj? {
      var ms := v.members;
      TextFound(ms, TYPE);
      TextFound(ms, CONTENT);
      TextFound(ms, ID);
      TextFound(ms, NAME);
      TextFound(ms, RESPONSE);
      KeysConform(ms, PART_KEYS);
      EnumMeans(contract, KINDS, StringValue(Find(ms, TYPE)));
      EmptyWordShown(contract);
      if StringOrNull(Find(ms, TYPE)) {
        TypeMeans(contract, ms);
      }
      assert PartShape(v) <==>
        (KeysWithin(ms, PART_KEYS) && TextOrNull(ms, TYPE) && TextOrNull(ms, CONTENT) && TextOrNull(ms, ID)
         && TextOrNull(ms, NAME));
    }
  }

  lemma EmptyWordShown(contract: Contract)
    ensures WordShown(contract, KINDS, "")
  {
  }

  /** The type of a part is the one text its members give it. */
  lemma TypeMeans(contract: Contract, ms: seq<Member>)
    requires Sorted(ms) && StringOrNull(Find(ms, TYPE))
    ensures var s := StringValue(Find(ms, TYPE));
      && (s != "" ==> Member(TYPE, JStr(s)) in ms)
      && forall m :: m in ms && m.key == TYPE && m.value.JStr? ==> m.value.s == s
  {
    hide Find;
    TextFound(ms, TYPE);
    FindMember(ms, TYPE);
  }

  lemma {:induction false} CanonicalAt(items: seq<Json>, i: nat)
    requires CanonicalItems(items) && i < |items|
    ensures Canonical(items[i])
  {
    if i > 0 {
      CanonicalAt(items[1..], i - 1);
    }
  }

  lemma {:induction false} CanonicalMemberAt(ms: seq<Member>, m: Member)
    requires CanonicalMembers(ms) && m in ms
    ensures Canonical(m.value)
  {
    if m != ms[0] {
      assert ms == [ms[0]] + ms[1..];
      CanonicalMemberAt(ms[1..], m);
    }
  }

  lemma PartsMean(contract: Contract, items: seq<Json>)
    requires CanonicalItems(items)
    ensures PartsEvidence(contract, items) <==> forall i :: 0 <= i < |items| ==> PartConforms(contract, items[i])
  {
    hide PartWire, PartShape, PartEnum, PartConforms, CanonicalItems;
    forall i | 0 <= i < |items|
      ensures PartWire(items[i]) && PartShape(items[i]) && PartEnum(contract, items[i])
         <==> PartConforms(contract, items[i])
    {
      CanonicalAt(items, i);
      PartMeans(contract, items[i]);
    }
  }

  lemma MessageMeans(contract: Contract, v: Json)
    requires Canonical(v)
    ensures MessageEvidence(contract, v) <==> MessageConforms(contract, v)
  {
    hide Sorted, CanonicalItems, CanonicalMembers, Find, Has, KeysWithin, OptionalEnum, WordShown, PartsEvidence,
         PartConforms, KINDS, ROLES;
    if v.JObj? {
      var ms := v.members;
      KeysDifferHere();
      TextFound(ms, ROLE);
      TextFound(ms, PARTS);
      FindMember(ms, ROLE);
      FindMember(ms, PARTS);
      KeysConform(ms, MESSAGE_KEYS);
      EnumMeans(contract, ROLES, StringValue(Find(ms, ROLE)));
      forall m | m in ms && m.value.JArr?
        ensures PartsEvidence(contract, m.value.items)
           <==> forall i :: 0 <= i < |m.value.items| ==> PartConforms(contract, m.value.items[i])
      {
        CanonicalMemberAt(ms, m);
        ArrayCanonical(m.value);
        PartsMean(contract, m.value.items);
      }
    }
  }

  lemma KeysDifferHere()
    ensures ROLE == "role" && PARTS == "parts" && ROLE != PARTS && MESSAGE_KEYS == {"role", "parts"}
  {
    assert ROLE[0] != PARTS[0];
  }

  lemma ArrayCanonical(v: Json)
    requires v.JArr? && Canonical(v)
    ensures CanonicalItems(v.items)
  {
  }

  /** The checker accepts exactly a bounded JSON array whose items all conform: whatever is not of
      the vocabulary passes only in the form of the declared policy, nothing under another name,
      nothing without its required fields. */
  lemma EvidenceMeans(contract: Contract, c: Channel, text: Bytes)
    ensures ValidPayloadEvidence(contract, c, text) <==>
      && |text| <= contract.limit && text != [] && text[0] == '[' && Decode(text).Ok? && Decode(text).value.JArr?
      && var items := Decode(text).value.items;
         forall i :: 0 <= i < |items| ==>
           if c == SystemInstructions then PartConforms(contract, items[i]) else MessageConforms(contract, items[i])
  {
    hide Valid, Decode, PartsEvidence, MessageEvidence, PartConforms, MessageConforms, CanonicalItems;
    if Decode(text).Ok? && Decode(text).value.JArr? {
      var items := Decode(text).value.items;
      DecodeSound(text);
      DecodedIsValid(text);
      ArrayCanonical(Decode(text).value);
      PartsMean(contract, items);
      forall i | 0 <= i < |items|
        ensures MessageEvidence(contract, items[i]) <==> MessageConforms(contract, items[i])
      {
        CanonicalAt(items, i);
        MessageMeans(contract, items[i]);
      }
    }
  }

  lemma DecodedIsValid(text: Bytes)
    requires Decode(text).Ok?
    ensures Valid(text)
  {
  }

  // ----- retrieved documents

  /** A document the checker accepts: references as texts, a score as a number, nothing else. */
  ghost predicate DocumentConforms(v: Json)
  {
    && v.JObj?
    && forall m :: m in v.members ==>
         && m.key in {"id", "metry.document.version", "metry.document.digest", "score"}
         && (m.value.JNull? || if m.key == "score" then m.value.JNum? else m.value.JStr?)
  }

  lemma DocumentMeans(v: Json)
    ensures DocumentEvidence(v) <==> DocumentConforms(v)
  {
    if v.JObj? && DocumentEvidence(v) {
      forall m | m in v.members
        ensures m.key in {"id", "metry.document.version", "metry.document.digest", "score"}
        ensures m.value.JNull? || if m.key == "score" then m.value.JNum? else m.value.JStr?
      {
        var i :| 0 <= i < |v.members| && v.members[i] == m;
      }
    }
  }

  /** Retrieved documents are accepted exactly as a bounded array of such objects. */
  lemma RetrievalEvidenceMeans(contract: Contract, text: Bytes)
    ensures ValidRetrievalEvidence(contract, text) <==>
      && |text| <= contract.limit && text != [] && text[0] == '[' && Decode(text).Ok? && Decode(text).value.JArr?
      && var items := Decode(text).value.items;
         forall i :: 0 <= i < |items| ==> DocumentConforms(items[i])
  {
    hide Valid, Decode, DocumentEvidence, DocumentConforms;
    if Decode(text).Ok? && Decode(text).value.JArr? {
      var items := Decode(text).value.items;
      DecodedIsValid(text);
      forall i | 0 <= i < |items|
        ensures DocumentEvidence(items[i]) <==> DocumentConforms(items[i])
      {
        DocumentMeans(items[i]);
      }
    }
  }

  // ----- tool payloads

  /** A tool payload is accepted exactly as JSON in valid UTF-8 within the contract and the three
      limits: the keys in it are the host's own. */
  lemma ToolEvidenceMeans(contract: Contract, text: Bytes)
    ensures ValidToolEvidence(contract, text) <==>
      && |text| <= contract.limit && |text| <= 1048576 && Valid(text) && Parse(text).Some?
      && Depth(Parse(text).value) <= 32 && Nodes(Canon(Parse(text).value)) <= 4096
  {
    hide Valid, Parse, Scan, Depth, Nodes, Canon;
    if Parse(text).Some? {
      ScannerDecidesDepth(text);
    }
  }
}
