/** Minting tokens (src/valiss/token.py, src/valiss/message.py) and the round trip
    through the wire format. */
module Issue {
  import opened Bits
  import opened Errors
  import opened Json
  import opened Nkeys
  import opened Radix
  import opened Token
  import opened Wire
  import Utf8

  // ---- fields that are written only when present --------------------------------------------

  datatype Slot = Slot(key: string, value: Option<Json>)

  function Present(slots: seq<Slot>): seq<Field> {
    if slots == [] then []
    else
      (if slots[0].value.Some? then [Field(slots[0].key, slots[0].value.value)] else [])
      + Present(slots[1..])
  }

  ghost predicate DistinctKeys(slots: seq<Slot>) {
    forall i, j :: 0 <= i < j < |slots| ==> slots[i].key != slots[j].key
  }

  function ValueOf(s: Slot): Json {
    if s.value.Some? then s.value.value else Null
  }

  lemma PresentCons(slots: seq<Slot>)
    requires slots != []
    ensures if slots[0].value.Some? then
              Present(slots) != [] && Present(slots)[0] == Field(slots[0].key, slots[0].value.value)
              && Present(slots)[1..] == Present(slots[1..])
            else Present(slots) == Present(slots[1..])
  {
  }

  /** Reading a slot that is not there gives null. */
  lemma {:induction false} GetAbsent(slots: seq<Slot>, key: string)
    requires forall i :: 0 <= i < |slots| ==> slots[i].key != key
    ensures Get(Present(slots), key) == Null && NoKey(Present(slots), key)
  {
    if slots != [] {
      GetAbsent(slots[1..], key);
      PresentCons(slots);
    }
  }

  /** Reading back a slot gives its value, or null when it was left out. */
  lemma {:induction false} GetSlot(slots: seq<Slot>, i: nat)
    requires DistinctKeys(slots) && i < |slots|
    ensures Get(Present(slots), slots[i].key) == ValueOf(slots[i])
  {
    hide Present;
    var key := slots[i].key;
    PresentCons(slots);
    if i == 0 {
      GetAbsent(slots[1..], key);
    } else {
      GetSlot(slots[1..], i - 1);
    }
  }

  ghost predicate SlotsWellFormed(slots: seq<Slot>) {
    forall i :: 0 <= i < |slots| ==> WellFormed(ValueOf(slots[i]))
  }

  lemma {:induction false} PresentWellFormed(slots: seq<Slot>)
    requires DistinctKeys(slots) && SlotsWellFormed(slots)
    ensures WellFormedFields(Present(slots))
  {
    if slots != [] {
      PresentWellFormed(slots[1..]);
      GetAbsent(slots[1..], slots[0].key);
      var rest := Present(slots[1..]);
      PresentCons(slots);
      assert slots[0].value.Some? ==> ValueOf(slots[0]) == slots[0].value.value;
    }
  }

  // ---- encoding -------------------------------------------------------------------------------

  function InQuotes(s: string): string {
    "\"" + s + "\""
  }

  /** The frozen header: {"typ":"JWT","alg":"ed25519-nkey","ver":1} */
  const HEADER :=
    "{" + (InQuotes("typ") + ":" + InQuotes("JWT")) + ","
    + (InQuotes("alg") + ":" + InQuotes("ed25519-nkey")) + ","
    + (InQuotes("ver") + ":" + "1") + "}"

  function OptStr(s: string): Option<Json> {
    if s == "" then None else Some(Str(s))
  }

  function OptInt(n: int): Option<Json> {
    if n == 0 then None else Some(Int(n))
  }

  /** Whole seconds, toward zero. */
  function Seconds(us: int): int {
    if us >= 0 then us / SECOND else -((-us) / SECOND)
  }

  /** The fields of a token body, by level. */
  datatype Body = Body(kind: string, epoch: nat, bearer: bool, checksum: string,
                       chain: Option<(string, string)>, ext: Ext)

  function ChainJson(c: (string, string)): Json {
    Obj(Present([Slot("account", OptStr(c.0)), Slot("user", OptStr(c.1))]))
  }

  function BodySlots(b: Body): seq<Slot> {
    [Slot("type", Some(Str(b.kind))),
     Slot("epoch", OptInt(b.epoch)),
     Slot("bearer", if b.bearer then Some(Bool(true)) else None),
     Slot("checksum", OptStr(b.checksum)),
     Slot("chain", if b.chain.Some? then Some(ChainJson(b.chain.value)) else None),
     Slot("ext", if b.ext == [] then None else Some(Obj(b.ext)))]
  }

  datatype Registered = Registered(
    issuer: string, subject: string, name: string, audience: string,
    issuedAt: int, expires: int, notBefore: int)

  /** The claims without their id, in wire order. */
  function ClaimSlots(r: Registered, b: Body): seq<Slot> {
    [Slot("iat", Some(Int(r.issuedAt))),
     Slot("iss", Some(Str(r.issuer))),
     Slot("name", OptStr(r.name)),
     Slot("sub", OptStr(r.subject)),
     Slot("aud", OptStr(r.audience)),
     Slot("exp", OptInt(r.expires)),
     Slot("nbf", OptInt(r.notBefore)),
     Slot("valiss", Some(Obj(Present(BodySlots(b)))))]
  }

  /** The content-derived id: base32 of the hash of the claims. */
  function TokenId(p: Platform, r: Registered, b: Body): string {
    Encode(Base32, p.sha256(GoJson(Obj(Present(ClaimSlots(r, b))))))
  }

  function PayloadSlots(p: Platform, r: Registered, b: Body): seq<Slot> {
    [Slot("jti", Some(Str(TokenId(p, r, b))))] + ClaimSlots(r, b)
  }

  function SigningInput(p: Platform, r: Registered, b: Body): string {
    Encode(Base64Url, Utf8.Encode(HEADER)) + "."
    + Encode(Base64Url, GoJson(Obj(Present(PayloadSlots(p, r, b)))))
  }

  function EncodeV1(p: Platform, issuer: KeyPair, r: Registered, b: Body): Result<string> {
    if issuer.seed.None? then Err(Unclassified)
    else
      var input := SigningInput(p, r, b);
      Ok(input + "." + Encode(Base64Url, p.sign(issuer.seed.value, Utf8.Encode(input))))
  }

  // ---- decoding what was encoded -----------------------------------------------------------------

  lemma {:induction false} SplitDotsAt(a: string, b: string)
    requires '.' !in a
    ensures SplitDots(a + "." + b) == [a] + SplitDots(b)
  {
    if a == "" {
      assert a + "." + b == "." + b && ("." + b)[1..] == b;
    } else {
      assert (a + "." + b)[1..] == a[1..] + "." + b;
      SplitDotsAt(a[1..], b);
      assert [a[0]] + a[1..] == a;
    }
  }

  lemma {:induction false} SplitNoDots(a: string)
    requires '.' !in a
    ensures SplitDots(a) == [a]
  {
    if a != "" {
      SplitNoDots(a[1..]);
      assert [a[0]] + a[1..] == a;
    }
  }

  lemma ThreeSegments(a: Bytes, b: Bytes, c: Bytes)
    ensures var x, y, z := Encode(Base64Url, a), Encode(Base64Url, b), Encode(Base64Url, c);
            SplitDots(x + "." + y + "." + z) == [x, y, z]
  {
    var x, y, z := Encode(Base64Url, a), Encode(Base64Url, b), Encode(Base64Url, c);
    Base64UrlNoDot(a);
    Base64UrlNoDot(b);
    Base64UrlNoDot(c);
    hide Encode;
    SplitDotsAt(x, y + "." + z);
    SplitDotsAt(y, z);
    SplitNoDots(z);
    assert x + "." + y + "." + z == x + "." + (y + "." + z);
  }

  lemma LoadsEncoded(fields: seq<Field>)
    requires WellFormedFields(fields)
    ensures LoadsObject(Encode(Base64Url, GoJson(Obj(fields)))) == Ok(fields)
  {
    Base64UrlRoundTrip(GoJson(Obj(fields)));
    GoJsonRoundTrip(Obj(fields));
    hide Base64UrlDecode, LoadsBytes, GoJson, Encode;
  }

  /** The keys of the wire format are told apart by length and first two letters. */
  function KeyCode(key: string): int
    requires |key| >= 2
  {
    |key| * 0x1_0000 + key[0] as int * 0x100 + key[1] as int
  }

  lemma PayloadKeys(p: Platform, r: Registered, b: Body)
    ensures DistinctKeys(PayloadSlots(p, r, b)) && DistinctKeys(ClaimSlots(r, b))
    ensures |PayloadSlots(p, r, b)| == 9 && |ClaimSlots(r, b)| == 8
  {
    hide TokenId, Present, BodySlots, OptStr, OptInt;
    var s := PayloadSlots(p, r, b);
    assert s[0].key == "jti" && s[1].key == "iat" && s[2].key == "iss" && s[3].key == "name";
    assert s[4].key == "sub" && s[5].key == "aud" && s[6].key == "exp" && s[7].key == "nbf";
    assert s[8].key == "valiss";
    ClaimKeyCodes();
    var codes := [0x36a74, 0x36961, 0x36973, 0x46e61, 0x37375, 0x36175, 0x36578, 0x36e62, 0x67661];
    forall i | 0 <= i < 9 ensures |s[i].key| >= 2 && KeyCode(s[i].key) == codes[i] {
    }
    DistinctCodes(s, codes);
    assert forall i :: 0 <= i < 8 ==> ClaimSlots(r, b)[i] == s[i + 1];
  }

  lemma DistinctCodes(s: seq<Slot>, codes: seq<int>)
    requires |s| == |codes|
    requires forall i :: 0 <= i < |s| ==> |s[i].key| >= 2 && KeyCode(s[i].key) == codes[i]
    requires forall i, j :: 0 <= i < j < |codes| ==> codes[i] != codes[j]
    ensures DistinctKeys(s)
  {
    forall i, j | 0 <= i < j < |s| ensures s[i].key != s[j].key {
      assert KeyCode(s[i].key) != KeyCode(s[j].key);
    }
  }

  lemma ClaimKeyCodes()
    ensures KeyCode("jti") == 0x36a74 && KeyCode("iat") == 0x36961 && KeyCode("iss") == 0x36973
    ensures KeyCode("name") == 0x46e61 && KeyCode("sub") == 0x37375 && KeyCode("aud") == 0x36175
    ensures KeyCode("exp") == 0x36578 && KeyCode("nbf") == 0x36e62 && KeyCode("valiss") == 0x67661
  {
  }

  lemma BodyKeys(b: Body)
    ensures DistinctKeys(BodySlots(b)) && |BodySlots(b)| == 6
  {
  }

  // ---- which fields are written, in what order ---------------------------------------------

  function Keys(fields: seq<Field>): seq<string> {
    if fields == [] then [] else [fields[0].key] + Keys(fields[1..])
  }

  /** The key, when it is written. */
  function When(written: bool, key: string): seq<string> {
    if written then [key] else []
  }

  lemma {:induction false} KeysConcat(a: seq<Field>, b: seq<Field>)
    ensures Keys(a + b) == Keys(a) + Keys(b)
  {
    if a == [] {
      assert a + b == b;
    } else {
      assert (a + b)[1..] == a[1..] + b;
      KeysConcat(a[1..], b);
    }
  }

  lemma {:induction false} PresentKeys(slots: seq<Slot>, more: seq<Slot>)
    ensures Present(slots + more) == Present(slots) + Present(more)
  {
    if slots == [] {
      assert slots + more == more;
    } else {
      assert (slots + more)[1..] == slots[1..] + more;
      PresentKeys(slots[1..], more);
    }
  }

  lemma SlotKeys(slots: seq<Slot>, s: Slot)
    ensures Keys(Present(slots + [s])) == Keys(Present(slots)) + When(s.value.Some?, s.key)
  {
    PresentKeys(slots, [s]);
    assert [s][1..] == [];
    KeysConcat(Present(slots), Present([s]));
    if s.value.Some? { assert Present([s]) == [Field(s.key, s.value.value)]; }
  }

  /** The keys of the slots that are written, in order. */
  function Written(slots: seq<Slot>): seq<string> {
    if slots == [] then []
    else Written(slots[..|slots| - 1]) + When(slots[|slots| - 1].value.Some?, slots[|slots| - 1].key)
  }

  lemma {:induction false} KeysWritten(slots: seq<Slot>)
    ensures Keys(Present(slots)) == Written(slots)
    decreases |slots|
  {
    hide When;
    if slots != [] {
      var init, last := slots[..|slots| - 1], slots[|slots| - 1];
      KeysWritten(init);
      SlotKeys(init, last);
      assert slots == init + [last];
    }
  }

  lemma WrittenMore(slots: seq<Slot>, n: nat)
    requires n < |slots|
    ensures Written(slots[..n + 1]) == Written(slots[..n]) + When(slots[n].value.Some?, slots[n].key)
  {
    assert slots[..n + 1][..n] == slots[..n];
  }

  lemma NoneWritten(slots: seq<Slot>)
    ensures Written(slots[..0]) == [] && Written(slots[..|slots|]) == Written(slots)
  {
    assert slots[..|slots|] == slots;
  }

  lemma PayloadSlotsWritten(p: Platform, r: Registered, b: Body)
    ensures var s := PayloadSlots(p, r, b);
            && |s| == 9 && s[0].value.Some? && s[1].value.Some? && s[2].value.Some? && s[8].value.Some?
            && (s[3].value.Some? <==> r.name != "") && (s[4].value.Some? <==> r.subject != "")
            && (s[5].value.Some? <==> r.audience != "") && (s[6].value.Some? <==> r.expires != 0)
            && (s[7].value.Some? <==> r.notBefore != 0)
    ensures var s := PayloadSlots(p, r, b);
            && s[0].key == "jti" && s[1].key == "iat" && s[2].key == "iss" && s[3].key == "name" && s[4].key == "sub"
            && s[5].key == "aud" && s[6].key == "exp" && s[7].key == "nbf" && s[8].key == "valiss"
  {
    hide TokenId, BodySlots, Present;
  }

  /** The claims stand in the wire order, and those that are empty or zero are left out. */
  lemma WireKeys(p: Platform, r: Registered, b: Body)
    ensures Keys(Present(PayloadSlots(p, r, b)))
         == ["jti"] + ["iat"] + ["iss"] + When(r.name != "", "name") + When(r.subject != "", "sub")
            + When(r.audience != "", "aud") + When(r.expires != 0, "exp") + When(r.notBefore != 0, "nbf") + ["valiss"]
  {
    PayloadSlotsWritten(p, r, b);
    Always();
    hide Present, Keys, PayloadSlots, When, Written;
    var s := PayloadSlots(p, r, b);
    KeysWritten(s);
    NoneWritten(s);
    WrittenMore(s, 0);
    WrittenMore(s, 1);
    WrittenMore(s, 2);
    WrittenMore(s, 3);
    WrittenMore(s, 4);
    WrittenMore(s, 5);
    WrittenMore(s, 6);
    WrittenMore(s, 7);
    WrittenMore(s, 8);
    assert [] + ["jti"] == ["jti"];
  }

  lemma Always()
    ensures forall key :: When(true, key) == [key]
  {
  }

  lemma BodySlotsWritten(b: Body)
    ensures var s := BodySlots(b);
            && |s| == 6 && s[0].value.Some? && (s[1].value.Some? <==> b.epoch != 0) && (s[2].value.Some? <==> b.bearer)
            && (s[3].value.Some? <==> b.checksum != "") && (s[4].value.Some? <==> b.chain.Some?)
            && (s[5].value.Some? <==> b.ext != [])
    ensures var s := BodySlots(b);
            && s[0].key == "type" && s[1].key == "epoch" && s[2].key == "bearer" && s[3].key == "checksum"
            && s[4].key == "chain" && s[5].key == "ext"
  {
    hide ChainJson;
  }

  /** So do the fields of the body. */
  lemma BodyWireKeys(b: Body)
    ensures Keys(Present(BodySlots(b)))
         == ["type"] + When(b.epoch != 0, "epoch") + When(b.bearer, "bearer") + When(b.checksum != "", "checksum")
            + When(b.chain.Some?, "chain") + When(b.ext != [], "ext")
  {
    BodySlotsWritten(b);
    Always();
    hide Present, Keys, BodySlots, When, Written;
    var s := BodySlots(b);
    KeysWritten(s);
    NoneWritten(s);
    WrittenMore(s, 0);
    WrittenMore(s, 1);
    WrittenMore(s, 2);
    WrittenMore(s, 3);
    WrittenMore(s, 4);
    WrittenMore(s, 5);
    assert [] + ["type"] == ["type"];
  }

  // ---- the header ------------------------------------------------------------------------------

  const HEADER_FIELDS: seq<Field> :=
    [Field("typ", Str("JWT")), Field("alg", Str("ed25519-nkey")), Field("ver", Int(1))]

  predicate IsWord(s: string) {
    forall i :: 0 <= i < |s| ==>
      'a' <= s[i] <= 'z' || 'A' <= s[i] <= 'Z' || '0' <= s[i] <= '9' || s[i] == '-'
  }

  lemma {:induction false} EscapedWord(s: string)
    requires IsWord(s)
    ensures Escaped(s, true) == s
  {
    if s != "" {
      EscapedWord(s[1..]);
      assert Escape(s[0]) == [s[0]] && !IsHtml(s[0]);
      assert s == [s[0]] + s[1..];
    }
  }

  lemma QuotedWord(s: string)
    requires IsWord(s)
    ensures Quoted(s, true) == InQuotes(s)
  {
    EscapedWord(s);
  }

  lemma HeaderWords()
    ensures IsWord("typ") && IsWord("JWT") && IsWord("alg") && IsWord("ed25519-nkey") && IsWord("ver")
    ensures Decimal(1) == "1"
  {
  }

  /** The frozen header text is what the serializer would write for its fields. */
  lemma HeaderText()
    ensures GoText(Obj(HEADER_FIELDS)) == HEADER
  {
    hide Dump, GoText;
    OnePassEscaping(Obj(HEADER_FIELDS));
    HeaderDump();
  }

  lemma FieldsDump(f: Field, rest: seq<Field>)
    ensures DumpFields([f] + rest, true) ==
            Quoted(f.key, true) + ":" + Dump(f.value, true)
            + (if rest == [] then "" else "," + DumpFields(rest, true))
  {
  }

  function FieldText(f: Field): string {
    Quoted(f.key, true) + ":" + Dump(f.value, true)
  }

  lemma WordField(key: string, value: string)
    requires IsWord(key) && IsWord(value)
    ensures FieldText(Field(key, Str(value))) == InQuotes(key) + ":" + InQuotes(value)
  {
    hide Quoted, InQuotes;
    QuotedWord(key);
    QuotedWord(value);
  }

  lemma VersionField()
    requires IsWord("ver") && Decimal(1) == "1"
    ensures FieldText(Field("ver", Int(1))) == InQuotes("ver") + ":" + "1"
  {
  }

  lemma ThreeFields(a: Field, b: Field, c: Field)
    ensures Dump(Obj([a, b, c]), true)
         == "{" + FieldText(a) + "," + FieldText(b) + "," + FieldText(c) + "}"
  {
    hide Quoted, Dump;
    assert Dump(Obj([a, b, c]), true) == "{" + DumpFields([a, b, c], true) + "}" by { ObjDump([a, b, c]); }
    hide DumpFields;
    FieldsDump(c, []);
    FieldsDump(b, [c]);
    FieldsDump(a, [b, c]);
    assert [c] + [] == [c] && [b] + [c] == [b, c] && [a] + [b, c] == [a, b, c];
  }

  lemma ObjDump(fields: seq<Field>)
    ensures Dump(Obj(fields), true) == "{" + DumpFields(fields, true) + "}"
  {
  }

  lemma HeaderDump()
    ensures Dump(Obj(HEADER_FIELDS), true) == HEADER
  {
    hide Dump, FieldText, InQuotes, IsWord;
    HeaderWords();
    WordField("typ", "JWT");
    WordField("alg", "ed25519-nkey");
    VersionField();
    ThreeFields(Field("typ", Str("JWT")), Field("alg", Str("ed25519-nkey")), Field("ver", Int(1)));
  }

  lemma HeaderLoads()
    ensures LoadsObject(Encode(Base64Url, Utf8.Encode(HEADER))) == Ok(HEADER_FIELDS)
  {
    hide Encode, LoadsObject, GoText, Utf8.Encode;
    HeaderText();
    HeaderWellFormed();
    LoadsEncoded(HEADER_FIELDS);
  }

  lemma HeaderPeeked(claims: string, signature: string)
    requires '.' !in claims && '.' !in signature
    ensures var h := Encode(Base64Url, Utf8.Encode(HEADER));
            PeekVersion(h + "." + claims + "." + signature) == Ok((1, [h, claims, signature]))
  {
    hide Encode, LoadsObject, Get, HasKey, Utf8.Encode, SplitDots;
    var h := Encode(Base64Url, Utf8.Encode(HEADER));
    HeaderLoads();
    Base64UrlNoDot(Utf8.Encode(HEADER));
    HeaderGets();
    assert h + "." + claims + "." + signature == h + "." + (claims + "." + signature);
    SplitDotsAt(h, claims + "." + signature);
    SplitDotsAt(claims, signature);
    SplitNoDots(signature);
    assert SplitDots(h + "." + claims + "." + signature) == [h, claims, signature];
  }

  lemma HeaderWellFormed()
    ensures WellFormedFields(HEADER_FIELDS)
  {
  }

  lemma HeaderGets()
    ensures Get(HEADER_FIELDS, "typ") == Str("JWT") && Get(HEADER_FIELDS, "alg") == Str("ed25519-nkey")
    ensures Get(HEADER_FIELDS, "ver") == Int(1) && HasKey(HEADER_FIELDS, "ver")
  {
  }

  // ---- the claims -------------------------------------------------------------------------------

  function Embedded(c: (string, string)): ChainObject {
    ChainObject(if c.0 == "" then None else Some(c.0), if c.1 == "" then None else Some(c.1))
  }

  /** What a reader gets back. */
  function DecodedFrom(p: Platform, r: Registered, b: Body): Decoded {
    Decoded(TokenId(p, r, b), r.issuer, r.subject, r.name, r.audience,
            r.issuedAt, r.expires, r.notBefore, KindOf(b.kind), b.epoch, b.bearer, b.checksum,
            if b.chain.None? then None else Some(Embedded(b.chain.value)), b.ext)
  }

  ghost predicate InRange(r: Registered, b: Body) {
    && TS_MIN <= r.issuedAt <= TS_MAX && TS_MIN <= r.expires <= TS_MAX && TS_MIN <= r.notBefore <= TS_MAX
    && b.epoch <= UINT64_MAX && WellFormedFields(b.ext)
  }

  lemma ChainDecodes(c: (string, string))
    ensures ChainJson(c).Obj?
    ensures var o := ChainJson(c).fields;
            && OptionalStr(o, "account") == Ok(Embedded(c).account)
            && OptionalStr(o, "user") == Ok(Embedded(c).user)
            && WellFormedFields(o)
  {
    var slots := [Slot("account", OptStr(c.0)), Slot("user", OptStr(c.1))];
    assert slots[0].key == "account" && slots[1].key == "user";
    assert "account"[0] == 'a' && "user"[0] == 'u';
    assert DistinctKeys(slots);
    hide Get, Present;
    GetSlot(slots, 0);
    GetSlot(slots, 1);
    PresentWellFormed(slots);
  }

  lemma BodyDecodes(b: Body)
    requires b.epoch <= UINT64_MAX && WellFormedFields(b.ext)
    ensures var f := Present(BodySlots(b));
            && WireStr(f, "type") == Ok(b.kind)
            && WireInt(f, "epoch", 0, UINT64_MAX) == Ok(b.epoch as int)
            && WireBool(f, "bearer") == Ok(b.bearer)
            && WireStr(f, "checksum") == Ok(b.checksum)
            && WireChain(f) == Ok(if b.chain.None? then None else Some(Embedded(b.chain.value)))
            && WireObj(f, "ext") == Ok(if b.ext == [] then None else Some(b.ext))
            && WellFormedFields(f)
  {
    hide Get, Present, ChainJson, DistinctKeys, Embedded, WellFormedFields, OptionalStr;
    BodyKeys(b);
    if b.chain.Some? { ChainDecodes(b.chain.value); }
    var s := BodySlots(b);
    GetSlot(s, 0);
    GetSlot(s, 1);
    GetSlot(s, 2);
    GetSlot(s, 3);
    GetSlot(s, 4);
    GetSlot(s, 5);
    BodyWellFormed(b);
  }

  lemma BodyWellFormed(b: Body)
    requires WellFormedFields(b.ext)
    ensures WellFormedFields(Present(BodySlots(b)))
  {
    hide Present, ChainJson, DistinctKeys, WellFormedFields;
    BodyKeys(b);
    if b.chain.Some? { ChainDecodes(b.chain.value); }
    PresentWellFormed(BodySlots(b));
  }

  lemma PayloadGets(p: Platform, r: Registered, b: Body)
    ensures var f := Present(PayloadSlots(p, r, b));
            && Get(f, "jti") == Str(TokenId(p, r, b))
            && Get(f, "iat") == Int(r.issuedAt) && Get(f, "iss") == Str(r.issuer)
            && Get(f, "name") == OrNull(OptStr(r.name)) && Get(f, "sub") == OrNull(OptStr(r.subject))
            && Get(f, "aud") == OrNull(OptStr(r.audience)) && Get(f, "exp") == OrNull(OptInt(r.expires))
            && Get(f, "nbf") == OrNull(OptInt(r.notBefore))
            && Get(f, "valiss") == Obj(Present(BodySlots(b)))
  {
    PayloadKeys(p, r, b);
    hide Get, Present, DistinctKeys, TokenId, BodySlots, OptStr, OptInt;
    var s := PayloadSlots(p, r, b);
    GetSlot(s, 0);
    GetSlot(s, 1);
    GetSlot(s, 2);
    GetSlot(s, 3);
    GetSlot(s, 4);
    GetSlot(s, 5);
    GetSlot(s, 6);
    GetSlot(s, 7);
    GetSlot(s, 8);
  }

  function OrNull(v: Option<Json>): Json {
    if v.Some? then v.value else Null
  }

  lemma PayloadDecodes(p: Platform, r: Registered, b: Body)
    requires InRange(r, b)
    ensures DecodedOf(Present(PayloadSlots(p, r, b))) == Ok(DecodedFrom(p, r, b))
  {
    hide Get, Present, PayloadSlots, TokenId, BodySlots, WireChain, KindOf, Embedded, WireStr, WireInt, WireObj,
         WireBool;
    RegisteredDecodes(p, r, b);
    BodyDecodes(b);
  }

  lemma RegisteredDecodes(p: Platform, r: Registered, b: Body)
    requires InRange(r, b)
    ensures var f := Present(PayloadSlots(p, r, b));
            && WireStr(f, "jti") == Ok(TokenId(p, r, b)) && WireStr(f, "iss") == Ok(r.issuer)
            && WireStr(f, "sub") == Ok(r.subject) && WireStr(f, "name") == Ok(r.name)
            && WireStr(f, "aud") == Ok(r.audience)
            && WireInt(f, "iat", TS_MIN, TS_MAX) == Ok(r.issuedAt)
            && WireInt(f, "exp", TS_MIN, TS_MAX) == Ok(r.expires)
            && WireInt(f, "nbf", TS_MIN, TS_MAX) == Ok(r.notBefore)
            && WireObj(f, "valiss") == Ok(Some(Present(BodySlots(b))))
  {
    hide Get, Present, PayloadSlots, TokenId, BodySlots, WellFormedFields;
    PayloadGets(p, r, b);
  }

  lemma PayloadWellFormed(p: Platform, r: Registered, b: Body)
    requires WellFormedFields(b.ext)
    ensures WellFormedFields(Present(PayloadSlots(p, r, b)))
  {
    hide Present, DistinctKeys, TokenId, BodySlots, WellFormedFields, InRange, PayloadSlots, OptStr, OptInt;
    PayloadKeys(p, r, b);
    BodyWellFormed(b);
    var s := PayloadSlots(p, r, b);
    PayloadScalars(p, r, b);
    forall i | 0 <= i < |s| ensures WellFormed(ValueOf(s[i])) {
      if i == 8 {
        assert ValueOf(s[8]) == Obj(Present(BodySlots(b)));
      } else {
        assert !ValueOf(s[i]).Arr? && !ValueOf(s[i]).Obj? && !ValueOf(s[i]).Float?;
      }
    }
    PresentWellFormed(s);
  }

  lemma PayloadScalars(p: Platform, r: Registered, b: Body)
    ensures var s := PayloadSlots(p, r, b);
            && |s| == 9 && ValueOf(s[8]) == Obj(Present(BodySlots(b)))
            && forall i :: 0 <= i < 8 ==> !ValueOf(s[i]).Arr? && !ValueOf(s[i]).Obj? && !ValueOf(s[i]).Float?
  {
    hide TokenId, BodySlots, Present;
  }

  /** The pair holds its own seed. */
  ghost predicate Held(p: Platform, kp: KeyPair) {
    kp.seed.Some? && kp.publicRaw == p.publicOf(kp.seed.value) && IsPublicPrefix(kp.prefix)
  }

  lemma HeldKey(p: Platform, kp: KeyPair)
    requires Held(p, kp)
    ensures PublicKey(kp).Ok? && IsValidPublic(PublicKey(kp).value, kp.prefix)
    ensures FromPublicKey(PublicKey(kp).value) == Ok(KeyPair(kp.prefix, kp.publicRaw, None))
  {
    PublicRoundTrip(kp.prefix, kp.publicRaw);
    hide DecodePublic, EncodePublic;
  }

  /** The five things decoding looks at. */
  lemma PartsDecode(p: Platform, tok: string, h: string, c: string, sig: string, fields: seq<Field>,
                    d: Decoded, key: KeyPair, raw: Bytes)
    requires PeekVersion(tok) == Ok((1, [h, c, sig]))
    requires LoadsObject(c) == Ok(fields) && DecodedOf(fields) == Ok(d) && FromPublicKey(d.issuer) == Ok(key)
    requires Base64UrlDecode(sig) == Ok(raw) && p.verify(key.publicRaw, Utf8.Encode(h + "." + c), raw)
    ensures DecodeToken(p, tok) == Ok(d)
  {
    hide LoadsObject, DecodedOf, FromPublicKey, Base64UrlDecode, PeekVersion, Utf8.Encode;
  }

  /** What is encoded decodes to its own claims, under the signer's key. */
  lemma EncodedDecodes(p: Platform, kp: KeyPair, r: Registered, b: Body)
    requires Correct(p) && Held(p, kp) && InRange(r, b)
    requires Ok(r.issuer) == PublicKey(kp)
    ensures EncodeV1(p, kp, r, b).Ok?
    ensures DecodeToken(p, EncodeV1(p, kp, r, b).value) == Ok(DecodedFrom(p, r, b))
    ensures |SplitDots(EncodeV1(p, kp, r, b).value)| == 3
    ensures LoadsObject(SplitDots(EncodeV1(p, kp, r, b).value)[1]) == Ok(Present(PayloadSlots(p, r, b)))
  {
    hide Present, PayloadSlots, DecodedFrom, DecodedOf, LoadsObject, PublicKey, FromPublicKey, Encode, DecodeToken,
         Base64UrlDecode, PeekVersion, GoJson, SplitDots, Utf8.Encode, WellFormedFields, InRange, Held, Correct,
         IsValidPublic;
    var fields := Present(PayloadSlots(p, r, b));
    var header, claims := Utf8.Encode(HEADER), GoJson(Obj(fields));
    var h, c := Encode(Base64Url, header), Encode(Base64Url, claims);
    var input := Utf8.Encode(h + "." + c);
    SignatureChecks(p, kp, input);
    var raw := p.sign(kp.seed.value, input);
    var sig := Encode(Base64Url, raw);
    assert EncodeV1(p, kp, r, b) == Ok(h + "." + c + "." + sig);
    ExtWellFormed(r, b);
    PayloadWellFormed(p, r, b);
    LoadsEncoded(fields);
    PayloadDecodes(p, r, b);
    HeldKey(p, kp);
    IssuerKept(p, r, b);
    Base64UrlRoundTrip(raw);
    Base64UrlNoDot(claims);
    Base64UrlNoDot(raw);
    HeaderPeeked(c, sig);
    ThreeSegments(header, claims, raw);
    PartsDecode(p, h + "." + c + "." + sig, h, c, sig, fields, DecodedFrom(p, r, b),
                FromPublicKey(r.issuer).value, raw);
  }

  lemma ExtWellFormed(r: Registered, b: Body)
    requires InRange(r, b)
    ensures WellFormedFields(b.ext)
  {
  }

  lemma IssuerKept(p: Platform, r: Registered, b: Body)
    ensures DecodedFrom(p, r, b).issuer == r.issuer
  {
  }

  lemma SignatureChecks(p: Platform, kp: KeyPair, message: Bytes)
    requires Correct(p) && Held(p, kp)
    ensures kp.seed.Some? && p.verify(kp.publicRaw, message, p.sign(kp.seed.value, message))
  {
  }

  // ---- validity and extensions --------------------------------------------------------------------

  datatype Validity = Validity(ttl: Option<int>, expiry: Option<int>, notBefore: Option<int>)

  function CheckValidity(v: Validity, now: int): Result<(int, int)> {
    if v.ttl.Some? && v.expiry.Some? then Err(Unclassified)
    else if v.ttl.Some? && v.ttl.value <= 0 then Err(Unclassified)
    else
      Ok((if v.ttl.Some? then Seconds(now + v.ttl.value)
          else if v.expiry.Some? then Seconds(v.expiry.value) else 0,
          if v.notBefore.Some? then Seconds(v.notBefore.value) else 0))
  }

  datatype Extension = Extension(name: string, payload: seq<Field>)

  /** Code-point order on names. */
  predicate Before(a: string, b: string) {
    if a == "" then b != ""
    else if b == "" then false
    else if a[0] == b[0] then Before(a[1..], b[1..])
    else a[0] < b[0]
  }

  function InsertByName(ext: Ext, f: Field): Ext {
    if ext == [] || Before(f.key, ext[0].key) then [f] + ext
    else [ext[0]] + InsertByName(ext[1..], f)
  }

  function SortByName(ext: Ext): Ext {
    if ext == [] then [] else InsertByName(SortByName(ext[1..]), ext[0])
  }

  /** The extensions collected so far, in order of arrival, or an error for an
      empty or repeated name. */
  function Collect(acc: Ext, exts: seq<Extension>): Result<Ext>
    decreases |exts|
  {
    if exts == [] then Ok(acc)
    else if exts[0].name == "" || HasKey(acc, exts[0].name) then Err(Unclassified)
    else Collect(acc + [Field(exts[0].name, Obj(exts[0].payload))], exts[1..])
  }

  function ExtensionsClaim(exts: seq<Extension>): Result<Ext> {
    var ext :- Collect([], exts);
    Ok(SortByName(ext))
  }

  method CollectExtensions(exts: seq<Extension>) returns (r: Result<Ext>)
    ensures r == ExtensionsClaim(exts)
  {
    var ext: Ext := [];
    for i := 0 to |exts|
      invariant Collect([], exts) == Collect(ext, exts[i..])
    {
      var name := exts[i].name;
      if name == "" { return Err(Unclassified); }
      if HasKey(ext, name) { return Err(Unclassified); }
      ext := ext + [Field(name, Obj(exts[i].payload))];
    }
    return Ok(SortByName(ext));
  }
}
