/** Minting at every level, and what a verifier reads back
    (src/valiss/token.py, src/valiss/message.py). */
module Minting {
  import opened Bits
  import opened Errors
  import opened Json
  import opened Nkeys
  import opened Radix
  import opened Token
  import opened Wire
  import opened Issue
  import Utf8

  // ---- extension claims ---------------------------------------------------------------------

  ghost predicate Sorted(ext: Ext) {
    forall i, j :: 0 <= i < j < |ext| ==> Before(ext[i].key, ext[j].key)
  }

  lemma {:induction false} BeforeIrreflexive(a: string)
    ensures !Before(a, a)
  {
    if a != "" { BeforeIrreflexive(a[1..]); }
  }

  lemma {:induction false} BeforeTotal(a: string, b: string)
    ensures a == b || Before(a, b) || Before(b, a)
  {
    if a != "" && b != "" && a[0] == b[0] {
      BeforeTotal(a[1..], b[1..]);
      assert a == [a[0]] + a[1..] && b == [b[0]] + b[1..];
    }
  }

  lemma {:induction false} BeforeTransitive(a: string, b: string, c: string)
    requires Before(a, b) && Before(b, c)
    ensures Before(a, c)
  {
    if a != "" && a[0] == b[0] == c[0] { BeforeTransitive(a[1..], b[1..], c[1..]); }
  }

  lemma {:induction false} InsertSorted(ext: Ext, f: Field)
    requires Sorted(ext) && NoKey(ext, f.key)
    ensures Sorted(InsertByName(ext, f))
    ensures forall g :: g in InsertByName(ext, f) <==> g in ext || g == f
  {
    if ext != [] {
      var rest := ext[1..];
      assert ext == [ext[0]] + rest;
      if Before(f.key, ext[0].key) {
        forall i | 1 <= i < |ext| ensures Before(f.key, ext[i].key) {
          BeforeTransitive(f.key, ext[0].key, ext[i].key);
        }
      } else {
        BeforeTotal(f.key, ext[0].key);
        InsertSorted(rest, f);
        var out := InsertByName(rest, f);
        forall g | g in out ensures Before(ext[0].key, g.key) {
          if g in rest { assert Before(ext[0].key, g.key); }
        }
      }
    }
  }

  lemma {:induction false} SortSorted(ext: Ext)
    requires forall i, j :: 0 <= i < j < |ext| ==> ext[i].key != ext[j].key
    ensures Sorted(SortByName(ext))
    ensures forall g :: g in SortByName(ext) <==> g in ext
  {
    if ext != [] {
      var rest := ext[1..];
      assert ext == [ext[0]] + rest;
      SortSorted(rest);
      var sorted := SortByName(rest);
      forall i | 0 <= i < |sorted| ensures sorted[i].key != ext[0].key {
        assert sorted[i] in rest;
        var k :| 0 <= k < |rest| && rest[k] == sorted[i];
        assert ext[k + 1] == sorted[i];
      }
      InsertSorted(sorted, ext[0]);
    }
  }

  lemma SmallestFirst(a: Ext, b: Ext)
    requires Sorted(a) && Sorted(b) && a != [] && b != []
    requires a[0] in b && b[0] in a
    ensures a[0] == b[0]
  {
    var i :| 0 <= i < |b| && b[i] == a[0];
    var j :| 0 <= j < |a| && a[j] == b[0];
    if i > 0 && j > 0 {
      BeforeTransitive(a[0].key, b[0].key, a[0].key);
      BeforeIrreflexive(a[0].key);
    }
  }

  /** A sorted list is determined by its elements. */
  lemma {:induction false} SortedUnique(a: Ext, b: Ext)
    requires Sorted(a) && Sorted(b)
    requires forall g :: g in a <==> g in b
    ensures a == b
  {
    assert a != [] ==> a[0] in a;
    assert b != [] ==> b[0] in b;
    if a != [] {
      SmallestFirst(a, b);
      TailElements(a);
      TailElements(b);
      SortedUnique(a[1..], b[1..]);
      assert a == [a[0]] + a[1..] && b == [b[0]] + b[1..];
    }
  }

  lemma TailElements(a: Ext)
    requires Sorted(a) && a != []
    ensures Sorted(a[1..]) && forall g :: g in a[1..] <==> g in a && g != a[0]
  {
    assert a == [a[0]] + a[1..];
    if a[0] in a[1..] {
      var i :| 0 <= i < |a[1..]| && a[1..][i] == a[0];
      assert Before(a[0].key, a[i + 1].key);
      BeforeIrreflexive(a[0].key);
    }
  }

  function AsField(e: Extension): Field {
    Field(e.name, Obj(e.payload))
  }

  ghost predicate DistinctNames(exts: seq<Extension>) {
    && (forall i :: 0 <= i < |exts| ==> exts[i].name != "")
    && (forall i, j :: 0 <= i < j < |exts| ==> exts[i].name != exts[j].name)
  }

  function AsFields(exts: seq<Extension>): (fs: Ext)
    ensures |fs| == |exts| && forall i :: 0 <= i < |exts| ==> fs[i] == AsField(exts[i])
  {
    seq(|exts|, i requires 0 <= i < |exts| => AsField(exts[i]))
  }

  /** Collecting fails exactly on an empty or repeated name. */
  lemma {:induction false} CollectCharacterised(done: seq<Extension>, exts: seq<Extension>)
    requires DistinctNames(done)
    ensures Collect(AsFields(done), exts).Ok? <==> DistinctNames(done + exts)
    ensures Collect(AsFields(done), exts).Ok? ==> Collect(AsFields(done), exts).value == AsFields(done + exts)
    decreases |exts|
  {
    if exts == [] {
      assert done + exts == done;
    } else {
      var e := exts[0];
      assert done + exts == (done + [e]) + exts[1..];
      var all := done + exts;
      if e.name == "" {
        assert all[|done|] == e;
      } else if HasKey(AsFields(done), e.name) {
        var i :| 0 <= i < |done| && AsFields(done)[i].key == e.name;
        assert all[i].name == all[|done|].name;
      } else {
        assert forall i :: 0 <= i < |done| ==> AsFields(done)[i].key == done[i].name;
        assert AsFields(done) + [AsField(e)] == AsFields(done + [e]);
        CollectCharacterised(done + [e], exts[1..]);
      }
    }
  }

  lemma NoneDistinct()
    ensures DistinctNames([]) && AsFields([]) == []
  {
  }

  lemma FieldsDistinct(exts: seq<Extension>)
    requires DistinctNames(exts)
    ensures forall i, j :: 0 <= i < j < |AsFields(exts)| ==> AsFields(exts)[i].key != AsFields(exts)[j].key
  {
    assert forall i :: 0 <= i < |exts| ==> AsFields(exts)[i].key == exts[i].name;
  }

  /** The claim is the sorted list of the extensions; it exists exactly when names
      are nonempty and distinct. */
  lemma ClaimCharacterised(exts: seq<Extension>)
    ensures ExtensionsClaim(exts).Ok? <==> DistinctNames(exts)
    ensures ExtensionsClaim(exts).Ok? ==>
              Sorted(ExtensionsClaim(exts).value)
              && forall f :: f in ExtensionsClaim(exts).value <==> f in AsFields(exts)
  {
    hide Collect, SortByName, Sorted, DistinctNames, AsFields;
    NoneDistinct();
    CollectCharacterised([], exts);
    assert [] + exts == exts;
    if DistinctNames(exts) {
      FieldsDistinct(exts);
      SortSorted(AsFields(exts));
    }
  }

  lemma FirstAlike(a: string, b: string, i: nat)
    requires 0 < i <= |a| && i <= |b| && a[..i] == b[..i]
    ensures a[0] == b[0]
  {
    assert a[0] == a[..i][0];
  }

  lemma {:induction false} BeforeIsTextOrder(a: string, b: string)
    ensures Before(a, b) <==> Utf8.TextBefore(a, b)
  {
    if a == "" || b == "" || a[0] != b[0] {
      assert Before(a, b) ==> Utf8.TextSplit(a, b, 0);
      forall i: nat | Utf8.TextSplit(a, b, i) ensures i == 0 {
        if i > 0 { FirstAlike(a, b, i); }
      }
    } else {
      var x, y := a[1..], b[1..];
      BeforeIsTextOrder(x, y);
      assert a == [a[0]] + x && b == [b[0]] + y;
      forall i: nat | Utf8.TextSplit(x, y, i) ensures Utf8.TextSplit(a, b, i + 1) {
        assert a[..i + 1] == [a[0]] + x[..i] && b[..i + 1] == [b[0]] + y[..i];
      }
      forall i: nat | Utf8.TextSplit(a, b, i) ensures i > 0 && Utf8.TextSplit(x, y, i - 1) {
        if i > 0 { assert x[..i - 1] == a[..i][1..] && y[..i - 1] == b[..i][1..]; }
      }
    }
  }

  /** The claim lists its names in the order of their UTF-8 bytes, as Go sorts map keys,
      though the sort compares code points. */
  lemma SortedByBytes(exts: seq<Extension>, i: nat, j: nat)
    requires ExtensionsClaim(exts).Ok? && i < j < |ExtensionsClaim(exts).value|
    ensures var ext := ExtensionsClaim(exts).value;
            Utf8.BytesBefore(Utf8.Encode(ext[i].key), Utf8.Encode(ext[j].key))
  {
    hide ExtensionsClaim, Utf8.Encode, Utf8.BytesBefore, Utf8.TextBefore;
    ClaimCharacterised(exts);
    var ext := ExtensionsClaim(exts).value;
    BeforeIsTextOrder(ext[i].key, ext[j].key);
    Utf8.OrderExactly(ext[i].key, ext[j].key);
  }

  /** So the order extensions are passed in never shows in a token. */
  lemma ExtensionOrderIrrelevant(exts: seq<Extension>, exts': seq<Extension>)
    requires ExtensionsClaim(exts).Ok? && ExtensionsClaim(exts').Ok?
    requires forall e :: e in exts <==> e in exts'
    ensures ExtensionsClaim(exts) == ExtensionsClaim(exts')
  {
    hide ExtensionsClaim, Sorted;
    ClaimCharacterised(exts);
    ClaimCharacterised(exts');
    SameFields(exts, exts');
    SameFields(exts', exts);
    SortedUnique(ExtensionsClaim(exts).value, ExtensionsClaim(exts').value);
  }

  lemma SameFields(exts: seq<Extension>, exts': seq<Extension>)
    requires forall e :: e in exts ==> e in exts'
    ensures forall f :: f in AsFields(exts) ==> f in AsFields(exts')
  {
    forall f | f in AsFields(exts) ensures f in AsFields(exts') {
      var i :| 0 <= i < |exts| && AsFields(exts)[i] == f;
      assert exts[i] in exts;
      var j :| 0 <= j < |exts'| && exts'[j] == exts[i];
      assert AsFields(exts')[j] == f;
    }
  }

  ghost predicate WellFormedPayloads(exts: seq<Extension>) {
    forall i :: 0 <= i < |exts| ==> WellFormedFields(exts[i].payload)
  }

  lemma ClaimWellFormed(exts: seq<Extension>)
    requires ExtensionsClaim(exts).Ok? && WellFormedPayloads(exts)
    ensures WellFormedFields(ExtensionsClaim(exts).value)
  {
    hide ExtensionsClaim, WellFormedFields;
    ClaimCharacterised(exts);
    var ext := ExtensionsClaim(exts).value;
    forall f | f in ext ensures f.value.Obj? && WellFormedFields(f.value.fields) {
      var i :| 0 <= i < |exts| && AsFields(exts)[i] == f;
    }
    SortedWellFormed(ext);
  }

  lemma {:induction false} SortedWellFormed(ext: Ext)
    requires Sorted(ext) && forall f :: f in ext ==> f.value.Obj? && WellFormedFields(f.value.fields)
    ensures WellFormedFields(ext)
  {
    if ext != [] {
      TailElements(ext);
      SortedWellFormed(ext[1..]);
      assert ext[0] in ext && ext[0].value.Obj? && WellFormed(ext[0].value);
      forall i | 0 <= i < |ext[1..]| ensures ext[1..][i].key != ext[0].key {
        assert Before(ext[0].key, ext[i + 1].key);
        BeforeIrreflexive(ext[0].key);
      }
    }
  }

  // ---- minting -----------------------------------------------------------------------------------

  function IssueOperator(p: Platform, kp: KeyPair, name: string, v: Validity, epoch: nat,
                         exts: seq<Extension>, now: int): Result<string>
  {
    var key :- PublicKey(kp);
    if !IsValidPublic(key, PREFIX_OPERATOR) then Err(Unclassified)
    else
      var (expires, notBefore) :- CheckValidity(v, now);
      var ext :- ExtensionsClaim(exts);
      EncodeV1(p, kp, Registered(key, key, name, "", Seconds(now), expires, notBefore),
               Body("operator", epoch, false, "", None, ext))
  }

  function IssueAccount(p: Platform, kp: KeyPair, name: string, accountKey: string, v: Validity,
                        epoch: nat, exts: seq<Extension>, now: int): Result<string>
  {
    var key :- PublicKey(kp);
    if !IsValidPublic(key, PREFIX_OPERATOR) then Err(Unclassified)
    else if !IsValidPublic(accountKey, PREFIX_ACCOUNT) then Err(Unclassified)
    else
      var (expires, notBefore) :- CheckValidity(v, now);
      var ext :- ExtensionsClaim(exts);
      EncodeV1(p, kp, Registered(key, accountKey, name, "", Seconds(now), expires, notBefore),
               Body("account", epoch, false, "", None, ext))
  }

  function IssueUser(p: Platform, kp: KeyPair, name: string, userKey: string, v: Validity,
                     epoch: nat, bearer: bool, exts: seq<Extension>, now: int): Result<string>
  {
    var key :- PublicKey(kp);
    if !IsValidPublic(key, PREFIX_ACCOUNT) then Err(Unclassified)
    else if !IsValidPublic(userKey, PREFIX_USER) then Err(Unclassified)
    else
      var (expires, notBefore) :- CheckValidity(v, now);
      var ext :- ExtensionsClaim(exts);
      EncodeV1(p, kp, Registered(key, userKey, name, "", Seconds(now), expires, notBefore),
               Body("user", epoch, bearer, "", None, ext))
  }

  predicate IsHexSha256(s: string) {
    |s| == 64 && forall i :: 0 <= i < |s| ==> '0' <= s[i] <= '9' || 'a' <= s[i] <= 'f'
  }

  function NibbleValue(c: char): nat
    requires '0' <= c <= '9' || 'a' <= c <= 'f'
  {
    if c <= '9' then c as int - '0' as int else c as int - 'a' as int + 10
  }

  lemma {:induction false} HexReads(s: string) returns (bs: Bytes)
    requires |s| % 2 == 0 && forall i :: 0 <= i < |s| ==> '0' <= s[i] <= '9' || 'a' <= s[i] <= 'f'
    ensures |bs| == |s| / 2 && Hex(bs) == s
    decreases |s|
  {
    if s == "" {
      bs := [];
    } else {
      var rest := HexReads(s[2..]);
      var hi, lo := NibbleValue(s[0]), NibbleValue(s[1]);
      bs := [16 * hi + lo] + rest;
      assert bs[1..] == rest && bs[0] as nat / 16 == hi && bs[0] as nat % 16 == lo;
      assert s == [s[0], s[1]] + s[2..];
    }
  }

  lemma {:induction false} HexLowercase(bs: Bytes)
    ensures forall i :: 0 <= i < |Hex(bs)| ==> '0' <= Hex(bs)[i] <= '9' || 'a' <= Hex(bs)[i] <= 'f'
  {
    if bs != [] { HexLowercase(bs[1..]); }
  }

  lemma DigestIsHex(digest: Digest)
    ensures IsHexSha256(Hex(digest)) && Hex(digest) != ""
  {
    HexLowercase(digest);
  }

  /** The checksums accepted are the printed forms of the 32-byte digests. */
  lemma HexSha256Exactly(s: string)
    ensures IsHexSha256(s) <==> exists digest: Digest :: Hex(digest) == s
  {
    if IsHexSha256(s) {
      var digest: Digest := HexReads(s);
      assert Hex(digest) == s;
    }
    forall digest: Digest | Hex(digest) == s ensures IsHexSha256(s) {
      DigestIsHex(digest);
    }
  }

  /** The chain must be self-consistent and end at the minting key. */
  function CheckEmitterChain(env: Env, chain: (string, string), emitter: string): Result<()> {
    var issuer :- IssuerOf(env, chain.0);
    var account :- VerifyAccount(env, chain.0, issuer);
    var user :- VerifyUser(env, chain.1, account.base.subject);
    if user.base.subject != emitter then Err(Unclassified) else Ok(())
  }

  function IssueMessage(p: Platform, kp: KeyPair, audience: string, checksum: string,
                        chain: Option<(string, string)>, epoch: nat, v: Validity,
                        exts: seq<Extension>, now: int): Result<string>
  {
    var key :- PublicKey(kp);
    if !IsValidPublic(key, PREFIX_USER) then Err(Unclassified)
    else if checksum != "" && !IsHexSha256(checksum) then Err(Unclassified)
    else
      var ext :- ExtensionsClaim(exts);
      var (expires, notBefore) :- CheckValidity(v, now);
      if expires == 0 then Err(Unclassified)
      else
        var _ :- if chain.Some? then CheckEmitterChain(EnvOf(p), chain.value, key) else Ok(());
        EncodeV1(p, kp, Registered(key, key, "", audience, Seconds(now), expires, notBefore),
                 Body("message", epoch, false, checksum, chain, ext))
  }

  // ---- what can be minted --------------------------------------------------------------------------

  /** A lifetime or an expiry but not both; a lifetime is positive. */
  predicate ValidityGiven(v: Validity) {
    !(v.ttl.Some? && v.expiry.Some?) && (v.ttl.Some? ==> v.ttl.value > 0)
  }

  /** The expiry asked for: directly, or as a lifetime from now. */
  function Until(v: Validity, now: int): Option<int> {
    if v.ttl.Some? then Some(now + v.ttl.value) else v.expiry
  }

  lemma HeldRole(p: Platform, kp: KeyPair)
    requires Held(p, kp)
    ensures PublicKey(kp).Ok?
    ensures forall prefix :: IsValidPublic(PublicKey(kp).value, prefix) <==> prefix == kp.prefix
  {
    hide DecodePublic, PublicKey, FromPublicKey;
    HeldKey(p, kp);
  }

  /** A credential is minted exactly when the signer and the subject hold the roles of
      its level, the validity is consistent and the extension names are distinct. */
  lemma IssuesExactly(p: Platform, kp: KeyPair, name: string, subject: string, v: Validity, epoch: nat,
                      bearer: bool, exts: seq<Extension>, now: int)
    requires Held(p, kp)
    ensures IssueOperator(p, kp, name, v, epoch, exts, now).Ok?
       <==> kp.prefix == PREFIX_OPERATOR && ValidityGiven(v) && DistinctNames(exts)
    ensures IssueAccount(p, kp, name, subject, v, epoch, exts, now).Ok?
       <==> kp.prefix == PREFIX_OPERATOR && IsValidPublic(subject, PREFIX_ACCOUNT)
            && ValidityGiven(v) && DistinctNames(exts)
    ensures IssueUser(p, kp, name, subject, v, epoch, bearer, exts, now).Ok?
       <==> kp.prefix == PREFIX_ACCOUNT && IsValidPublic(subject, PREFIX_USER)
            && ValidityGiven(v) && DistinctNames(exts)
  {
    hide IsValidPublic, PublicKey, ExtensionsClaim, DistinctNames, SigningInput, Seconds;
    HeldRole(p, kp);
    ClaimCharacterised(exts);
    assert kp.seed.Some?;
  }

  /** The account token verifies under its own issuer, the user token under the
      account, and the user is the emitter. */
  ghost predicate EmitterChain(env: Env, chain: (string, string), emitter: string) {
    exists issuer :: EmitterChainUnder(env, chain, emitter, issuer)
  }

  ghost predicate EmitterChainUnder(env: Env, chain: (string, string), emitter: string, issuer: string) {
    && VerifyAccount(env, chain.0, issuer).Ok?
    && var account := VerifyAccount(env, chain.0, issuer).value;
       VerifyUser(env, chain.1, account.base.subject).Ok?
       && VerifyUser(env, chain.1, account.base.subject).value.base.subject == emitter
  }

  lemma EmitterChainChecked(env: Env, chain: (string, string), emitter: string)
    ensures CheckEmitterChain(env, chain, emitter).Ok? <==> EmitterChain(env, chain, emitter)
  {
    if CheckEmitterChain(env, chain, emitter).Ok? {
      assert EmitterChainUnder(env, chain, emitter, IssuerOf(env, chain.0).value);
    }
  }

  /** A message is minted exactly by a user key, with a well-shaped checksum if any,
      distinct extension names, an expiry, and an embedded chain only if it ends at
      the minting key. */
  lemma SecondZero(t: int)
    ensures Seconds(t) == 0 <==> -1_000_000 < t < 1_000_000
  {
  }

  lemma IssuesMessageExactly(p: Platform, kp: KeyPair, audience: string, checksum: string,
                             chain: Option<(string, string)>, epoch: nat, v: Validity,
                             exts: seq<Extension>, now: int)
    requires Held(p, kp)
    ensures IssueMessage(p, kp, audience, checksum, chain, epoch, v, exts, now).Ok?
       <==> kp.prefix == PREFIX_USER && (checksum == "" || IsHexSha256(checksum))
            && DistinctNames(exts) && ValidityGiven(v)
            && (v.ttl.Some? || v.expiry.Some?) && !(-1_000_000 < Until(v, now).value < 1_000_000)
            && (chain.Some? ==> EmitterChain(EnvOf(p), chain.value, PublicKey(kp).value))
  {
    hide IsValidPublic, PublicKey, ExtensionsClaim, DistinctNames, SigningInput, Seconds, CheckEmitterChain,
         EmitterChain, IsHexSha256;
    forall t ensures Seconds(t) == 0 <==> -1_000_000 < t < 1_000_000 {
      SecondZero(t);
    }
    HeldRole(p, kp);
    ClaimCharacterised(exts);
    if chain.Some? { EmitterChainChecked(EnvOf(p), chain.value, PublicKey(kp).value); }
    assert kp.seed.Some?;
  }

  // ---- what a verifier reads back -------------------------------------------------------------------

  /** A time the source's datetime type can hold, if one is given. */
  predicate Holdable(t: Option<int>) {
    t.Some? ==> TS_MIN * 1_000_000 <= t.value < (TS_MAX + 1) * 1_000_000
  }

  /** Times the source's datetime type can hold, and an epoch of 64 bits. */
  ghost predicate Mintable(v: Validity, epoch: nat, exts: seq<Extension>, now: int) {
    && epoch <= UINT64_MAX && WellFormedPayloads(exts)
    && Holdable(Some(now)) && Holdable(Until(v, now)) && Holdable(v.notBefore)
  }

  /** A time given to the minter, as a verifier reads it: in whole seconds, cut toward
      zero, and no time at all when none was given or it falls in second zero. */
  ghost predicate ReadAs(given: Option<int>, read: Option<int>) {
    match given
    case None => read.None?
    case Some(t) =>
      if -1_000_000 < t < 1_000_000 then read.None?
      else read.Some? && read.value % 1_000_000 == 0
           && (if t > 0 then read.value <= t < read.value + 1_000_000
               else read.value - 1_000_000 < t <= read.value)
  }

  /** The mint time, the expiry and the activation time a verifier reads. */
  ghost predicate TimesRead(c: Claims, v: Validity, now: int) {
    ReadAs(Some(now), c.issuedAt) && ReadAs(Until(v, now), c.expiresAt) && ReadAs(v.notBefore, c.notBefore)
  }

  lemma SecondsRead(t: int)
    ensures ReadAs(Some(t), Instant(Seconds(t)))
    ensures Holdable(Some(t)) ==> TS_MIN <= Seconds(t) <= TS_MAX
  {
    if t >= 0 {
      assert t == t / 1_000_000 * 1_000_000 + t % 1_000_000;
    } else {
      assert -t == (-t) / 1_000_000 * 1_000_000 + (-t) % 1_000_000;
    }
  }

  /** A given time is read in one way only. */
  lemma ReadOnce(given: Option<int>, a: Option<int>, b: Option<int>)
    requires ReadAs(given, a) && ReadAs(given, b)
    ensures a == b
  {
  }

  /** What the validity comes to on the wire. */
  lemma ValidityRead(v: Validity, now: int)
    requires CheckValidity(v, now).Ok?
    ensures var (expires, notBefore) := CheckValidity(v, now).value;
            && ReadAs(Until(v, now), Instant(expires)) && ReadAs(v.notBefore, Instant(notBefore))
            && (Holdable(Until(v, now)) ==> TS_MIN <= expires <= TS_MAX)
            && (Holdable(v.notBefore) ==> TS_MIN <= notBefore <= TS_MAX)
  {
    hide Seconds, ReadAs;
    if Until(v, now).Some? { SecondsRead(Until(v, now).value); }
    if v.notBefore.Some? { SecondsRead(v.notBefore.value); }
    assert ReadAs(None, None) by { NoTimeRead(); }
  }

  lemma NoTimeRead()
    ensures ReadAs(None, None)
  {
  }

  /** The id is the base32 of the hash of the claims without it, as the token itself
      carries them. */
  ghost predicate ContentDerived(p: Platform, tok: string, id: string) {
    && |SplitDots(tok)| == 3 && LoadsObject(SplitDots(tok)[1]).Ok?
    && var claims := LoadsObject(SplitDots(tok)[1]).value;
       && WellFormedFields(claims) && claims != [] && claims[0] == Field("jti", Str(id))
       && id == Encode(Base32, p.sha256(GoJson(Obj(claims[1..]))))
  }

  lemma MintedDecodes(p: Platform, kp: KeyPair, r: Registered, b: Body, v: Validity, exts: seq<Extension>, now: int)
    requires Correct(p) && Held(p, kp) && Ok(r.issuer) == PublicKey(kp)
    requires Mintable(v, b.epoch, exts, now) && CheckValidity(v, now) == Ok((r.expires, r.notBefore))
    requires r.issuedAt == Seconds(now) && ExtensionsClaim(exts) == Ok(b.ext)
    ensures EncodeV1(p, kp, r, b).Ok?
    ensures EnvOf(p).decode(EncodeV1(p, kp, r, b).value) == Ok(DecodedFrom(p, r, b))
    ensures ContentDerived(p, EncodeV1(p, kp, r, b).value, DecodedFrom(p, r, b).id)
    ensures TimesRead(ClaimsOf(DecodedFrom(p, r, b)), v, now)
  {
    hide EncodeV1, DecodeToken, ExtensionsClaim, PublicKey, SplitDots, Seconds, CheckValidity, ReadAs, ContentDerived;
    ClaimWellFormed(exts);
    SecondsRead(now);
    ValidityRead(v, now);
    EncodedDecodes(p, kp, r, b);
    IdFromContent(p, EncodeV1(p, kp, r, b).value, r, b);
  }

  lemma IdFromContent(p: Platform, tok: string, r: Registered, b: Body)
    requires |SplitDots(tok)| == 3 && LoadsObject(SplitDots(tok)[1]) == Ok(Present(PayloadSlots(p, r, b)))
    requires WellFormedFields(b.ext)
    ensures ContentDerived(p, tok, DecodedFrom(p, r, b).id)
  {
    hide SplitDots, LoadsObject, GoJson, Encode, Present, ClaimSlots, WellFormedFields;
    var slots := PayloadSlots(p, r, b);
    PayloadWellFormed(p, r, b);
    PresentCons(slots);
    assert slots[1..] == ClaimSlots(r, b);
  }

  lemma Kinds()
    ensures KindOf("operator") == Operator && KindOf("account") == Account
    ensures KindOf("user") == User && KindOf("message") == Message
  {
  }

  /** A minted operator token verifies under its own key, to what it was minted with. */
  lemma OperatorRoundTrip(p: Platform, kp: KeyPair, name: string, v: Validity, epoch: nat,
                          exts: seq<Extension>, now: int)
    requires Correct(p) && Held(p, kp) && Mintable(v, epoch, exts, now)
    requires IssueOperator(p, kp, name, v, epoch, exts, now).Ok?
    ensures var tok := IssueOperator(p, kp, name, v, epoch, exts, now).value;
            var key := PublicKey(kp).value;
            var read := VerifyOperator(EnvOf(p), tok, key);
            && read.Ok? && ContentDerived(p, tok, read.value.base.id)
            && read.value.base.issuer == read.value.base.subject == key && TimesRead(read.value.base, v, now)
            && read.value.name == (if name == "" then key else name)
            && read.value.epoch == epoch && Ok(read.value.ext) == ExtensionsClaim(exts)
  {
    Kinds();
    hide EncodeV1, DecodeToken, ExtensionsClaim, PublicKey, KindOf, IsValidPublic, CheckValidity, TokenId, Seconds,
         ContentDerived, TimesRead, ClaimsOf;
    var key := PublicKey(kp).value;
    var (expires, notBefore) := CheckValidity(v, now).value;
    var r := Registered(key, key, name, "", Seconds(now), expires, notBefore);
    var b := Body("operator", epoch, false, "", None, ExtensionsClaim(exts).value);
    MintedDecodes(p, kp, r, b, v, exts, now);
    ClaimsNamed(DecodedFrom(p, r, b));
  }

  lemma ClaimsNamed(d: Decoded)
    ensures ClaimsOf(d).id == d.id && ClaimsOf(d).issuer == d.issuer && ClaimsOf(d).subject == d.subject
  {
  }

  /** So does an account token, under the operator's key. */
  lemma AccountRoundTrip(p: Platform, kp: KeyPair, name: string, accountKey: string, v: Validity,
                         epoch: nat, exts: seq<Extension>, now: int)
    requires Correct(p) && Held(p, kp) && Mintable(v, epoch, exts, now)
    requires IssueAccount(p, kp, name, accountKey, v, epoch, exts, now).Ok?
    ensures var tok := IssueAccount(p, kp, name, accountKey, v, epoch, exts, now).value;
            var key := PublicKey(kp).value;
            var read := VerifyAccount(EnvOf(p), tok, key);
            && read.Ok? && ContentDerived(p, tok, read.value.base.id)
            && read.value.base.issuer == key && read.value.base.subject == accountKey
            && TimesRead(read.value.base, v, now)
            && read.value.name == (if name == "" then accountKey else name)
            && read.value.epoch == epoch && Ok(read.value.ext) == ExtensionsClaim(exts)
  {
    Kinds();
    hide EncodeV1, DecodeToken, ExtensionsClaim, PublicKey, KindOf, IsValidPublic, CheckValidity, TokenId, Seconds,
         ContentDerived, TimesRead, ClaimsOf;
    var key := PublicKey(kp).value;
    var (expires, notBefore) := CheckValidity(v, now).value;
    var r := Registered(key, accountKey, name, "", Seconds(now), expires, notBefore);
    var b := Body("account", epoch, false, "", None, ExtensionsClaim(exts).value);
    MintedDecodes(p, kp, r, b, v, exts, now);
    ClaimsNamed(DecodedFrom(p, r, b));
  }

  /** So does a user token, under the account's key. */
  lemma UserRoundTrip(p: Platform, kp: KeyPair, name: string, userKey: string, v: Validity,
                      epoch: nat, bearer: bool, exts: seq<Extension>, now: int)
    requires Correct(p) && Held(p, kp) && Mintable(v, epoch, exts, now)
    requires IssueUser(p, kp, name, userKey, v, epoch, bearer, exts, now).Ok?
    ensures var tok := IssueUser(p, kp, name, userKey, v, epoch, bearer, exts, now).value;
            var key := PublicKey(kp).value;
            var read := VerifyUser(EnvOf(p), tok, key);
            && read.Ok? && ContentDerived(p, tok, read.value.base.id)
            && read.value.base.issuer == key && read.value.base.subject == userKey
            && TimesRead(read.value.base, v, now)
            && read.value.name == (if name == "" then userKey else name)
            && read.value.epoch == epoch && read.value.bearer == bearer && Ok(read.value.ext) == ExtensionsClaim(exts)
  {
    Kinds();
    hide EncodeV1, DecodeToken, ExtensionsClaim, PublicKey, KindOf, IsValidPublic, CheckValidity, TokenId, Seconds,
         ContentDerived, TimesRead, ClaimsOf;
    var key := PublicKey(kp).value;
    var (expires, notBefore) := CheckValidity(v, now).value;
    var r := Registered(key, userKey, name, "", Seconds(now), expires, notBefore);
    var b := Body("user", epoch, bearer, "", None, ExtensionsClaim(exts).value);
    MintedDecodes(p, kp, r, b, v, exts, now);
    ClaimsNamed(DecodedFrom(p, r, b));
  }

  /** A minted message decodes to its own bindings, chain included. */
  lemma MessageDecodes(p: Platform, kp: KeyPair, audience: string, checksum: string,
                       chain: Option<(string, string)>, epoch: nat, v: Validity,
                       exts: seq<Extension>, now: int) returns (d: Decoded)
    requires Correct(p) && Held(p, kp) && Mintable(v, epoch, exts, now)
    requires IssueMessage(p, kp, audience, checksum, chain, epoch, v, exts, now).Ok?
    ensures var tok := IssueMessage(p, kp, audience, checksum, chain, epoch, v, exts, now).value;
            EnvOf(p).decode(tok) == Ok(d) && ContentDerived(p, tok, d.id)
    ensures d.kind == Kind.Message && d.issuer == d.subject == PublicKey(kp).value
    ensures d.audience == audience && d.checksum == checksum && d.epoch == epoch
    ensures d.chain.Some? == chain.Some?
    ensures chain.Some? ==>
              && d.chain.value.account == (if chain.value.0 == "" then None else Some(chain.value.0))
              && d.chain.value.user == (if chain.value.1 == "" then None else Some(chain.value.1))
    ensures Ok(d.ext) == ExtensionsClaim(exts)
    ensures TimesRead(ClaimsOf(d), v, now)
  {
    Kinds();
    hide EncodeV1, DecodeToken, ExtensionsClaim, PublicKey, SplitDots, KindOf, IsValidPublic, CheckValidity, TokenId,
         CheckEmitterChain, Seconds, ContentDerived, TimesRead;
    var key := PublicKey(kp).value;
    var (expires, notBefore) := CheckValidity(v, now).value;
    var r := Registered(key, key, "", audience, Seconds(now), expires, notBefore);
    var b := Body("message", epoch, false, checksum, chain, ExtensionsClaim(exts).value);
    MintedDecodes(p, kp, r, b, v, exts, now);
    d := DecodedFrom(p, r, b);
  }
}
