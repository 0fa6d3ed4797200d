/** What an accepted attestation proves, and which attestations are accepted. */
module AttestationProofs {
  import opened Common
  import opened Framing
  import opened Attestation
  import opened HeaderProofs

  // -------------------------------------------------------------- projection

  lemma {:induction false} FieldWithin(fields: seq<Bytes>, f: Bytes)
    requires f in fields
    ensures |f| <= FramedLength(fields)
  {
    if f != fields[0] { FieldWithin(fields[1..], f); }
  }

  lemma I64Injective(a: I64, b: I64)
    requires I64Bytes(a) == I64Bytes(b)
    ensures a == b
  {
    EightBytes();
    BigEndianInjective(if a < 0 then a + U64_LIMIT else a, if b < 0 then b + U64_LIMIT else b, 8);
  }

  /** No two statements are signed as the same bytes. */
  lemma ProjectionInjective(a: Statement, b: Statement)
    requires Projection(a).Some? && Projection(a) == Projection(b)
    ensures a == b
  {
    hide Frames, FramedLength, I64Bytes, BigEndian;
    var n, p := |DOMAIN_SEPARATOR|, Projection(a).value;
    assert p[n..] == Frames(Fields(a)) && p[n..] == Frames(Fields(b));
    forall f | f in Fields(a) { FieldWithin(Fields(a), f); }
    forall f | f in Fields(b) { FieldWithin(Fields(b), f); }
    FramesInjective(Fields(a), Fields(b));
    SameFields(a, b);
  }

  lemma SameFields(a: Statement, b: Statement)
    requires Fields(a) == Fields(b)
    ensures a == b
  {
    hide I64Bytes;
    var x, y := Fields(a), Fields(b);
    assert x[0] == y[0] && x[1] == y[1] && x[2] == y[2] && x[3] == y[3] && x[4] == y[4] && x[5] == y[5] && x[6] == y[6];
    assert x[7] == y[7] && x[8] == y[8];
    I64Injective(a.issuedAt, b.issuedAt);
    I64Injective(a.expiresAt, b.expiresAt);
  }

  /** A field behind its length. */
  function Framed(field: Bytes): Bytes {
    BigEndian(|field|, 8) + field
  }

  /** The signed bytes: the domain, then nine framed fields in this order, the times as their eight bytes. */
  lemma ProjectionLayout(st: Statement)
    requires Projection(st).Some?
    ensures Projection(st).value ==
            DOMAIN_SEPARATOR + (
              Framed(st.topic) + Framed(st.tenant) + Framed(st.key) + Framed(st.payloadDigest)
              + Framed(st.producer) + Framed(st.keyId) + Framed(st.eventId)
              + Framed(I64Bytes(st.issuedAt)) + Framed(I64Bytes(st.expiresAt)))
  {
    hide BigEndian, I64Bytes, FramedLength, Frames, Framed, DOMAIN_SEPARATOR;
    var f := Fields(st);
    assert Projection(st).value == DOMAIN_SEPARATOR + Frames(f);
    assert f[..9] == f;
    assert Frames(f[..1]) == Framed(f[0]) by {
      NoFrames();
      assert f[..0] == [];
      FrameAt(f, 0);
    }
    FrameAt(f, 1);
    FrameAt(f, 2);
    FrameAt(f, 3);
    FrameAt(f, 4);
    FrameAt(f, 5);
    FrameAt(f, 6);
    FrameAt(f, 7);
    FrameAt(f, 8);
  }

  lemma NoFrames()
    ensures Frames([]) == []
  {
  }

  lemma FrameAt(fields: seq<Bytes>, n: nat)
    requires n < |fields|
    ensures Frames(fields[..n + 1]) == Frames(fields[..n]) + Framed(fields[n])
  {
    assert fields[..n + 1] == fields[..n] + [fields[n]];
    FramesAppend(fields[..n], fields[n]);
  }

  // ------------------------------------------------------------ authenticity

  /** The statements a signer signed in the attestations it was asked for. */
  ghost predicate Signed(scheme: Scheme, signer: Signer, asked: set<Request>, st: Statement) {
    exists q <- asked :: Attest(scheme, signer, q).Some? && StatementOf(scheme, signer, q) == st
  }

  /** Verified under the signer's public key, this signature is one the signer made for an attestation. */
  ghost predicate NotForged(scheme: Scheme, signer: Signer, asked: set<Request>, message: Bytes, signature: Bytes) {
    scheme.verify(scheme.publicKey(signer.secret), message, signature) ==>
      exists st: Statement :: Projection(st) == Some(message) && Signed(scheme, signer, asked, st)
  }

  /** The headers of the delivery parse as `a`. */
  predicate Presents(scheme: Scheme, d: Delivery, a: Attested) {
    var m := Collect(d.headers);
    m.Some? && ParseHeaders(scheme.clean, m.value) == Some(a)
  }

  /** The only cryptographic assumption: the signature this delivery presents is no forgery of its own projection. */
  ghost predicate NoForgery(scheme: Scheme, signer: Signer, asked: set<Request>, d: Delivery) {
    forall a: Attested | Presents(scheme, d, a) ::
      var message := Projection(ReceivedStatement(scheme, d, a));
      message.Some? ==> NotForged(scheme, signer, asked, message.value, a.signature)
  }

  /** The signer was asked to attest, and attested, what the delivery carries and `id` says. */
  ghost predicate Attests(scheme: Scheme, signer: Signer, asked: set<Request>, d: Delivery, id: Identity) {
    && id.producer == signer.producer && id.keyId == signer.keyId
    && exists q <- asked ::
         && Attest(scheme, signer, q).Some?
         && q.record.topic == d.topic && q.record.tenant == id.tenant && q.record.key == d.key
         && scheme.digest(q.record.payload) == scheme.digest(d.payload)
         && q.eventId == id.eventId && q.issuedAt == id.issuedAt && q.expiresAt == id.expiresAt
  }

  /**
   * If `verify` accepts a delivery under a key of this signer, then the signer attested this topic, tenant, key, payload
   * digest, event and time range, and the returned identity is the signer's, exactly unless the presented signature is
   * a forgery. An adversary may have chosen the delivery and its headers.
   */
  lemma VerifiedIsAuthentic(scheme: Scheme, policy: Policy, keys: Keys, d: Delivery, now: I64, id: Identity, signer: Signer,
                            asked: set<Request>)
    requires Verify(scheme, policy, keys, d, now) == Some(id)
    requires id.producer in keys && id.keyId in keys[id.producer]
    requires keys[id.producer][id.keyId] == scheme.publicKey(signer.secret)
    ensures Attests(scheme, signer, asked, d, id) <==> NoForgery(scheme, signer, asked, d)
  {
    hide Projection, Attest, Collect, ParseHeaders, ClockAllows;
    var a := ParseHeaders(scheme.clean, Collect(d.headers).value).value;
    assert Presents(scheme, d, a);
    var received := ReceivedStatement(scheme, d, a);
    var message := Projection(received).value;
    assert scheme.verify(scheme.publicKey(signer.secret), message, a.signature);
    if NoForgery(scheme, signer, asked, d) {
      assert NotForged(scheme, signer, asked, message, a.signature);
      var st :| Projection(st) == Some(message) && Signed(scheme, signer, asked, st);
      ProjectionInjective(received, st);
      var q :| q in asked && Attest(scheme, signer, q).Some? && StatementOf(scheme, signer, q) == st;
    }
    if Attests(scheme, signer, asked, d, id) {
      var q :| q in asked && Attest(scheme, signer, q).Some?
               && q.record.topic == d.topic && q.record.tenant == id.tenant && q.record.key == d.key
               && scheme.digest(q.record.payload) == scheme.digest(d.payload)
               && q.eventId == id.eventId && q.issuedAt == id.issuedAt && q.expiresAt == id.expiresAt;
      assert StatementOf(scheme, signer, q) == received;
      assert Signed(scheme, signer, asked, received);
    }
  }

  /** An accepted identity is current, within policy, and its key was installed. */
  lemma VerifiedIsCurrent(scheme: Scheme, policy: Policy, keys: Keys, d: Delivery, now: I64, id: Identity)
    requires Verify(scheme, policy, keys, d, now) == Some(id)
    ensures id.producer in keys && id.keyId in keys[id.producer]
    ensures now < id.expiresAt <= id.issuedAt + policy.maxValidity && id.issuedAt <= now + policy.maxFutureSkew
  {
    hide Projection, Collect, ParseHeaders;
  }

  // -------------------------------------------------------------- round trip

  /** Ed25519 and SHA-256 do their part. */
  ghost predicate Works(scheme: Scheme) {
    && (forall secret: Bytes, message: Bytes ::
          && |scheme.sign(secret, message)| == ED25519_SIGNATURE_BYTES
          && scheme.verify(scheme.publicKey(secret), message, scheme.sign(secret, message)))
    && (forall payload: Bytes :: |scheme.digest(payload)| == 32)
  }

  lemma SmallProjection(scheme: Scheme, signer: Signer, q: Request)
    requires Works(scheme) && signer.Valid() && WellMade(scheme.clean, q.record) && Attestable(q)
    ensures Projection(StatementOf(scheme, signer, q)).Some?
  {
    hide BigEndian;
    var fs := Fields(StatementOf(scheme, signer, q));
    assert FramedLength(fs[9..]) == 0;
    assert FramedLength(fs[8..]) == 8 + |fs[8]|;
    assert FramedLength(fs[7..]) == 8 + |fs[7]| + FramedLength(fs[8..]);
    assert FramedLength(fs[6..]) == 8 + |fs[6]| + FramedLength(fs[7..]);
    assert FramedLength(fs[5..]) == 8 + |fs[5]| + FramedLength(fs[6..]);
    assert FramedLength(fs[4..]) == 8 + |fs[4]| + FramedLength(fs[5..]);
    assert FramedLength(fs[3..]) == 8 + |fs[3]| + FramedLength(fs[4..]);
    assert FramedLength(fs[2..]) == 8 + |fs[2]| + FramedLength(fs[3..]);
    assert FramedLength(fs[1..]) == 8 + |fs[1]| + FramedLength(fs[2..]);
    assert FramedLength(fs) == 8 + |fs[0]| + FramedLength(fs[1..]);
  }

  /** Header contents as the parser accepts them. */
  predicate ValidAttested(clean: Bytes -> bool, a: Attested) {
    && ValidIdentifier(a.producer, MAX_PRODUCER_SERVICE_BYTES) && ValidTenant(clean, a.tenant)
    && ValidIdentifier(a.keyId, MAX_KEY_ID_BYTES) && ValidIdentifier(a.eventId, MAX_EVENT_ID_BYTES)
    && a.issuedAt >= 0 && a.expiresAt >= 0 && |a.signature| == ED25519_SIGNATURE_BYTES
  }

  lemma AttestedByIsValid(clean: Bytes -> bool, signer: Signer, q: Request, signature: Bytes)
    requires signer.Valid() && Attestable(q) && ValidTenant(clean, q.record.tenant) && |signature| == ED25519_SIGNATURE_BYTES
    ensures ValidAttested(clean, AttestedBy(signer, q, signature))
  {
  }

  lemma ShortValues(clean: Bytes -> bool, a: Attested, s: Slot)
    requires ValidAttested(clean, a)
    ensures 0 < |SlotValue(a, s)| <= MAX_DURABLE_HEADER_VALUE_BYTES
  {
    hide DecimalText, Hex;
    NineteenDigits();
    DecimalShort(a.issuedAt, 19);
    DecimalShort(a.expiresAt, 19);
  }

  lemma AddedHeadersValid(clean: Bytes -> bool, a: Attested)
    requires ValidAttested(clean, a)
    ensures forall h <- AttestationHeaders(a) :: ValidHeader(h)
  {
    assert a.issuedAt >= 0 && a.expiresAt >= 0;
    hide Name, SlotValue, ValidAttested;
    forall h | h in AttestationHeaders(a)
      ensures ValidHeader(h)
    {
      var s :| h == Header(Name(s), SlotValue(a, s));
      NamesAreHeaderNames(s);
      ShortValues(clean, a, s);
    }
  }

  lemma SlotsDistinct(i: nat, j: nat)
    requires i < j < 8
    ensures Name(SLOTS[i]) != Name(SLOTS[j])
  {
    NameLengths(SLOTS[i], SLOTS[j]);
  }

  lemma NamesStayDistinct(before: seq<Header>, a: Attested)
    requires a.issuedAt >= 0 && a.expiresAt >= 0
    requires (forall h <- before :: !IsReserved(h.name)) && DistinctNames(before)
    ensures DistinctNames(before + AttestationHeaders(a))
  {
    hide Name, SlotValue;
    var added := AttestationHeaders(a);
    var all := before + added;
    forall i, j | 0 <= i < j < |all|
      ensures all[i].name != all[j].name
    {
      if j >= |before| {
        var k := j - |before|;
        assert all[j].name == Name(SLOTS[k]) && IsReserved(all[j].name);
        if i >= |before| { SlotsDistinct(i - |before|, k); } else { assert all[i] in before; }
      }
    }
  }

  /** Attesting fails only for a bad event identifier, bad times, a reserved header, or too many headers. */
  lemma AttestSucceedsIff(scheme: Scheme, signer: Signer, q: Request)
    requires Works(scheme) && signer.Valid() && WellMade(scheme.clean, q.record)
    ensures Attest(scheme, signer, q).Some? <==> Attestable(q) && |q.record.headers| + 8 <= MAX_DURABLE_HEADERS
  {
    if Attestable(q) {
      SmallProjection(scheme, signer, q);
      var message := Projection(StatementOf(scheme, signer, q)).value;
      var signature := scheme.sign(signer.secret, message);
      assert |signature| == ED25519_SIGNATURE_BYTES;
      AttestedByIsValid(scheme.clean, signer, q, signature);
      AddedHeadersValid(scheme.clean, AttestedBy(signer, q, signature));
      NamesStayDistinct(q.record.headers, AttestedBy(signer, q, signature));
      hide Works, Projection, AttestationHeaders, DistinctNames, ValidHeader, ValidTopic, ValidIdentifier;
    }
  }

  /** The header iterator of a record. */
  function Raw(headers: seq<Header>): seq<RawHeader> {
    seq(|headers|, i requires 0 <= i < |headers| => RawHeader(headers[i].name, Some(headers[i].value)))
  }

  lemma {:induction false} OccursOnce<T>(s: seq<T>)
    requires forall i, j :: 0 <= i < j < |s| ==> s[i] != s[j]
    ensures forall x <- s :: multiset(s)[x] == 1
  {
    if s != [] {
      var init, last := s[..|s| - 1], s[|s| - 1];
      OccursOnce(init);
      assert s == init + [last] && multiset(s) == multiset(init) + multiset{last};
      assert last !in init;
      forall x | x in s
        ensures multiset(s)[x] == 1
      {
        if x != last { assert x in init; }
      }
    }
  }

  /** The eight values by slot. */
  function SlotMap(a: Attested): map<Slot, Bytes>
    requires a.issuedAt >= 0 && a.expiresAt >= 0
  {
    map s: Slot | s in SLOTS :: SlotValue(a, s)
  }

  /** The reserved headers of an attested record are the eight that were pushed. */
  lemma AttestedGathered(before: seq<Header>, a: Attested)
    requires a.issuedAt >= 0 && a.expiresAt >= 0 && DistinctNames(before)
    requires forall h <- before :: ValidHeader(h) && !IsReserved(h.name)
    ensures Gathered(multiset(Raw(before + AttestationHeaders(a))), SlotMap(a))
  {
    hide Name, SlotValue, FindReserved;
    var added, m := AttestationHeaders(a), SlotMap(a);
    var raw := Raw(before + added);
    NamesStayDistinct(before, a);
    OccursOnce(raw);
    forall h | h in raw && FindReserved(h.name).Some?
      ensures var s := FindReserved(h.name).value; s in m && h == RawHeader(Name(s), Some(m[s])) && multiset(raw)[h] == 1
    {
      var i :| 0 <= i < |raw| && h == raw[i];
      if i < |before| {
        assert before[i] in before && ValidHeader(before[i]);
        LowerCaseName(h.name);
      } else {
        ReservedFound(SLOTS[i - |before|]);
      }
    }
    forall s | s in m
      ensures RawHeader(Name(s), Some(m[s])) in raw
    {
      var k := SlotIndex(s);
      assert raw[|before| + k] == RawHeader(Name(s), Some(m[s]));
    }
  }

  lemma SlotMapped(a: Attested)
    requires a.issuedAt >= 0 && a.expiresAt >= 0
    ensures forall s: Slot :: s in SlotMap(a) && SlotMap(a)[s] == SlotValue(a, s)
  {
    hide SlotValue;
    forall s: Slot
      ensures s in SlotMap(a)
    {
      var k := SlotIndex(s);
    }
  }

  /** Parsing the reserved headers is the inverse of writing them: every accepted value is spelled as the signer spells it. */
  lemma HeadersIff(clean: Bytes -> bool, m: map<Slot, Bytes>, a: Attested)
    ensures ParseHeaders(clean, m) == Some(a) <==> ValidAttested(clean, a) && m == SlotMap(a)
  {
    hide DecimalText, ParseTimestamp, Hex, Unhex, ValidIdentifier, ValidTenant, SlotMap;
    if ValidAttested(clean, a) && m == SlotMap(a) {
      TimestampCanonical(DecimalText(a.issuedAt), a.issuedAt);
      TimestampCanonical(DecimalText(a.expiresAt), a.expiresAt);
      HexRoundTrip(a.signature);
      SlotMapped(a);
    }
    if ParseHeaders(clean, m) == Some(a) {
      TimestampCanonical(m[IssuedAt], a.issuedAt);
      TimestampCanonical(m[ExpiresAt], a.expiresAt);
      UnhexRoundTrip(m[Signature]);
      SlotMapped(a);
      assert forall s: Slot :: m[s] == SlotValue(a, s);
    }
  }

  /** Not expired, not the wrong way round, not valid for too long, and not from too far in the future. */
  predicate InTime(policy: Policy, issuedAt: int, expiresAt: int, now: int) {
    && now < expiresAt && issuedAt < expiresAt
    && expiresAt - issuedAt <= policy.maxValidity && issuedAt - now <= policy.maxFutureSkew
  }

  /** Saturation changes nothing for 64-bit times. */
  lemma ClockIff(policy: Policy, issuedAt: I64, expiresAt: I64, now: I64)
    ensures ClockAllows(policy, issuedAt, expiresAt, now) <==> InTime(policy, issuedAt, expiresAt, now)
  {
  }

  /** The contents are signed under an installed key, for this delivery, and in time. */
  ghost predicate Authentic(scheme: Scheme, policy: Policy, keys: Keys, d: Delivery, a: Attested, now: I64) {
    && a.producer in keys && a.keyId in keys[a.producer]
    && Projection(ReceivedStatement(scheme, d, a)).Some?
    && scheme.verify(keys[a.producer][a.keyId], Projection(ReceivedStatement(scheme, d, a)).value, a.signature)
    && InTime(policy, a.issuedAt, a.expiresAt, now)
  }

  /**
   `verify` accepts exactly the canonical deliveries: at most 32 headers, of which the reserved ones are the eight a
   signer would have pushed for some contents, in any order and each once, and those contents are signed and in time.
   */
  lemma AcceptedIffCanonical(scheme: Scheme, policy: Policy, keys: Keys, d: Delivery, now: I64, id: Identity)
    ensures Verify(scheme, policy, keys, d, now) == Some(id) <==>
            && ValidTopic(d.topic) && 1 <= |d.key| <= 4096 && 1 <= |d.payload| <= 16_777_216 && now >= 0
            && |d.headers| <= 32
            && exists a: Attested ::
                 && ValidAttested(scheme.clean, a) && Gathered(multiset(d.headers), SlotMap(a))
                 && Authentic(scheme, policy, keys, d, a, now)
                 && id == Identity(a.producer, a.keyId, a.eventId, a.tenant, a.issuedAt, a.expiresAt)
  {
    hide Collect, ParseHeaders, Gathered, SlotMap, ValidIdentifier, ValidTenant, ValidTopic, Projection, ClockAllows, InTime;
    if Verify(scheme, policy, keys, d, now) == Some(id) {
      var m := Collect(d.headers).value;
      var a := ParseHeaders(scheme.clean, m).value;
      CollectMeaning(d.headers, m);
      HeadersIff(scheme.clean, m, a);
      ClockIff(policy, a.issuedAt, a.expiresAt, now);
    }
    forall a: Attested | ValidTransport(d, now) && |d.headers| <= MAX_DURABLE_HEADERS && ValidAttested(scheme.clean, a)
        && Gathered(multiset(d.headers), SlotMap(a)) && Authentic(scheme, policy, keys, d, a, now)
        && id == Identity(a.producer, a.keyId, a.eventId, a.tenant, a.issuedAt, a.expiresAt)
      ensures Verify(scheme, policy, keys, d, now) == Some(id)
    {
      CollectMeaning(d.headers, SlotMap(a));
      HeadersIff(scheme.clean, SlotMap(a), a);
      ClockIff(policy, a.issuedAt, a.expiresAt, now);
    }
  }

  /** A reserved name with some of its letters in upper case. */
  predicate Lookalike(name: string, s: Slot) {
    && name != Name(s) && |name| == |Name(s)|
    && forall i :: 0 <= i < |name| ==>
         name[i] == Name(s)[i] || ('A' <= name[i] <= 'Z' && name[i] as int + 32 == Name(s)[i] as int)
  }

  lemma LookalikesResemble(name: string, s: Slot)
    requires Lookalike(name, s)
    ensures EqualIgnoringCase(name, Name(s))
  {
    NamesAreHeaderNames(s);
    var reserved := Name(s);
    hide Name;
    forall i | 0 <= i < |name|
      ensures Lower(name[i]) == Lower(reserved[i])
    {
      assert reserved[i] in reserved;
    }
  }

  /** A delivery with such a header is rejected, whatever else it carries. */
  lemma LookalikesAreRejected(scheme: Scheme, policy: Policy, keys: Keys, d: Delivery, now: I64, h: RawHeader, s: Slot)
    requires h in d.headers && Lookalike(h.name, s)
    ensures Verify(scheme, policy, keys, d, now) == None
  {
    LookalikesResemble(h.name, s);
    FindReservedMeaning(h.name, s);
    hide Name, FindReserved, EqualIgnoringCase, Authenticate, ParseHeaders;
    assert h in multiset(d.headers);
    if Collect(d.headers).Some? { CollectMeaning(d.headers, Collect(d.headers).value); }
  }

  lemma AttestParts(scheme: Scheme, signer: Signer, q: Request) returns (message: Bytes, signature: Bytes)
    requires Works(scheme) && Attest(scheme, signer, q).Some?
    ensures Attestable(q) && Projection(StatementOf(scheme, signer, q)) == Some(message)
    ensures |signature| == ED25519_SIGNATURE_BYTES && scheme.verify(scheme.publicKey(signer.secret), message, signature)
    ensures var sent := q.record.headers + AttestationHeaders(AttestedBy(signer, q, signature));
            Attest(scheme, signer, q).value.headers == sent && |sent| <= MAX_DURABLE_HEADERS
  {
    message := Projection(StatementOf(scheme, signer, q)).value;
    signature := scheme.sign(signer.secret, message);
    hide Projection, AttestationHeaders, Attestable, ValidHeader, DistinctNames, ValidTopic, ValidTenant;
  }

  lemma AttestedCollected(before: seq<Header>, a: Attested, headers: seq<RawHeader>)
    requires a.issuedAt >= 0 && a.expiresAt >= 0 && DistinctNames(before)
    requires forall h <- before :: ValidHeader(h) && !IsReserved(h.name)
    requires var sent := before + AttestationHeaders(a);
             |sent| <= MAX_DURABLE_HEADERS && multiset(headers) == multiset(Raw(sent))
    ensures Collect(headers) == Some(SlotMap(a))
  {
    hide Collect, Gathered, SlotMap, Raw, AttestationHeaders, ValidHeader, IsReserved, DistinctNames;
    var sent := before + AttestationHeaders(a);
    AttestedGathered(before, a);
    assert |Raw(sent)| == |multiset(Raw(sent))| == |multiset(headers)| == |headers|;
    RawLength(sent);
    CollectMeaning(headers, SlotMap(a));
  }

  /**
   * Every attested record is accepted with the identity it was attested for, in whatever order its headers arrive,
   * exactly when the clock and the validity policy allow it.
   */
  lemma AttestedIsVerified(scheme: Scheme, policy: Policy, keys: Keys, signer: Signer, q: Request, headers: seq<RawHeader>,
                           now: I64)
    requires Works(scheme) && signer.Valid() && WellMade(scheme.clean, q.record) && Attest(scheme, signer, q).Some?
    requires signer.producer in keys && signer.keyId in keys[signer.producer]
    requires keys[signer.producer][signer.keyId] == scheme.publicKey(signer.secret)
    requires multiset(headers) == multiset(Raw(Attest(scheme, signer, q).value.headers))
    ensures var r := q.record;
            Verify(scheme, policy, keys, Delivery(r.topic, r.key, r.payload, headers), now) ==
            if && now >= 0 && now < q.expiresAt && q.issuedAt < q.expiresAt
               && q.expiresAt - q.issuedAt <= policy.maxValidity && q.issuedAt - now <= policy.maxFutureSkew
            then Some(Identity(signer.producer, signer.keyId, q.eventId, r.tenant, q.issuedAt, q.expiresAt))
            else None
  {
    hide Works, Projection, AttestationHeaders, Collect, ParseHeaders, SlotMap, Raw, ValidTopic, ValidIdentifier, ClockAllows,
      DistinctNames, ValidHeader, Attest, IsReserved, ValidAttested;
    ClockIff(policy, q.issuedAt, q.expiresAt, now);
    var message, signature := AttestParts(scheme, signer, q);
    var a := AttestedBy(signer, q, signature);
    AttestedByIsValid(scheme.clean, signer, q, signature);
    AttestedCollected(q.record.headers, a, headers);
    HeadersIff(scheme.clean, SlotMap(a), a);
  }

  /** Nothing a signer made is a forgery: the assumption holds of every delivery of an attested record. */
  lemma AttestedIsNoForgery(scheme: Scheme, signer: Signer, q: Request, asked: set<Request>, headers: seq<RawHeader>)
    requires Works(scheme) && signer.Valid() && WellMade(scheme.clean, q.record) && Attest(scheme, signer, q).Some?
    requires q in asked && multiset(headers) == multiset(Raw(Attest(scheme, signer, q).value.headers))
    ensures NoForgery(scheme, signer, asked, Delivery(q.record.topic, q.record.key, q.record.payload, headers))
  {
    hide Works, Projection, AttestationHeaders, Collect, ParseHeaders, SlotMap, Raw, ValidTopic, ValidIdentifier, DistinctNames,
      ValidHeader, Attest, IsReserved, ValidAttested;
    var message, signature := AttestParts(scheme, signer, q);
    var a := AttestedBy(signer, q, signature);
    AttestedByIsValid(scheme.clean, signer, q, signature);
    AttestedCollected(q.record.headers, a, headers);
    HeadersIff(scheme.clean, SlotMap(a), a);
    assert Signed(scheme, signer, asked, StatementOf(scheme, signer, q));
  }

  lemma RawLength(headers: seq<Header>)
    ensures |Raw(headers)| == |headers|
  {
  }

  // -------------------------------------------------------------------- keys

  predicate Extends(more: Keys, keys: Keys) {
    forall p, k :: p in keys && k in keys[p] ==> p in more && k in more[p] && more[p][k] == keys[p][k]
  }

  /** Inserting a key replaces none. */
  lemma InsertExtends(scheme: Scheme, keys: Keys, producer: Bytes, keyId: Bytes, key: Bytes)
    requires InsertKey(scheme, keys, producer, keyId, key).Some?
    ensures Extends(InsertKey(scheme, keys, producer, keyId, key).value, keys)
  {
  }

  /** Whatever further keys are installed, an accepted delivery stays accepted, with the same identity. */
  lemma AcceptanceIsStable(scheme: Scheme, policy: Policy, keys: Keys, more: Keys, d: Delivery, now: I64)
    requires Extends(more, keys) && Verify(scheme, policy, keys, d, now).Some?
    ensures Verify(scheme, policy, more, d, now) == Verify(scheme, policy, keys, d, now)
  {
    hide Projection, Collect, ParseHeaders, ClockAllows;
  }

  /** And a delivery that names no new key is judged as before, accepted or not. */
  lemma OtherKeysDoNotMatter(scheme: Scheme, policy: Policy, keys: Keys, producer: Bytes, keyId: Bytes, key: Bytes, d: Delivery,
                             now: I64)
    requires InsertKey(scheme, keys, producer, keyId, key).Some?
    ensures var more := InsertKey(scheme, keys, producer, keyId, key).value;
            Verify(scheme, policy, more, d, now) != Verify(scheme, policy, keys, d, now) ==>
              && Verify(scheme, policy, keys, d, now) == None
              && Verify(scheme, policy, more, d, now).value.producer == producer
              && Verify(scheme, policy, more, d, now).value.keyId == keyId
  {
    hide Projection, Collect, ParseHeaders, ClockAllows;
  }

  lemma DeliveryOrderIsIrrelevant(scheme: Scheme, policy: Policy, keys: Keys, d: Delivery, headers: seq<RawHeader>, now: I64)
    requires multiset(headers) == multiset(d.headers)
    ensures Verify(scheme, policy, keys, d.(headers := headers), now) == Verify(scheme, policy, keys, d, now)
  {
    hide Projection, Collect, ParseHeaders, ClockAllows;
    CollectIgnoresOrder(headers, d.headers);
  }
}
