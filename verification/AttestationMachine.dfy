/** The signer and the verifier as the program runs them. */
module AttestationMachine {
  import opened Common
  import opened Framing
  import opened Attestation

  /** Fills the signed bytes field by field. */
  method SigningProjection(st: Statement) returns (projection: Option<Bytes>)
    ensures projection == Projection(st)
  {
    hide BigEndian, I64Bytes;
    var fields := Fields(st);
    var framed := |DOMAIN_SEPARATOR|;
    var i := 0;
    assert fields[0..] == fields;
    while i < |fields|
      invariant 0 <= i <= |fields|
      invariant framed + FramedLength(fields[i..]) == |DOMAIN_SEPARATOR| + FramedLength(fields)
    {
      assert fields[i..][1..] == fields[i + 1..];
      framed := framed + 8 + |fields[i]|;
      i := i + 1;
    }
    if framed >= U64_LIMIT { return None; }
    var buffer := DOMAIN_SEPARATOR;
    i := 0;
    assert fields[..0] == [];
    while i < |fields|
      invariant 0 <= i <= |fields|
      invariant buffer == DOMAIN_SEPARATOR + Frames(fields[..i])
    {
      assert fields[..i + 1] == fields[..i] + [fields[i]];
      FramesAppend(fields[..i], fields[i]);
      buffer := buffer + BigEndian(|fields[i]|, 8);
      buffer := buffer + fields[i];
      i := i + 1;
    }
    assert fields[..i] == fields;
    projection := Some(buffer);
  }

  /** The duplicate test of `DurableEventRecord::validate`. */
  method NamesAreDistinct(headers: seq<Header>) returns (distinct: bool)
    ensures distinct == DistinctNames(headers)
  {
    var names: set<string> := {};
    var i := 0;
    while i < |headers|
      invariant 0 <= i <= |headers|
      invariant names == set j | 0 <= j < i :: headers[j].name
      invariant DistinctNames(headers[..i])
    {
      if headers[i].name in names {
        var j :| 0 <= j < i && headers[j].name == headers[i].name;
        return false;
      }
      names := names + {headers[i].name};
      i := i + 1;
    }
    assert headers[..i] == headers;
    distinct := true;
  }

  method ValidateRecord(clean: Bytes -> bool, r: Record) returns (ok: bool)
    ensures ok == ValidRecord(clean, r)
  {
    ok := ValidTopic(r.topic) && ValidTenant(clean, r.tenant)
          && 0 < |r.key| <= MAX_DURABLE_KEY_BYTES && 0 < |r.payload| <= MAX_DURABLE_PAYLOAD_BYTES
          && |r.headers| <= MAX_DURABLE_HEADERS;
    if ok { ok := NamesAreDistinct(r.headers); }
  }

  /** Appends the attestation headers to the caller's, one by one, and checks the result. */
  method AttestRecord(scheme: Scheme, signer: Signer, q: Request) returns (r: Option<Record>)
    ensures r == Attest(scheme, signer, q)
  {
    hide Frames, FramedLength, Name, SlotValue, ValidHeader, ValidRecord, ValidIdentifier;
    if !ValidIdentifier(q.eventId, MAX_EVENT_ID_BYTES) { return None; }
    if q.issuedAt < 0 || q.expiresAt <= q.issuedAt { return None; }
    var reserved := AnyReserved(q.record.headers);
    if reserved { return None; }
    var message := SigningProjection(StatementOf(scheme, signer, q));
    if message.None? { return None; }
    var signature := scheme.sign(signer.secret, message.value);
    var added := AttestationHeaders(AttestedBy(signer, q, signature));
    var headers := q.record.headers;
    var i := 0;
    while i < |added|
      invariant 0 <= i <= |added|
      invariant headers == q.record.headers + added[..i]
      invariant forall h <- added[..i] :: ValidHeader(h)
    {
      if !ValidHeader(added[i]) {
        assert added[i] in added;
        return None;
      }
      assert added[..i + 1] == added[..i] + [added[i]];
      headers := headers + [added[i]];
      i := i + 1;
    }
    assert added[..i] == added;
    var record := q.record.(headers := headers);
    var ok := ValidateRecord(scheme.clean, record);
    r := if ok then Some(record) else None;
  }

  method AnyReserved(headers: seq<Header>) returns (found: bool)
    ensures found == exists h <- headers :: IsReserved(h.name)
  {
    hide Name;
    found := false;
    var i := 0;
    while i < |headers|
      invariant 0 <= i <= |headers|
      invariant found == exists h <- headers[..i] :: IsReserved(h.name)
    {
      assert headers[..i + 1] == headers[..i] + [headers[i]];
      var reserved := MatchesReserved(headers[i].name);
      found := found || reserved;
      i := i + 1;
    }
    assert headers[..i] == headers;
  }

  method MatchesReserved(name: string) returns (found: bool)
    ensures found == IsReserved(name)
  {
    hide Name;
    found := false;
    var i := 0;
    while i < |SLOTS|
      invariant 0 <= i <= |SLOTS|
      invariant found == exists k :: 0 <= k < i && name == Name(SLOTS[k])
    {
      found := found || name == Name(SLOTS[i]);
      i := i + 1;
    }
    if !found {
      forall s: Slot
        ensures name != Name(s)
      {
        var k := SlotIndex(s);
      }
    }
  }

  method CollectReservedHeaders(headers: seq<RawHeader>) returns (r: Option<map<Slot, Bytes>>)
    ensures r == Collect(headers)
  {
    hide CollectStep;
    var reserved: map<Slot, Bytes> := map[];
    var count := 0;
    assert headers[..0] == [];
    while count < |headers|
      invariant 0 <= count <= |headers| && count <= MAX_DURABLE_HEADERS
      invariant Collect(headers[..count]) == Some(reserved)
    {
      var h := headers[count];
      count := count + 1;
      assert headers[..count][..count - 1] == headers[..count - 1];
      var next := if count > MAX_DURABLE_HEADERS then None else CollectStep(reserved, h);
      if next.None? {
        CollectStops(headers, count);
        return None;
      }
      reserved := next.value;
    }
    assert headers[..count] == headers;
    r := Some(reserved);
  }

  lemma {:induction false} CollectStops(headers: seq<RawHeader>, k: nat)
    requires k <= |headers| && Collect(headers[..k]) == None
    ensures Collect(headers) == None
    decreases |headers|
  {
    if k == |headers| {
      assert headers[..k] == headers;
    } else {
      var init := headers[..|headers| - 1];
      assert init[..k] == headers[..k];
      CollectStops(init, k);
    }
  }

  class ProducerAttestationVerifier {
    const scheme: Scheme
    const policy: Policy
    var verifyingKeys: Keys

    constructor (scheme: Scheme, policy: Policy)
      requires policy.Valid()
      ensures this.scheme == scheme && this.policy == policy && verifyingKeys == map[]
    {
      this.scheme, this.policy := scheme, policy;
      verifyingKeys := map[];
    }

    /** Refuses a producer and key identifier that are present, and then changes nothing. */
    method InsertVerifyingKey(producer: Bytes, keyId: Bytes, key: Bytes) returns (ok: bool)
      modifies this
      ensures ok == InsertKey(scheme, old(verifyingKeys), producer, keyId, key).Some?
      ensures verifyingKeys ==
              if ok then InsertKey(scheme, old(verifyingKeys), producer, keyId, key).value else old(verifyingKeys)
    {
      if !ValidIdentifier(producer, MAX_PRODUCER_SERVICE_BYTES) || !ValidIdentifier(keyId, MAX_KEY_ID_BYTES) { return false; }
      if |key| != ED25519_PUBLIC_KEY_BYTES || !scheme.validKey(key) { return false; }
      var known := if producer in verifyingKeys then verifyingKeys[producer] else map[];
      if keyId in known { return false; }
      verifyingKeys := verifyingKeys[producer := known[keyId := key]];
      ok := true;
    }

    method VerifyDelivery(d: Delivery, now: I64) returns (r: Option<Identity>)
      ensures r == Verify(scheme, policy, verifyingKeys, d, now)
    {
      hide Collect, ParseHeaders, Projection;
      if !ValidTransport(d, now) { return None; }
      var m := CollectReservedHeaders(d.headers);
      if m.None? { return None; }
      var parsed := ParseHeaders(scheme.clean, m.value);
      if parsed.None? { return None; }
      var a := parsed.value;
      if a.producer !in verifyingKeys || a.keyId !in verifyingKeys[a.producer] { return None; }
      var message := SigningProjection(ReceivedStatement(scheme, d, a));
      if message.None? || !scheme.verify(verifyingKeys[a.producer][a.keyId], message.value, a.signature) { return None; }
      if !ClockAllows(policy, a.issuedAt, a.expiresAt, now) { return None; }
      r := Some(Identity(a.producer, a.keyId, a.eventId, a.tenant, a.issuedAt, a.expiresAt));
    }
  }
}
