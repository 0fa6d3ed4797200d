/** What the signer writes and the verifier accepts, spelled out. */
module AttestationForms {
  import opened Common
  import opened Framing
  import opened Attestation

  /** Bytes of ASCII text. */
  function Ascii(s: string): Bytes
    requires forall i :: 0 <= i < |s| ==> s[i] <= '~'
  {
    seq(|s|, i requires 0 <= i < |s| => s[i] as int)
  }

  lemma DomainText()
    ensures DOMAIN_SEPARATOR == Ascii("warpin.durable-event-attestation.v1")
  {
  }

  /** A topic is 1 to 249 letters, digits, dots, underscores and hyphens, but not one dot or two. */
  lemma TopicIff(topic: Bytes)
    ensures ValidTopic(topic) <==>
            && 1 <= |topic| <= 249 && topic != Ascii(".") && topic != Ascii("..")
            && forall b <- topic :: IsAlphanumeric(b as char) || b as char in "._-"
  {
  }

  /** An identifier starts with a letter or digit and goes on with these or underscores, dots, colons and hyphens. */
  lemma IdentifierIff(id: Bytes, max: nat)
    ensures ValidIdentifier(id, max) <==>
            && 1 <= |id| <= max && IsAlphanumeric(id[0] as char)
            && forall b <- id :: IsAlphanumeric(b as char) || b as char in "_.:-"
  {
  }

  lemma HeaderIff(h: Header)
    ensures ValidHeader(h) <==>
            && 1 <= |h.name| <= 64 && (forall c <- h.name :: 'a' <= c <= 'z' || IsDigit(c) || c in "-_")
            && 1 <= |h.value| <= 4096
  {
  }

  lemma RecordIff(clean: Bytes -> bool, r: Record)
    ensures ValidRecord(clean, r) <==>
            && ValidTopic(r.topic) && clean(r.tenant) && 1 <= |r.tenant| <= 256
            && 1 <= |r.key| <= 4096 && 1 <= |r.payload| <= 0x100_0000
            && |r.headers| <= 32 && DistinctNames(r.headers)
  {
  }

  /**
   An attested record is the record with eight headers behind its own: version, producer, tenant, key, event, the two
   times in decimal, and the signature of the projection in hexadecimal.
   */
  lemma AttestedLayout(scheme: Scheme, signer: Signer, q: Request)
    requires Attest(scheme, signer, q).Some?
    ensures
      var st := Statement(q.record.topic, q.record.tenant, q.record.key, scheme.digest(q.record.payload),
                          signer.producer, signer.keyId, q.eventId, q.issuedAt, q.expiresAt);
      && Projection(st).Some? && 0 <= q.issuedAt < q.expiresAt
      && Attest(scheme, signer, q).value ==
         Record(q.record.topic, q.record.tenant, q.record.key, q.record.payload,
                q.record.headers + [
                  Header("x-warpin-attestation-version", Ascii("1")),
                  Header("x-warpin-producer-service", signer.producer),
                  Header("x-warpin-tenant-id", q.record.tenant),
                  Header("x-warpin-signing-key-id", signer.keyId),
                  Header("x-warpin-event-id", q.eventId),
                  Header("x-warpin-issued-at-ms", DecimalText(q.issuedAt)),
                  Header("x-warpin-expires-at-ms", DecimalText(q.expiresAt)),
                  Header("x-warpin-signature-ed25519", Hex(scheme.sign(signer.secret, Projection(st).value)))])
  {
    hide Projection, ValidHeader, ValidRecord, ValidIdentifier, DecimalText, Hex;
    var signature := scheme.sign(signer.secret, Projection(StatementOf(scheme, signer, q)).value);
    EightHeaders(AttestedBy(signer, q, signature));
  }

  lemma EightHeaders(a: Attested)
    requires a.issuedAt >= 0 && a.expiresAt >= 0
    ensures AttestationHeaders(a) == [
              Header("x-warpin-attestation-version", Ascii("1")),
              Header("x-warpin-producer-service", a.producer),
              Header("x-warpin-tenant-id", a.tenant),
              Header("x-warpin-signing-key-id", a.keyId),
              Header("x-warpin-event-id", a.eventId),
              Header("x-warpin-issued-at-ms", DecimalText(a.issuedAt)),
              Header("x-warpin-expires-at-ms", DecimalText(a.expiresAt)),
              Header("x-warpin-signature-ed25519", Hex(a.signature))]
  {
    hide DecimalText, Hex;
    assert Ascii("1") == ATTESTATION_VERSION;
  }

  lemma {:induction false} FramesLength(fields: seq<Bytes>)
    ensures |Frames(fields)| == FramedLength(fields)
  {
    if fields != [] {
      FramesLength(fields[1..]);
      hide BigEndian;
    }
  }

  /** There is a projection exactly if its length is a 64-bit number. */
  lemma ProjectionIff(st: Statement)
    ensures Projection(st).Some? <==> |"warpin.durable-event-attestation.v1"| + |Frames(Fields(st))| < 0x1_0000_0000_0000_0000
  {
    FramesLength(Fields(st));
    hide Frames, Fields;
  }

  /** What the constructors of a verifier's policy and of a signer demand. */
  lemma SettingsIff(policy: Policy, signer: Signer)
    ensures policy.Valid() <==> policy.maxValidity >= 1 && policy.maxFutureSkew >= 0
    ensures signer.Valid() <==>
            ValidIdentifier(signer.producer, 128) && ValidIdentifier(signer.keyId, 128) && |signer.secret| == 32
  {
  }

  predicate Installed(keys: Keys, producer: Bytes, keyId: Bytes, key: Bytes) {
    producer in keys && keyId in keys[producer] && keys[producer][keyId] == key
  }

  /** A key is inserted if it is well formed and its place is free, and then it is the one key that was added. */
  lemma InsertAddsOneKey(scheme: Scheme, keys: Keys, producer: Bytes, keyId: Bytes, key: Bytes)
    ensures InsertKey(scheme, keys, producer, keyId, key).Some? <==>
            && ValidIdentifier(producer, 128) && ValidIdentifier(keyId, 128) && |key| == 32 && scheme.validKey(key)
            && forall k :: !Installed(keys, producer, keyId, k)
    ensures forall more :: InsertKey(scheme, keys, producer, keyId, key) == Some(more) ==>
              forall p, i, k :: Installed(more, p, i, k) <==> Installed(keys, p, i, k) || (p, i, k) == (producer, keyId, key)
  {
    hide ValidIdentifier;
    if producer in keys && keyId in keys[producer] { assert Installed(keys, producer, keyId, keys[producer][keyId]); }
  }
}
