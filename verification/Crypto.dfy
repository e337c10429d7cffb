/**
 * Signing and hashing of dict objects. SHA-256 and Ed25519 are ideal: a hash text carries
 * the hashed bytes, a signature text carries the signed bytes and the signer's key, so
 * equal texts mean equal bytes. A key pair is named by its public key text.
 */
module Crypto {
  import opened Wrappers
  import opened Text
  import opened Json
  import opened JsonText
  import opened Transport

  const SIGNATURE_FIELDS: set<string> := {
    "signature", "requester_signature", "executor_signature", "signature_by_old_key", "recovery_signatures"
  }

  const DERIVED_HASH_FIELDS: set<string> := {
    "contract_hash", "object_hash", "event_hash", "evidence_record_hash", "leaf_hashes"
  }

  predicate Omitted(key: string) {
    key in SIGNATURE_FIELDS || key in DERIVED_HASH_FIELDS
  }

  function UnsignedPayload(ms: seq<Member>): seq<Member> {
    if ms == [] then []
    else if Omitted(ms[0].key) then UnsignedPayload(ms[1..])
    else [ms[0]] + UnsignedPayload(ms[1..])
  }

  /** The bytes that every signature and hash of the object is taken over. */
  function SignedBytes(ms: seq<Member>, ff: FloatFormat): Result<seq<Byte>, JsonError> {
    CanonicalJson(Obj(UnsignedPayload(ms)), ff)
  }

  function SignatureText(key: string, bytes: seq<Byte>): string {
    "ed25519:" + Hex(bytes) + "." + key
  }

  function HashText(bytes: seq<Byte>): string {
    "sha256:" + Hex(bytes)
  }

  function SignObject(key: string, ms: seq<Member>, ff: FloatFormat): Result<string, JsonError> {
    match SignedBytes(ms, ff)
    case Success(bytes) => Success(SignatureText(key, bytes))
    case Failure(e) => Failure(e)
  }

  function ObjectHash(ms: seq<Member>, ff: FloatFormat): Result<string, JsonError> {
    match SignedBytes(ms, ff)
    case Success(bytes) => Success(HashText(bytes))
    case Failure(e) => Failure(e)
  }

  function VerifyObject(publicKey: string, ms: seq<Member>, signature: string, ff: FloatFormat): Result<bool, JsonError> {
    match SignedBytes(ms, ff)
    case Success(bytes) => Success(signature == SignatureText(publicKey, bytes))
    case Failure(e) => Failure(e)
  }

  // ----------------------------------------------------- ideal encodings

  lemma SignatureTextInjective(key: string, bytes: seq<Byte>, key': string, bytes': seq<Byte>)
    requires SignatureText(key, bytes) == SignatureText(key', bytes')
    ensures key == key' && bytes == bytes'
  {
    var s := SignatureText(key, bytes);
    var n, n' := |Hex(bytes)|, |Hex(bytes')|;
    assert s[8..] == Hex(bytes) + "." + key == Hex(bytes') + "." + key';
    var t := s[8..];
    assert t[n] == '.' && t[n'] == '.';
    assert forall i | 0 <= i < n :: t[i] == Hex(bytes)[i];
    assert forall i | 0 <= i < n' :: t[i] == Hex(bytes')[i];
    assert n == n';
    assert Hex(bytes) == t[..n] == Hex(bytes');
    assert key == t[n + 1..] == key';
    HexInjective(bytes, bytes');
  }

  /** Hash and signature texts name their algorithm. */
  lemma TextsAreTagged(key: string, bytes: seq<Byte>)
    ensures |HashText(bytes)| >= 7 && HashText(bytes)[..7] == "sha256:"
    ensures |SignatureText(key, bytes)| >= 8 && SignatureText(key, bytes)[..8] == "ed25519:"
  {
    assert SignatureText(key, bytes) == "ed25519:" + (Hex(bytes) + "." + key);
  }

  lemma HashTextInjective(a: seq<Byte>, b: seq<Byte>)
    requires HashText(a) == HashText(b)
    ensures a == b
  {
    assert HashText(a)[7..] == Hex(a);
    assert HashText(b)[7..] == Hex(b);
    HexInjective(a, b);
  }

  // --------------------------------------------------- unsigned payloads

  lemma {:induction false} UnsignedPayloadMembers(ms: seq<Member>)
    ensures forall m :: m in UnsignedPayload(ms) <==> m in ms && !Omitted(m.key)
    ensures DistinctKeys(ms) ==> DistinctKeys(UnsignedPayload(ms))
  {
    if ms != [] {
      UnsignedPayloadMembers(ms[1..]);
      assert ms == [ms[0]] + ms[1..];
      var tail := UnsignedPayload(ms[1..]);
      assert forall i | 0 <= i < |ms[1..]| :: ms[1..][i] == ms[i + 1];
      if DistinctKeys(ms) {
        forall i | 0 <= i < |tail|
          ensures tail[i].key != ms[0].key
        {
          assert tail[i] in ms[1..];
        }
      }
    }
  }

  lemma UnsignedKeys(ms: seq<Member>, key: string)
    ensures HasKey(UnsignedPayload(ms), key) <==> HasKey(ms, key) && !Omitted(key)
  {
    var us := UnsignedPayload(ms);
    UnsignedPayloadMembers(ms);
    if HasKey(us, key) {
      var i :| 0 <= i < |us| && us[i].key == key;
      assert us[i] in ms;
    }
    if HasKey(ms, key) && !Omitted(key) {
      var i :| 0 <= i < |ms| && ms[i].key == key;
      assert ms[i] in us;
    }
  }

  lemma UnsignedWellFormed(ms: seq<Member>)
    requires WellFormed(Obj(ms))
    ensures WellFormed(Obj(UnsignedPayload(ms)))
  {
    UnsignedPayloadMembers(ms);
    var us := UnsignedPayload(ms);
    forall i | 0 <= i < |us|
      ensures WellFormed(us[i].value)
    {
      assert us[i] in ms;
    }
  }

  lemma UnsignedFinite(ms: seq<Member>)
    requires FiniteNumbers(Obj(ms))
    ensures FiniteNumbers(Obj(UnsignedPayload(ms)))
  {
    UnsignedPayloadMembers(ms);
    var us := UnsignedPayload(ms);
    forall i | 0 <= i < |us|
      ensures FiniteNumbers(us[i].value)
    {
      assert us[i] in ms;
    }
  }

  lemma UnsignedTransportable(ms: seq<Member>)
    requires Transportable(Obj(ms))
    ensures Transportable(Obj(UnsignedPayload(ms)))
  {
    UnsignedPayloadMembers(ms);
    var us := UnsignedPayload(ms);
    forall i | 0 <= i < |us|
      ensures Transportable(us[i].value)
    {
      assert us[i] in ms;
    }
  }

  lemma UnsignedKeysIncluded(ms: seq<Member>, ns: seq<Member>)
    requires forall i | 0 <= i < |ms| :: HasKey(ns, ms[i].key)
    ensures forall i | 0 <= i < |UnsignedPayload(ms)| :: HasKey(UnsignedPayload(ns), UnsignedPayload(ms)[i].key)
  {
    var us := UnsignedPayload(ms);
    UnsignedPayloadMembers(ms);
    forall i | 0 <= i < |us|
      ensures HasKey(UnsignedPayload(ns), us[i].key)
    {
      assert us[i] in ms;
      UnsignedKeys(ns, us[i].key);
    }
  }

  lemma SameMembers(ms: seq<Member>, ns: seq<Member>, m: Member, n: Member)
    requires Same(Obj(ms), Obj(ns)) && m in ms && n in ns && m.key == n.key
    ensures Same(m.value, n.value)
  {
    var p :| 0 <= p < |ms| && ms[p] == m;
    var q :| 0 <= q < |ns| && ns[q] == n;
    assert Same(ms[p].value, ns[q].value);
  }

  lemma SameUnsignedMembers(ms: seq<Member>, ns: seq<Member>, m: Member, n: Member)
    requires Same(Obj(ms), Obj(ns)) && m in UnsignedPayload(ms) && n in UnsignedPayload(ns) && m.key == n.key
    ensures Same(m.value, n.value)
  {
    hide Same;
    UnsignedPayloadMembers(ms);
    UnsignedPayloadMembers(ns);
    SameMembers(ms, ns, m, n);
  }

  /** Objects equal up to key order have unsigned payloads equal up to key order. */
  lemma UnsignedRespectsSame(ms: seq<Member>, ns: seq<Member>)
    requires Same(Obj(ms), Obj(ns))
    ensures Same(Obj(UnsignedPayload(ms)), Obj(UnsignedPayload(ns)))
  {
    var us, vs := UnsignedPayload(ms), UnsignedPayload(ns);
    EachHasKey(ms, ns);
    UnsignedKeysIncluded(ms, ns);
    UnsignedKeysIncluded(ns, ms);
    hide UnsignedPayload, Same;
    forall i, j | 0 <= i < |us| && 0 <= j < |vs| && us[i].key == vs[j].key
      ensures Same(us[i].value, vs[j].value)
    {
      SameUnsignedMembers(ms, ns, us[i], vs[j]);
    }
    SameDicts(us, vs);
  }

  lemma EachHasKey(ms: seq<Member>, ns: seq<Member>)
    requires Same(Obj(ms), Obj(ns))
    ensures forall i | 0 <= i < |ms| :: HasKey(ns, ms[i].key)
    ensures forall i | 0 <= i < |ns| :: HasKey(ms, ns[i].key)
  {
  }

  lemma SameDicts(ms: seq<Member>, ns: seq<Member>)
    requires forall i | 0 <= i < |ms| :: HasKey(ns, ms[i].key)
    requires forall i | 0 <= i < |ns| :: HasKey(ms, ns[i].key)
    requires forall i, j | 0 <= i < |ms| && 0 <= j < |ns| && ms[i].key == ns[j].key :: Same(ms[i].value, ns[j].value)
    ensures Same(Obj(ms), Obj(ns))
  {
  }

  /** Writing a signature or a derived hash into an object leaves what is signed unchanged. */
  lemma {:induction false} PutOmittedKeepsPayload(ms: seq<Member>, key: string, value: Value)
    requires Omitted(key)
    ensures UnsignedPayload(Put(ms, key, value)) == UnsignedPayload(ms)
  {
    var r := Put(ms, key, value);
    if ms == [] {
      assert r[1..] == [];
    } else if ms[0].key == key {
      assert r[1..] == ms[1..];
    } else {
      PutOmittedKeepsPayload(ms[1..], key, value);
      assert r[1..] == Put(ms[1..], key, value);
    }
  }

  // ------------------------------------------------ what a signature means

  lemma SameGivesSameSignedBytes(ms: seq<Member>, ns: seq<Member>, ff: FloatFormat)
    requires WellFormed(Obj(ms)) && WellFormed(Obj(ns)) && Same(Obj(ms), Obj(ns))
    ensures SignedBytes(ms, ff) == SignedBytes(ns, ff)
  {
    UnsignedWellFormed(ms);
    UnsignedWellFormed(ns);
    UnsignedRespectsSame(ms, ns);
    SameGivesSameBytes(Obj(UnsignedPayload(ms)), Obj(UnsignedPayload(ns)), ff);
  }

  /**
   * A signature made over `signed` verifies on `presented` exactly when it is checked under
   * the signer's key and the two objects agree, up to key order, outside the omitted fields.
   */
  lemma VerifyMeansSigned(key: string, signed: seq<Member>, publicKey: string, presented: seq<Member>, ff: FloatFormat)
    requires Faithful(ff) && WellFormed(Obj(signed)) && WellFormed(Obj(presented))
    requires FiniteNumbers(Obj(signed)) && FiniteNumbers(Obj(presented))
    ensures SignObject(key, signed, ff).Success?
    ensures VerifyObject(publicKey, presented, SignObject(key, signed, ff).value, ff) ==
            Success(publicKey == key && Same(Obj(UnsignedPayload(signed)), Obj(UnsignedPayload(presented))))
  {
    UnsignedWellFormed(signed);
    UnsignedWellFormed(presented);
    UnsignedFinite(signed);
    UnsignedFinite(presented);
    CanonicalForm(Obj(UnsignedPayload(signed)), Obj(UnsignedPayload(presented)), ff);
    var a, b := SignedBytes(signed, ff).value, SignedBytes(presented, ff).value;
    if SignatureText(key, a) == SignatureText(publicKey, b) {
      SignatureTextInjective(key, a, publicKey, b);
    }
  }

  /** Two objects have the same hash exactly when they agree outside the omitted fields. */
  lemma HashMeansSame(ms: seq<Member>, ns: seq<Member>, ff: FloatFormat)
    requires Faithful(ff) && WellFormed(Obj(ms)) && WellFormed(Obj(ns))
    requires FiniteNumbers(Obj(ms)) && FiniteNumbers(Obj(ns))
    ensures ObjectHash(ms, ff).Success?
    ensures ObjectHash(ms, ff) == ObjectHash(ns, ff) <==> Same(Obj(UnsignedPayload(ms)), Obj(UnsignedPayload(ns)))
  {
    UnsignedWellFormed(ms);
    UnsignedWellFormed(ns);
    UnsignedFinite(ms);
    UnsignedFinite(ns);
    CanonicalForm(Obj(UnsignedPayload(ms)), Obj(UnsignedPayload(ns)), ff);
    if ObjectHash(ms, ff) == ObjectHash(ns, ff) {
      HashTextInjective(SignedBytes(ms, ff).value, SignedBytes(ns, ff).value);
    }
  }

  // ------------------------------------------------- signatures over a hop

  lemma {:induction false} UnsignedOfStruct(ms: seq<Member>)
    requires Transportable(Obj(ms)) && Transportable(Obj(UnsignedPayload(ms)))
    ensures ToStruct(Obj(UnsignedPayload(ms))).members == UnsignedPayload(ToStruct(Obj(ms)).members)
  {
    var ts := ToStruct(Obj(ms)).members;
    if ms != [] {
      assert ToStruct(Obj(ms[1..])).members == ts[1..];
      UnsignedTransportable(ms[1..]);
      UnsignedOfStruct(ms[1..]);
      var us := UnsignedPayload(ms);
      if !Omitted(ms[0].key) {
        assert us[1..] == UnsignedPayload(ms[1..]);
        assert ToStruct(Obj(us)).members == [ts[0]] + ToStruct(Obj(us[1..])).members;
      }
    }
  }

  lemma {:induction false} UnsignedOfRestored(ms: seq<Member>)
    ensures Restore(Obj(UnsignedPayload(ms))).members == UnsignedPayload(Restore(Obj(ms)).members)
  {
    var rs := Restore(Obj(ms)).members;
    if ms != [] {
      assert Restore(Obj(ms[1..])).members == rs[1..];
      UnsignedOfRestored(ms[1..]);
      var us := UnsignedPayload(ms);
      if !Omitted(ms[0].key) {
        assert us[1..] == UnsignedPayload(ms[1..]);
        assert Restore(Obj(us)).members == [rs[0]] + Restore(Obj(us[1..])).members;
      }
    }
  }

  /** A hop of an object is a hop of its unsigned payload. */
  lemma HopOfUnsigned(ms: seq<Member>, received: Value)
    requires Hop(Obj(ms), received)
    ensures received.Obj? && Hop(Obj(UnsignedPayload(ms)), Obj(UnsignedPayload(received.members)))
  {
    var wire :| WellFormed(wire) && Same(ToStruct(Obj(ms)), wire) && received == Restore(wire);
    UnsignedTransportable(ms);
    UnsignedWellFormed(ms);
    UnsignedWellFormed(wire.members);
    UnsignedRespectsSame(ToStruct(Obj(ms)).members, wire.members);
    UnsignedOfStruct(ms);
    UnsignedOfRestored(wire.members);
    var part := Obj(UnsignedPayload(wire.members));
    assert Same(ToStruct(Obj(UnsignedPayload(ms))), part);
    assert Obj(UnsignedPayload(received.members)) == Restore(part);
  }

  /**
   * Over one hop, hashes and verification results are unchanged for every key and every
   * signature exactly when the signed part of the object is number-safe.
   */
  lemma SignaturesSurviveHop(ms: seq<Member>, received: Value, key: string, ff: FloatFormat)
    requires Faithful(ff) && Hop(Obj(ms), received)
    ensures received.Obj?
    ensures ObjectHash(received.members, ff) == ObjectHash(ms, ff) <==> NumberSafe(Obj(UnsignedPayload(ms)))
    ensures NumberSafe(Obj(UnsignedPayload(ms))) ==>
              forall pk, sig :: VerifyObject(pk, received.members, sig, ff) == VerifyObject(pk, ms, sig, ff)
    ensures SignObject(key, ms, ff).Success?
    ensures VerifyObject(key, received.members, SignObject(key, ms, ff).value, ff) ==
            Success(NumberSafe(Obj(UnsignedPayload(ms))))
  {
    HopOfUnsigned(ms, received);
    HopCleans(Obj(ms), received);
    TransportableIsFinite(Obj(ms));
    var payload, payload' := Obj(UnsignedPayload(ms)), Obj(UnsignedPayload(received.members));
    HopDelivers(payload, payload');
    CanonicalBytesSurvive(payload, payload', ff);
    VerifyMeansSigned(key, ms, key, received.members, ff);
    HashMeansSame(received.members, ms, ff);
    UnsignedWellFormed(ms);
    UnsignedWellFormed(received.members);
    SortKeysDecidesSame(payload, payload');
    SortKeysDecidesSame(payload', payload);
  }
}
