/**
 * The dataclasses that cross the wire, `TaskContract` and `TaskProposal`. Python does not
 * check field types, so a field holds any JSON value; `asdict` and `from_dict` convert to
 * and from dicts.
 */
module Records {
  import opened Wrappers
  import opened Json
  import opened Crypto

  function Field(ms: seq<Member>, key: string, default: Value): Value {
    Get(ms, key).GetOr(default)
  }

  /** `proposal.TaskProposal`: the first six fields have no default. */
  datatype TaskProposal = TaskProposal(
    proposalId: Value,
    revision: Value,
    requester: Value,
    target: Value,
    capability: Value,
    objective: Value,
    constraints: Value,
    deliverables: Value,
    verification: Value,
    sideEffects: Value,
    expiresAt: Value,
    idempotencyKey: Value,
    signature: Value)
  {
    /** `to_dict`: every field, in declaration order. */
    function ToMembers(): seq<Member> {
      [
        Member("proposal_id", proposalId),
        Member("revision", revision),
        Member("requester", requester),
        Member("target", target),
        Member("capability", capability),
        Member("objective", objective),
        Member("constraints", constraints),
        Member("deliverables", deliverables),
        Member("verification", verification),
        Member("side_effects", sideEffects),
        Member("expires_at", expiresAt),
        Member("idempotency_key", idempotencyKey),
        Member("signature", signature)
      ]
    }

    /** `from_dict`: unknown keys are dropped, absent ones take their default, and an absent
        required one is a TypeError. */
    static function FromMembers(ms: seq<Member>): Option<TaskProposal> {
      if Get(ms, "proposal_id").Some?
         && Get(ms, "revision").Some?
         && Get(ms, "requester").Some?
         && Get(ms, "target").Some?
         && Get(ms, "capability").Some?
         && Get(ms, "objective").Some? then
        Some(TaskProposal(
          Field(ms, "proposal_id", Null),
          Field(ms, "revision", Null),
          Field(ms, "requester", Null),
          Field(ms, "target", Null),
          Field(ms, "capability", Null),
          Field(ms, "objective", Null),
          Field(ms, "constraints", Arr([])),
          Field(ms, "deliverables", Arr([])),
          Field(ms, "verification", Obj([])),
          Field(ms, "side_effects", Str("NONE")),
          Field(ms, "expires_at", Null),
          Field(ms, "idempotency_key", Null),
          Field(ms, "signature", Null)))
      else None
    }
  }

  /** `models.TaskContract`: the first nine fields have no default. */
  datatype TaskContract = TaskContract(
    contractId: Value,
    requester: Value,
    executor: Value,
    capability: Value,
    objective: Value,
    constraints: Value,
    deliverables: Value,
    verification: Value,
    createdAt: Value,
    status: Value,
    expiresAt: Value,
    economicTerms: Value,
    metadata: Value,
    proposalId: Value,
    proposalRevision: Value,
    proposalHash: Value,
    sideEffects: Value,
    requesterSignature: Value,
    executorSignature: Value,
    schemaVersion: Value,
    canonicalization: Value,
    signatureSuite: Value,
    requesterKeyId: Value,
    executorKeyId: Value,
    verificationPolicyHash: Value,
    contractHash: Value)
  {
    /** `to_dict`: every field, in declaration order. */
    function ToMembers(): seq<Member> {
      [
        Member("contract_id", contractId),
        Member("requester", requester),
        Member("executor", executor),
        Member("capability", capability),
        Member("objective", objective),
        Member("constraints", constraints),
        Member("deliverables", deliverables),
        Member("verification", verification),
        Member("created_at", createdAt),
        Member("status", status),
        Member("expires_at", expiresAt),
        Member("economic_terms", economicTerms),
        Member("metadata", metadata),
        Member("proposal_id", proposalId),
        Member("proposal_revision", proposalRevision),
        Member("proposal_hash", proposalHash),
        Member("side_effects", sideEffects),
        Member("requester_signature", requesterSignature),
        Member("executor_signature", executorSignature),
        Member("schema_version", schemaVersion),
        Member("canonicalization", canonicalization),
        Member("signature_suite", signatureSuite),
        Member("requester_key_id", requesterKeyId),
        Member("executor_key_id", executorKeyId),
        Member("verification_policy_hash", verificationPolicyHash),
        Member("contract_hash", contractHash)
      ]
    }

    /** `from_dict`: unknown keys are dropped, absent ones take their default, and an absent
        required one is a TypeError. */
    static function FromMembers(ms: seq<Member>): Option<TaskContract> {
      if Get(ms, "contract_id").Some?
         && Get(ms, "requester").Some?
         && Get(ms, "executor").Some?
         && Get(ms, "capability").Some?
         && Get(ms, "objective").Some?
         && Get(ms, "constraints").Some?
         && Get(ms, "deliverables").Some?
         && Get(ms, "verification").Some?
         && Get(ms, "created_at").Some? then
        Some(TaskContract(
          Field(ms, "contract_id", Null),
          Field(ms, "requester", Null),
          Field(ms, "executor", Null),
          Field(ms, "capability", Null),
          Field(ms, "objective", Null),
          Field(ms, "constraints", Null),
          Field(ms, "deliverables", Null),
          Field(ms, "verification", Null),
          Field(ms, "created_at", Null),
          Field(ms, "status", Str("SIGNED")),
          Field(ms, "expires_at", Null),
          Field(ms, "economic_terms", Null),
          Field(ms, "metadata", Obj([])),
          Field(ms, "proposal_id", Null),
          Field(ms, "proposal_revision", Null),
          Field(ms, "proposal_hash", Null),
          Field(ms, "side_effects", Str("NONE")),
          Field(ms, "requester_signature", Null),
          Field(ms, "executor_signature", Null),
          Field(ms, "schema_version", Str("0.2")),
          Field(ms, "canonicalization", Str("agent-json-v0.1")),
          Field(ms, "signature_suite", Str("ed25519-sha256-v1")),
          Field(ms, "requester_key_id", Null),
          Field(ms, "executor_key_id", Null),
          Field(ms, "verification_policy_hash", Null),
          Field(ms, "contract_hash", Null)))
      else None
    }
  }

  // -------------------------------------------------------- dict helpers

  /** Two dicts with the same keys in the same places. */
  predicate SameLayout(ms: seq<Member>, ns: seq<Member>) {
    |ms| == |ns| && forall i | 0 <= i < |ms| :: ms[i].key == ns[i].key
  }

  /** Dicts that differ only in omitted fields have the same unsigned payload. */
  lemma {:induction false} PayloadIgnoresOmitted(ms: seq<Member>, ns: seq<Member>)
    requires SameLayout(ms, ns)
    requires forall i | 0 <= i < |ms| && !Omitted(ms[i].key) :: ms[i] == ns[i]
    ensures UnsignedPayload(ms) == UnsignedPayload(ns)
  {
    if ms != [] {
      assert forall i | 0 <= i < |ms[1..]| :: ms[1..][i] == ms[i + 1] && ns[1..][i] == ns[i + 1];
      PayloadIgnoresOmitted(ms[1..], ns[1..]);
    }
  }

  lemma FieldwiseSame(ms: seq<Member>, ns: seq<Member>)
    requires DistinctKeys(ms) && SameLayout(ms, ns)
    requires forall i | 0 <= i < |ms| :: Same(ms[i].value, ns[i].value)
    ensures Same(Obj(ms), Obj(ns))
  {
    forall i | 0 <= i < |ms|
      ensures HasKey(ns, ms[i].key) && HasKey(ms, ns[i].key)
    {
      assert ns[i].key == ms[i].key;
    }
    forall i, j | 0 <= i < |ms| && 0 <= j < |ns| && ms[i].key == ns[j].key
      ensures Same(ms[i].value, ns[j].value)
    {
      assert ms[j].key == ns[j].key;
      assert i == j;
    }
  }

  /** `rebuilt` has the layout of `ms` and takes every value from `ns`, a reordered copy of `ms`. */
  lemma RebuiltSame(ms: seq<Member>, ns: seq<Member>, rebuilt: seq<Member>)
    requires WellFormed(Obj(ms)) && WellFormed(Obj(ns)) && Same(Obj(ms), Obj(ns))
    requires SameLayout(ms, rebuilt)
    requires forall i | 0 <= i < |ms| :: Get(ns, ms[i].key) == Some(rebuilt[i].value)
    ensures WellFormed(Obj(rebuilt)) && Same(Obj(ms), Obj(rebuilt))
  {
    forall i | 0 <= i < |ms|
      ensures WellFormed(rebuilt[i].value) && Same(ms[i].value, rebuilt[i].value)
    {
      GetFromSame(ms, ns, i);
    }
    FieldwiseSame(ms, rebuilt);
  }

  // ------------------------------------------------------------ contracts

  const CONTRACT_KEYS: seq<string> := [
    "contract_id", "requester", "executor", "capability", "objective", "constraints",
    "deliverables", "verification", "created_at", "status", "expires_at", "economic_terms",
    "metadata", "proposal_id", "proposal_revision", "proposal_hash", "side_effects",
    "requester_signature", "executor_signature", "schema_version", "canonicalization",
    "signature_suite", "requester_key_id", "executor_key_id", "verification_policy_hash",
    "contract_hash"
  ]

  lemma ContractKeysDistinct()
    ensures |CONTRACT_KEYS| == 26
    ensures forall i, j | 0 <= i < j < 26 :: CONTRACT_KEYS[i] != CONTRACT_KEYS[j]
  {
  }

  lemma ContractKeys(c: TaskContract)
    ensures |c.ToMembers()| == |CONTRACT_KEYS| == 26
    ensures forall i | 0 <= i < 26 :: c.ToMembers()[i].key == CONTRACT_KEYS[i]
  {
  }

  lemma ContractLayout(c: TaskContract, d: TaskContract)
    ensures |c.ToMembers()| == 26 && SameLayout(c.ToMembers(), d.ToMembers())
    ensures DistinctKeys(c.ToMembers())
  {
    var ms, ns := c.ToMembers(), d.ToMembers();
    ContractKeys(c);
    ContractKeys(d);
    ContractKeysDistinct();
    LayoutFromKeys(ms, ns, CONTRACT_KEYS);
  }

  lemma LayoutFromKeys(ms: seq<Member>, ns: seq<Member>, keys: seq<string>)
    requires |ms| == |ns| == |keys|
    requires forall i, j | 0 <= i < j < |keys| :: keys[i] != keys[j]
    requires forall i | 0 <= i < |keys| :: ms[i].key == keys[i] && ns[i].key == keys[i]
    ensures SameLayout(ms, ns) && DistinctKeys(ms)
  {
  }

  /** A property of every field is a property of every value in the dict. */
  lemma ContractFieldwise(c: TaskContract, q: Value -> bool)
    requires q(c.contractId) && q(c.requester) && q(c.executor) && q(c.capability) && q(c.objective)
    requires q(c.constraints) && q(c.deliverables) && q(c.verification) && q(c.createdAt) && q(c.status)
    requires q(c.expiresAt) && q(c.economicTerms) && q(c.metadata) && q(c.proposalId) && q(c.proposalRevision)
    requires q(c.proposalHash) && q(c.sideEffects) && q(c.requesterSignature) && q(c.executorSignature) && q(c.schemaVersion)
    requires q(c.canonicalization) && q(c.signatureSuite) && q(c.requesterKeyId) && q(c.executorKeyId) && q(c.verificationPolicyHash)
    requires q(c.contractHash)
    ensures |c.ToMembers()| == 26 && forall i | 0 <= i < 26 :: q(c.ToMembers()[i].value)
  {
  }

  lemma ContractPairwise(c: TaskContract, d: TaskContract, q: (Value, Value) -> bool)
    requires q(c.contractId, d.contractId) && q(c.requester, d.requester) && q(c.executor, d.executor)
    requires q(c.capability, d.capability) && q(c.objective, d.objective) && q(c.constraints, d.constraints)
    requires q(c.deliverables, d.deliverables) && q(c.verification, d.verification) && q(c.createdAt, d.createdAt)
    requires q(c.status, d.status) && q(c.expiresAt, d.expiresAt) && q(c.economicTerms, d.economicTerms)
    requires q(c.metadata, d.metadata) && q(c.proposalId, d.proposalId) && q(c.proposalRevision, d.proposalRevision)
    requires q(c.proposalHash, d.proposalHash) && q(c.sideEffects, d.sideEffects)
    requires q(c.requesterSignature, d.requesterSignature) && q(c.executorSignature, d.executorSignature)
    requires q(c.schemaVersion, d.schemaVersion) && q(c.canonicalization, d.canonicalization)
    requires q(c.signatureSuite, d.signatureSuite) && q(c.requesterKeyId, d.requesterKeyId)
    requires q(c.executorKeyId, d.executorKeyId) && q(c.verificationPolicyHash, d.verificationPolicyHash)
    requires q(c.contractHash, d.contractHash)
    ensures |c.ToMembers()| == |d.ToMembers()| == 26
    ensures forall i | 0 <= i < 26 :: q(c.ToMembers()[i].value, d.ToMembers()[i].value)
  {
  }

  /** Where a contract's dict has the fields that other proofs look at. */
  lemma ContractEntries(c: TaskContract)
    ensures |c.ToMembers()| == 26
    ensures c.ToMembers()[7] == Member("verification", c.verification)
    ensures c.ToMembers()[9] == Member("status", c.status)
    ensures c.ToMembers()[12] == Member("metadata", c.metadata)
    ensures c.ToMembers()[17] == Member("requester_signature", c.requesterSignature)
    ensures c.ToMembers()[18] == Member("executor_signature", c.executorSignature)
    ensures c.ToMembers()[24] == Member("verification_policy_hash", c.verificationPolicyHash)
  {
  }

  /** The fields that are left out of what is signed. */
  lemma ContractOmits(c: TaskContract, requesterSig: Value, executorSig: Value, hash: Value)
    ensures UnsignedPayload(c.ToMembers()) ==
            UnsignedPayload(c.(requesterSignature := requesterSig, executorSignature := executorSig,
                               contractHash := hash).ToMembers())
  {
    var d := c.(requesterSignature := requesterSig, executorSignature := executorSig, contractHash := hash);
    var ms, ns := c.ToMembers(), d.ToMembers();
    ContractLayout(c, d);
    forall i | 0 <= i < 26 && !Omitted(ms[i].key)
      ensures ms[i] == ns[i]
    {
      assert i != 17 && i != 18 && i != 25;
    }
    PayloadIgnoresOmitted(ms, ns);
  }

  /** Every key of the dict is found again in a reordered copy. */
  lemma ContractReadable(c: TaskContract, ns: seq<Member>)
    requires WellFormed(Obj(ns)) && Same(Obj(c.ToMembers()), Obj(ns))
    ensures |CONTRACT_KEYS| == 26
    ensures forall i | 0 <= i < 26 :: Get(ns, CONTRACT_KEYS[i]).Some?
  {
    ContractKeys(c);
    AllFound(c.ToMembers(), ns, CONTRACT_KEYS);
  }

  lemma AllFound(ms: seq<Member>, ns: seq<Member>, keys: seq<string>)
    requires WellFormed(Obj(ns)) && Same(Obj(ms), Obj(ns)) && |keys| == |ms|
    requires forall i | 0 <= i < |ms| :: ms[i].key == keys[i]
    ensures forall i | 0 <= i < |keys| :: Get(ns, keys[i]).Some?
  {
    forall i | 0 <= i < |keys|
      ensures Get(ns, keys[i]).Some?
    {
      GetFromSame(ms, ns, i);
    }
  }

  lemma ContractRequired(ns: seq<Member>)
    requires |CONTRACT_KEYS| == 26 && forall i | 0 <= i < 26 :: Get(ns, CONTRACT_KEYS[i]).Some?
    ensures TaskContract.FromMembers(ns).Some?
  {
    assert forall i | 0 <= i < 9 :: Get(ns, CONTRACT_KEYS[i]).Some?;
    assert CONTRACT_KEYS[0] == "contract_id";
    assert CONTRACT_KEYS[1] == "requester";
    assert CONTRACT_KEYS[2] == "executor";
    assert CONTRACT_KEYS[3] == "capability";
    assert CONTRACT_KEYS[4] == "objective";
    assert CONTRACT_KEYS[5] == "constraints";
    assert CONTRACT_KEYS[6] == "deliverables";
    assert CONTRACT_KEYS[7] == "verification";
    assert CONTRACT_KEYS[8] == "created_at";
  }

  lemma ContractReadsFirst(ns: seq<Member>, d: TaskContract)
    requires TaskContract.FromMembers(ns) == Some(d)
    requires |CONTRACT_KEYS| == 26
    requires forall i | 0 <= i < 26 :: Get(ns, CONTRACT_KEYS[i]).Some?
    ensures |d.ToMembers()| == 26
    ensures forall i | 0 <= i < 13 :: Get(ns, CONTRACT_KEYS[i]) == Some(d.ToMembers()[i].value)
  {
  }

  lemma ContractReadsLast(ns: seq<Member>, d: TaskContract)
    requires TaskContract.FromMembers(ns) == Some(d)
    requires |CONTRACT_KEYS| == 26
    requires forall i | 0 <= i < 26 :: Get(ns, CONTRACT_KEYS[i]).Some?
    ensures |d.ToMembers()| == 26
    ensures forall i | 13 <= i < 26 :: Get(ns, CONTRACT_KEYS[i]) == Some(d.ToMembers()[i].value)
  {
  }

  /** A contract rebuilt from a reordered copy of its dict has the same dict up to key order. */
  lemma ContractRebuilt(c: TaskContract, ns: seq<Member>)
    requires WellFormed(Obj(c.ToMembers())) && WellFormed(Obj(ns)) && Same(Obj(c.ToMembers()), Obj(ns))
    ensures TaskContract.FromMembers(ns).Some?
    ensures var d := TaskContract.FromMembers(ns).value;
            WellFormed(Obj(d.ToMembers())) && Same(Obj(c.ToMembers()), Obj(d.ToMembers()))
  {
    ContractKeys(c);
    ContractReadable(c, ns);
    ContractRequired(ns);
    var d := TaskContract.FromMembers(ns).value;
    ContractReadsFirst(ns, d);
    ContractReadsLast(ns, d);
    ContractLayout(c, d);
    RebuiltSame(c.ToMembers(), ns, d.ToMembers());
  }

  // ------------------------------------------------------------ proposals

  const PROPOSAL_KEYS: seq<string> := [
    "proposal_id", "revision", "requester", "target", "capability", "objective",
    "constraints", "deliverables", "verification", "side_effects", "expires_at",
    "idempotency_key", "signature"
  ]

  lemma ProposalKeysDistinct()
    ensures |PROPOSAL_KEYS| == 13
    ensures forall i, j | 0 <= i < j < 13 :: PROPOSAL_KEYS[i] != PROPOSAL_KEYS[j]
  {
  }

  lemma ProposalKeys(p: TaskProposal)
    ensures |p.ToMembers()| == |PROPOSAL_KEYS| == 13
    ensures forall i | 0 <= i < 13 :: p.ToMembers()[i].key == PROPOSAL_KEYS[i]
  {
  }

  lemma ProposalLayout(p: TaskProposal, q: TaskProposal)
    ensures |p.ToMembers()| == 13 && SameLayout(p.ToMembers(), q.ToMembers())
    ensures DistinctKeys(p.ToMembers())
  {
    ProposalKeys(p);
    ProposalKeys(q);
    ProposalKeysDistinct();
    LayoutFromKeys(p.ToMembers(), q.ToMembers(), PROPOSAL_KEYS);
  }

  lemma ProposalFieldwise(p: TaskProposal, q: Value -> bool)
    ensures |p.ToMembers()| == 13
    ensures (forall i | 0 <= i < 13 :: q(p.ToMembers()[i].value)) <==>
            (&& q(p.proposalId) && q(p.revision) && q(p.requester) && q(p.target) && q(p.capability)
             && q(p.objective) && q(p.constraints) && q(p.deliverables) && q(p.verification) && q(p.sideEffects)
             && q(p.expiresAt) && q(p.idempotencyKey) && q(p.signature))
  {
    var ms := p.ToMembers();
    assert ms[0].value == p.proposalId;
    assert ms[1].value == p.revision;
    assert ms[2].value == p.requester;
    assert ms[3].value == p.target;
    assert ms[4].value == p.capability;
    assert ms[5].value == p.objective;
    assert ms[6].value == p.constraints;
    assert ms[7].value == p.deliverables;
    assert ms[8].value == p.verification;
    assert ms[9].value == p.sideEffects;
    assert ms[10].value == p.expiresAt;
    assert ms[11].value == p.idempotencyKey;
    assert ms[12].value == p.signature;
  }

  /** A proposal's signature is not part of what it signs. */
  lemma ProposalOmits(p: TaskProposal, signature: Value)
    ensures UnsignedPayload(p.ToMembers()) == UnsignedPayload(p.(signature := signature).ToMembers())
  {
    var ms, ns := p.ToMembers(), p.(signature := signature).ToMembers();
    ProposalLayout(p, p.(signature := signature));
    forall i | 0 <= i < 13 && !Omitted(ms[i].key)
      ensures ms[i] == ns[i]
    {
      assert i != 12;
    }
    PayloadIgnoresOmitted(ms, ns);
  }

  lemma ProposalRequired(ns: seq<Member>)
    requires |PROPOSAL_KEYS| == 13 && forall i | 0 <= i < 13 :: Get(ns, PROPOSAL_KEYS[i]).Some?
    ensures TaskProposal.FromMembers(ns).Some?
  {
    assert forall i | 0 <= i < 6 :: Get(ns, PROPOSAL_KEYS[i]).Some?;
    assert PROPOSAL_KEYS[0] == "proposal_id";
    assert PROPOSAL_KEYS[1] == "revision";
    assert PROPOSAL_KEYS[2] == "requester";
    assert PROPOSAL_KEYS[3] == "target";
    assert PROPOSAL_KEYS[4] == "capability";
    assert PROPOSAL_KEYS[5] == "objective";
  }

  lemma ProposalReads(ns: seq<Member>, q: TaskProposal)
    requires TaskProposal.FromMembers(ns) == Some(q)
    requires |PROPOSAL_KEYS| == 13
    requires forall i | 0 <= i < 13 :: Get(ns, PROPOSAL_KEYS[i]).Some?
    ensures |q.ToMembers()| == 13
    ensures forall i | 0 <= i < 13 :: Get(ns, PROPOSAL_KEYS[i]) == Some(q.ToMembers()[i].value)
  {
  }

  /**
   * A proposal rebuilt from any dict that answers `get` like a reordered copy of the
   * proposal's own dict has the same dict up to key order.
   */
  lemma ProposalRebuilt(p: TaskProposal, copy: seq<Member>, ns: seq<Member>)
    requires WellFormed(Obj(p.ToMembers())) && WellFormed(Obj(copy)) && Same(Obj(p.ToMembers()), Obj(copy))
    requires forall i | 0 <= i < |PROPOSAL_KEYS| :: Get(ns, PROPOSAL_KEYS[i]) == Get(copy, PROPOSAL_KEYS[i])
    ensures TaskProposal.FromMembers(ns).Some?
    ensures var q := TaskProposal.FromMembers(ns).value;
            WellFormed(Obj(q.ToMembers())) && Same(Obj(p.ToMembers()), Obj(q.ToMembers()))
  {
    ProposalKeys(p);
    AllFound(p.ToMembers(), copy, PROPOSAL_KEYS);
    ProposalRequired(ns);
    var q := TaskProposal.FromMembers(ns).value;
    ProposalReads(ns, q);
    ProposalLayout(p, q);
    RebuiltSame(p.ToMembers(), copy, q.ToMembers());
  }
}
