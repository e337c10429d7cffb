/**
 * Which fields of a contract and of a proposal are signed, field by field, and what the
 * delivery check therefore demands of a contract.
 */
module ContractFields {
  import opened Wrappers
  import opened Json
  import opened JsonText
  import opened Crypto
  import opened Records
  import opened Python
  import opened Negotiation
  import opened NegotiationProofs

  // ------------------------------------------------------ what is signed

  /** Signatures and hashes are all that is left out of any object. */
  lemma OmittedNames(key: string)
    requires Omitted(key)
    ensures exists i | 0 <= i <= |key| :: "signature" <= key[i..] || "hash" <= key[i..]
  {
    if key in SIGNATURE_FIELDS {
      if key == "signature" || key == "signature_by_old_key" {
        assert "signature" <= key[0..];
      } else if key == "requester_signature" {
        assert "signature" <= key[10..];
      } else {
        assert "signature" <= key[9..];
      }
    } else {
      OmittedHashNames(key);
    }
  }

  lemma OmittedHashNames(key: string)
    requires key in DERIVED_HASH_FIELDS
    ensures exists i | 0 <= i <= |key| :: "hash" <= key[i..]
  {
    if key == "contract_hash" {
      assert "hash" <= key[9..];
    } else if key == "object_hash" {
      assert "hash" <= key[7..];
    } else if key == "event_hash" {
      assert "hash" <= key[6..];
    } else if key == "evidence_record_hash" {
      assert "hash" <= key[16..];
    } else {
      assert "hash" <= key[5..];
    }
  }

  predicate Unsigned(i: int) {
    i == 17 || i == 18 || i == 25
  }

  lemma OnlyThreeOmitted()
    ensures |CONTRACT_KEYS| == 26
    ensures CONTRACT_KEYS[17] == "requester_signature" && CONTRACT_KEYS[18] == "executor_signature"
    ensures CONTRACT_KEYS[25] == "contract_hash"
    ensures forall i | 0 <= i < 26 :: Omitted(CONTRACT_KEYS[i]) <==> Unsigned(i)
  {
  }

  /** All fields but the two signatures and the contract hash stand in what is signed. */
  lemma ContractSigns(c: TaskContract)
    ensures |CONTRACT_KEYS| == 26 && |c.ToMembers()| == 26
    ensures forall i | 0 <= i < 26 :: c.ToMembers()[i].key == CONTRACT_KEYS[i]
    ensures forall i | 0 <= i < 26 ::
              if i == 17 || i == 18 || i == 25 then !HasKey(UnsignedPayload(c.ToMembers()), CONTRACT_KEYS[i])
              else c.ToMembers()[i] in UnsignedPayload(c.ToMembers())
  {
    hide TaskContract.ToMembers, Omitted, UnsignedPayload;
    var ms := c.ToMembers();
    OnlyThreeOmitted();
    ContractKeys(c);
    UnsignedPayloadMembers(ms);
    forall i | 0 <= i < 26
      ensures if i == 17 || i == 18 || i == 25 then !HasKey(UnsignedPayload(ms), CONTRACT_KEYS[i])
              else ms[i] in UnsignedPayload(ms)
    {
      assert ms[i] in ms;
      UnsignedKeys(ms, CONTRACT_KEYS[i]);
    }
  }

  /** The 23 signed fields of two contracts agree, up to key order inside them. */
  ghost predicate SignedFieldsAgree(c: TaskContract, d: TaskContract) {
    FirstFieldsAgree(c, d) && LastFieldsAgree(c, d)
  }

  ghost predicate FirstFieldsAgree(c: TaskContract, d: TaskContract) {
    && Same(c.contractId, d.contractId) && Same(c.requester, d.requester) && Same(c.executor, d.executor)
    && Same(c.capability, d.capability) && Same(c.objective, d.objective) && Same(c.constraints, d.constraints)
    && Same(c.deliverables, d.deliverables) && Same(c.verification, d.verification)
    && Same(c.createdAt, d.createdAt) && Same(c.status, d.status) && Same(c.expiresAt, d.expiresAt)
    && Same(c.economicTerms, d.economicTerms) && Same(c.metadata, d.metadata)
  }

  ghost predicate LastFieldsAgree(c: TaskContract, d: TaskContract) {
    && Same(c.proposalId, d.proposalId) && Same(c.proposalRevision, d.proposalRevision)
    && Same(c.proposalHash, d.proposalHash) && Same(c.sideEffects, d.sideEffects)
    && Same(c.schemaVersion, d.schemaVersion) && Same(c.canonicalization, d.canonicalization)
    && Same(c.signatureSuite, d.signatureSuite) && Same(c.requesterKeyId, d.requesterKeyId)
    && Same(c.executorKeyId, d.executorKeyId) && Same(c.verificationPolicyHash, d.verificationPolicyHash)
  }

  /** Where each of them stands in the dict. */
  lemma FirstPlaces(c: TaskContract)
    ensures |c.ToMembers()| == 26
    ensures var ms := c.ToMembers();
            && ms[0].value == c.contractId && ms[1].value == c.requester && ms[2].value == c.executor
            && ms[3].value == c.capability && ms[4].value == c.objective && ms[5].value == c.constraints
            && ms[6].value == c.deliverables && ms[7].value == c.verification && ms[8].value == c.createdAt
            && ms[9].value == c.status && ms[10].value == c.expiresAt && ms[11].value == c.economicTerms
            && ms[12].value == c.metadata
  {
    hide TaskContract.ToMembers;
    PartyPlaces(c);
    TaskPlaces(c);
    TermPlaces(c);
    TimePlaces(c);
  }

  lemma PartyPlaces(c: TaskContract)
    ensures |c.ToMembers()| == 26
    ensures var ms := c.ToMembers();
            ms[0].value == c.contractId && ms[1].value == c.requester && ms[2].value == c.executor
  {
  }

  lemma TaskPlaces(c: TaskContract)
    ensures |c.ToMembers()| == 26
    ensures var ms := c.ToMembers();
            ms[3].value == c.capability && ms[4].value == c.objective && ms[5].value == c.constraints && ms[6].value == c.deliverables
  {
  }

  lemma TermPlaces(c: TaskContract)
    ensures |c.ToMembers()| == 26
    ensures var ms := c.ToMembers();
            ms[7].value == c.verification && ms[8].value == c.createdAt && ms[9].value == c.status
  {
  }

  lemma TimePlaces(c: TaskContract)
    ensures |c.ToMembers()| == 26
    ensures var ms := c.ToMembers();
            ms[10].value == c.expiresAt && ms[11].value == c.economicTerms && ms[12].value == c.metadata
  {
  }

  lemma FirstAgreeByPlace(c: TaskContract, d: TaskContract)
    ensures |c.ToMembers()| == |d.ToMembers()| == 26
    ensures FirstFieldsAgree(c, d) <==>
            forall i | 0 <= i < 13 :: Same(c.ToMembers()[i].value, d.ToMembers()[i].value)
  {
    hide Same, TaskContract.ToMembers;
    var ms, ns := c.ToMembers(), d.ToMembers();
    FirstPlaces(c);
    FirstPlaces(d);
    if forall i | 0 <= i < 13 :: Same(ms[i].value, ns[i].value) {
      assert Same(ms[0].value, ns[0].value) && Same(ms[1].value, ns[1].value);
      assert Same(ms[2].value, ns[2].value) && Same(ms[3].value, ns[3].value);
      assert Same(ms[4].value, ns[4].value) && Same(ms[5].value, ns[5].value);
      assert Same(ms[6].value, ns[6].value) && Same(ms[7].value, ns[7].value);
      assert Same(ms[8].value, ns[8].value) && Same(ms[9].value, ns[9].value);
      assert Same(ms[10].value, ns[10].value) && Same(ms[11].value, ns[11].value);
      assert Same(ms[12].value, ns[12].value);
    }
    if FirstFieldsAgree(c, d) {
      forall i | 0 <= i < 13
        ensures Same(ms[i].value, ns[i].value)
      {
        assert i == 0 || i == 1 || i == 2 || i == 3 || i == 4 || i == 5 || i == 6 || i == 7 || i == 8 ||
               i == 9 || i == 10 || i == 11 || i == 12;
      }
    }
  }

  lemma LastPlaces(c: TaskContract)
    ensures |c.ToMembers()| == 26
    ensures var ms := c.ToMembers();
            && ms[13].value == c.proposalId && ms[14].value == c.proposalRevision
            && ms[15].value == c.proposalHash && ms[16].value == c.sideEffects
            && ms[19].value == c.schemaVersion && ms[20].value == c.canonicalization
            && ms[21].value == c.signatureSuite && ms[22].value == c.requesterKeyId
            && ms[23].value == c.executorKeyId && ms[24].value == c.verificationPolicyHash
  {
  }

  lemma LastAgreeByPlace(c: TaskContract, d: TaskContract)
    ensures |c.ToMembers()| == |d.ToMembers()| == 26
    ensures LastFieldsAgree(c, d) <==>
            forall i | 13 <= i < 25 && !Unsigned(i) :: Same(c.ToMembers()[i].value, d.ToMembers()[i].value)
  {
    hide Same, TaskContract.ToMembers;
    var ms, ns := c.ToMembers(), d.ToMembers();
    LastPlaces(c);
    LastPlaces(d);
    if forall i | 13 <= i < 25 && !Unsigned(i) :: Same(ms[i].value, ns[i].value) {
      assert Same(ms[13].value, ns[13].value) && Same(ms[14].value, ns[14].value);
      assert Same(ms[15].value, ns[15].value) && Same(ms[16].value, ns[16].value);
      assert Same(ms[19].value, ns[19].value) && Same(ms[20].value, ns[20].value);
      assert Same(ms[21].value, ns[21].value) && Same(ms[22].value, ns[22].value);
      assert Same(ms[23].value, ns[23].value) && Same(ms[24].value, ns[24].value);
    }
    if LastFieldsAgree(c, d) {
      forall i | 13 <= i < 25 && !Unsigned(i)
        ensures Same(ms[i].value, ns[i].value)
      {
        assert i == 13 || i == 14 || i == 15 || i == 16 || i == 19 || i == 20 || i == 21 || i == 22 ||
               i == 23 || i == 24;
      }
    }
  }

  lemma AgreeByPlace(c: TaskContract, d: TaskContract)
    ensures |c.ToMembers()| == |d.ToMembers()| == 26
    ensures SignedFieldsAgree(c, d) <==>
            forall i | 0 <= i < 26 && !Unsigned(i) :: Same(c.ToMembers()[i].value, d.ToMembers()[i].value)
  {
    hide Same, TaskContract.ToMembers, FirstFieldsAgree, LastFieldsAgree;
    FirstAgreeByPlace(c, d);
    LastAgreeByPlace(c, d);
  }

  /** What is signed of two contracts is the same exactly when their 23 fields agree. */
  lemma SamePayloadIff(c: TaskContract, d: TaskContract)
    ensures Same(Obj(UnsignedPayload(c.ToMembers())), Obj(UnsignedPayload(d.ToMembers()))) <==> SignedFieldsAgree(c, d)
  {
    hide TaskContract.ToMembers, UnsignedPayload, Same, SignedFieldsAgree;
    var ms, ns := c.ToMembers(), d.ToMembers();
    var us, vs := UnsignedPayload(ms), UnsignedPayload(ns);
    ContractSigns(c);
    ContractSigns(d);
    AgreeByPlace(c, d);
    if Same(Obj(us), Obj(vs)) {
      forall i | 0 <= i < 26 && !Unsigned(i)
        ensures Same(ms[i].value, ns[i].value)
      {
        SameMembers(us, vs, ms[i], ns[i]);
      }
    }
    if SignedFieldsAgree(c, d) {
      PayloadsAgree(c, d);
    }
  }

  lemma PayloadsAgree(c: TaskContract, d: TaskContract)
    requires SignedFieldsAgree(c, d)
    ensures Same(Obj(UnsignedPayload(c.ToMembers())), Obj(UnsignedPayload(d.ToMembers())))
  {
    hide TaskContract.ToMembers, UnsignedPayload, Same, SignedFieldsAgree, Omitted;
    var ms, ns := c.ToMembers(), d.ToMembers();
    var us, vs := UnsignedPayload(ms), UnsignedPayload(ns);
    AgreeByPlace(c, d);
    ContractKeys(c);
    ContractKeys(d);
    ContractKeysDistinct();
    OnlyThreeOmitted();
    UnsignedPayloadMembers(ms);
    UnsignedPayloadMembers(ns);
    PlacesHaveKeys(ms, ns);
    UnsignedKeysIncluded(ms, ns);
    UnsignedKeysIncluded(ns, ms);
    forall i, j | 0 <= i < |us| && 0 <= j < |vs| && us[i].key == vs[j].key
      ensures Same(us[i].value, vs[j].value)
    {
      assert us[i] in us && vs[j] in vs;
      var a :| 0 <= a < 26 && ms[a] == us[i];
      var b :| 0 <= b < 26 && ns[b] == vs[j];
      assert a == b && !Unsigned(a);
    }
    SameDicts(us, vs);
  }

  lemma PlacesHaveKeys(ms: seq<Member>, ns: seq<Member>)
    requires |ms| == |ns| && forall i | 0 <= i < |ms| :: ms[i].key == ns[i].key
    ensures forall i | 0 <= i < |ms| :: HasKey(ns, ms[i].key)
    ensures forall i | 0 <= i < |ns| :: HasKey(ms, ns[i].key)
  {
  }

  /** Two contracts have one hash exactly when they agree in every field but signatures and hash. */
  lemma OneHashIff(c: TaskContract, d: TaskContract, ff: FloatFormat)
    requires Faithful(ff) && WellFormed(Obj(c.ToMembers())) && WellFormed(Obj(d.ToMembers()))
    requires FiniteNumbers(Obj(c.ToMembers())) && FiniteNumbers(Obj(d.ToMembers()))
    ensures ObjectHash(c.ToMembers(), ff) == ObjectHash(d.ToMembers(), ff) <==> SignedFieldsAgree(c, d)
  {
    hide TaskContract.ToMembers, UnsignedPayload, Same, SignedFieldsAgree, WellFormed, FiniteNumbers;
    HashMeansSame(c.ToMembers(), d.ToMembers(), ff);
    SamePayloadIff(c, d);
  }

  // --------------------------------------------------- the delivery check

  /**
   * The check, for every value in the place of a contract: none at all is admitted, as is
   * anything with a proposal; otherwise a dict is admitted exactly when both signatures are
   * there and the executor's verifies, and it counts as unsigned exactly when one is missing.
   */
  lemma GateMeans(publicKey: string, contractRaw: Value, capability: string, ff: FloatFormat)
    ensures !Truthy(contractRaw) || capability == "task.propose" ==> Gate(publicKey, contractRaw, capability, ff) == Admitted
    ensures Truthy(contractRaw) && capability != "task.propose" && !contractRaw.Obj? ==>
              Gate(publicKey, contractRaw, capability, ff) == GateRaised
    ensures Truthy(contractRaw) && capability != "task.propose" && contractRaw.Obj? ==>
              var ms := contractRaw.members;
              var signed := Truthy(At(ms, "requester_signature")) && Truthy(At(ms, "executor_signature"));
              && (Gate(publicKey, contractRaw, capability, ff) == UnsignedContract <==> !signed)
              && (Gate(publicKey, contractRaw, capability, ff) == Admitted <==>
                  && signed && At(ms, "executor_signature").Str?
                  && VerifyObject(publicKey, ms, At(ms, "executor_signature").s, ff) == Success(true))
              && (Gate(publicKey, contractRaw, capability, ff) == SignatureMismatch <==>
                  && signed && At(ms, "executor_signature").Str?
                  && VerifyObject(publicKey, ms, At(ms, "executor_signature").s, ff) == Success(false))
  {
  }

  /** An offer that nobody countersigned is not admitted. */
  lemma OfferAloneIsUnsigned(w: World, executor: Party, capability: string, c: TaskContract)
    requires c.requesterSignature.Null? && capability != "task.propose"
    ensures Gate(executor.key, Obj(c.ToMembers()), capability, w.ff) == UnsignedContract
  {
    ContractLayout(c, c);
    ContractEntries(c);
    GetAt(c.ToMembers(), 17);
    hide TaskContract.ToMembers;
  }

  /** What is admitted with the executor's signature over `c` has the value of `c` in each of the 23 fields. */
  lemma AdmittedAgrees(w: World, executor: Party, capability: string, c: TaskContract, d: TaskContract)
    requires Faithful(w.ff) && SignedBy(w, executor, c.executorSignature, c)
    requires WellFormed(Obj(c.ToMembers())) && FiniteNumbers(Obj(c.ToMembers()))
    requires WellFormed(Obj(d.ToMembers())) && FiniteNumbers(Obj(d.ToMembers()))
    requires d.executorSignature == c.executorSignature && capability != "task.propose"
    ensures Gate(executor.key, Obj(d.ToMembers()), capability, w.ff) == Admitted <==>
            Truthy(d.requesterSignature) && SignedFieldsAgree(c, d)
  {
    hide UnsignedPayload, Same, WellFormed, FiniteNumbers, SignedFieldsAgree;
    var ns := d.ToMembers();
    ContractLayout(d, d);
    ContractEntries(d);
    GetAt(ns, 17);
    GetAt(ns, 18);
    assert ns != [];
    hide TaskContract.ToMembers;
    SignaturesAreNotEmpty(w, executor, c.executorSignature, c);
    SamePayloadIff(c, d);
    if Truthy(d.requesterSignature) {
      GateAdmitsWhatWasSigned(w, executor, capability, c, ns);
    }
  }

  // -------------------------------------------------------------- proposals

  /** Two proposals have one hash exactly when they agree in every field but the signature. */
  ghost predicate ProposalsAgree(p: TaskProposal, q: TaskProposal) {
    && Same(p.proposalId, q.proposalId) && Same(p.revision, q.revision) && Same(p.requester, q.requester)
    && Same(p.target, q.target) && Same(p.capability, q.capability) && Same(p.objective, q.objective)
    && Same(p.constraints, q.constraints) && Same(p.deliverables, q.deliverables)
    && Same(p.verification, q.verification) && Same(p.sideEffects, q.sideEffects)
    && Same(p.expiresAt, q.expiresAt) && Same(p.idempotencyKey, q.idempotencyKey)
  }

  lemma ProposalFieldPlaces(p: TaskProposal)
    ensures |p.ToMembers()| == 13
    ensures var ms := p.ToMembers();
            && ms[0].value == p.proposalId && ms[1].value == p.revision && ms[2].value == p.requester
            && ms[3].value == p.target && ms[4].value == p.capability && ms[5].value == p.objective
            && ms[6].value == p.constraints && ms[7].value == p.deliverables && ms[8].value == p.verification
            && ms[9].value == p.sideEffects && ms[10].value == p.expiresAt && ms[11].value == p.idempotencyKey
            && ms[12].value == p.signature
  {
  }

  lemma ProposalPlaces(p: TaskProposal, q: TaskProposal)
    requires |p.ToMembers()| == |q.ToMembers()| == 13
    requires forall i | 0 <= i < 12 :: Same(p.ToMembers()[i].value, q.ToMembers()[i].value)
    ensures ProposalsAgree(p, q)
  {
    hide Same, TaskProposal.ToMembers;
    var ms, ns := p.ToMembers(), q.ToMembers();
    ProposalFieldPlaces(p);
    ProposalFieldPlaces(q);
    assert Same(ms[0].value, ns[0].value) && Same(ms[1].value, ns[1].value);
    assert Same(ms[2].value, ns[2].value) && Same(ms[3].value, ns[3].value);
    assert Same(ms[4].value, ns[4].value) && Same(ms[5].value, ns[5].value);
    assert Same(ms[6].value, ns[6].value) && Same(ms[7].value, ns[7].value);
    assert Same(ms[8].value, ns[8].value) && Same(ms[9].value, ns[9].value);
    assert Same(ms[10].value, ns[10].value) && Same(ms[11].value, ns[11].value);
  }

  lemma OneProposalHash(p: TaskProposal, q: TaskProposal, ff: FloatFormat)
    requires Faithful(ff) && WellFormed(Obj(p.ToMembers())) && WellFormed(Obj(q.ToMembers()))
    requires FiniteNumbers(Obj(p.ToMembers())) && FiniteNumbers(Obj(q.ToMembers()))
    requires ObjectHash(p.ToMembers(), ff) == ObjectHash(q.ToMembers(), ff)
    ensures ProposalsAgree(p, q)
  {
    hide TaskProposal.ToMembers, UnsignedPayload, Same, ProposalsAgree, WellFormed, FiniteNumbers, Omitted;
    var ms, ns := p.ToMembers(), q.ToMembers();
    HashMeansSame(ms, ns, ff);
    OnlySignatureOmitted();
    ProposalKeys(p);
    ProposalKeys(q);
    UnsignedPayloadMembers(ms);
    UnsignedPayloadMembers(ns);
    forall i | 0 <= i < 12
      ensures Same(ms[i].value, ns[i].value)
    {
      assert ms[i] in ms && ns[i] in ns;
      SameMembers(UnsignedPayload(ms), UnsignedPayload(ns), ms[i], ns[i]);
    }
    ProposalPlaces(p, q);
  }

  // ------------------------------------------------------ names on the wire

  /** Under which name each field of a contract is found in its dict. */
  lemma ContractNames(c: TaskContract)
    ensures var ms := c.ToMembers();
            && At(ms, "contract_id") == c.contractId && At(ms, "requester") == c.requester
            && At(ms, "executor") == c.executor && At(ms, "capability") == c.capability
            && At(ms, "objective") == c.objective && At(ms, "constraints") == c.constraints
            && At(ms, "deliverables") == c.deliverables && At(ms, "verification") == c.verification
            && At(ms, "created_at") == c.createdAt && At(ms, "status") == c.status
            && At(ms, "expires_at") == c.expiresAt && At(ms, "economic_terms") == c.economicTerms
            && At(ms, "metadata") == c.metadata && At(ms, "proposal_id") == c.proposalId
            && At(ms, "proposal_revision") == c.proposalRevision && At(ms, "proposal_hash") == c.proposalHash
            && At(ms, "side_effects") == c.sideEffects && At(ms, "requester_signature") == c.requesterSignature
            && At(ms, "executor_signature") == c.executorSignature && At(ms, "schema_version") == c.schemaVersion
            && At(ms, "canonicalization") == c.canonicalization && At(ms, "signature_suite") == c.signatureSuite
            && At(ms, "requester_key_id") == c.requesterKeyId && At(ms, "executor_key_id") == c.executorKeyId
            && At(ms, "verification_policy_hash") == c.verificationPolicyHash && At(ms, "contract_hash") == c.contractHash
  {
    hide TaskContract.ToMembers, At;
    var ms := c.ToMembers();
    KeyNames();
    FirstPlaces(c);
    LastPlaces(c);
    SignaturePlaces(c);
    ContractKeys(c);
    ContractLayout(c, c);
    forall i | 0 <= i < 26
      ensures At(ms, CONTRACT_KEYS[i]) == ms[i].value
    {
      AtPlace(ms, i);
    }
    assert At(ms, CONTRACT_KEYS[0]) == ms[0].value && At(ms, CONTRACT_KEYS[1]) == ms[1].value &&
           At(ms, CONTRACT_KEYS[2]) == ms[2].value;
    assert At(ms, CONTRACT_KEYS[3]) == ms[3].value && At(ms, CONTRACT_KEYS[4]) == ms[4].value &&
           At(ms, CONTRACT_KEYS[5]) == ms[5].value;
    assert At(ms, CONTRACT_KEYS[6]) == ms[6].value && At(ms, CONTRACT_KEYS[7]) == ms[7].value &&
           At(ms, CONTRACT_KEYS[8]) == ms[8].value;
    assert At(ms, CONTRACT_KEYS[9]) == ms[9].value && At(ms, CONTRACT_KEYS[10]) == ms[10].value &&
           At(ms, CONTRACT_KEYS[11]) == ms[11].value;
    assert At(ms, CONTRACT_KEYS[12]) == ms[12].value && At(ms, CONTRACT_KEYS[13]) == ms[13].value &&
           At(ms, CONTRACT_KEYS[14]) == ms[14].value;
    assert At(ms, CONTRACT_KEYS[15]) == ms[15].value && At(ms, CONTRACT_KEYS[16]) == ms[16].value &&
           At(ms, CONTRACT_KEYS[17]) == ms[17].value;
    assert At(ms, CONTRACT_KEYS[18]) == ms[18].value && At(ms, CONTRACT_KEYS[19]) == ms[19].value &&
           At(ms, CONTRACT_KEYS[20]) == ms[20].value;
    assert At(ms, CONTRACT_KEYS[21]) == ms[21].value && At(ms, CONTRACT_KEYS[22]) == ms[22].value &&
           At(ms, CONTRACT_KEYS[23]) == ms[23].value;
    assert At(ms, CONTRACT_KEYS[24]) == ms[24].value && At(ms, CONTRACT_KEYS[25]) == ms[25].value;
  }

  lemma SignaturePlaces(c: TaskContract)
    ensures |c.ToMembers()| == 26
    ensures c.ToMembers()[17].value == c.requesterSignature && c.ToMembers()[18].value == c.executorSignature
    ensures c.ToMembers()[25].value == c.contractHash
  {
  }

  lemma KeyNames()
    ensures |CONTRACT_KEYS| == 26
    ensures CONTRACT_KEYS[0] == "contract_id" && CONTRACT_KEYS[1] == "requester" && CONTRACT_KEYS[2] == "executor"
    ensures CONTRACT_KEYS[3] == "capability" && CONTRACT_KEYS[4] == "objective" && CONTRACT_KEYS[5] == "constraints"
    ensures CONTRACT_KEYS[6] == "deliverables" && CONTRACT_KEYS[7] == "verification" && CONTRACT_KEYS[8] == "created_at"
    ensures CONTRACT_KEYS[9] == "status" && CONTRACT_KEYS[10] == "expires_at" && CONTRACT_KEYS[11] == "economic_terms"
    ensures CONTRACT_KEYS[12] == "metadata" && CONTRACT_KEYS[13] == "proposal_id" && CONTRACT_KEYS[14] == "proposal_revision"
    ensures CONTRACT_KEYS[15] == "proposal_hash" && CONTRACT_KEYS[16] == "side_effects"
    ensures CONTRACT_KEYS[17] == "requester_signature"
    ensures CONTRACT_KEYS[18] == "executor_signature" && CONTRACT_KEYS[19] == "schema_version"
    ensures CONTRACT_KEYS[20] == "canonicalization"
    ensures CONTRACT_KEYS[21] == "signature_suite" && CONTRACT_KEYS[22] == "requester_key_id"
    ensures CONTRACT_KEYS[23] == "executor_key_id"
    ensures CONTRACT_KEYS[24] == "verification_policy_hash" && CONTRACT_KEYS[25] == "contract_hash"
  {
  }

  lemma ProposalNames(p: TaskProposal)
    ensures var ms := p.ToMembers();
            && At(ms, "proposal_id") == p.proposalId && At(ms, "revision") == p.revision && At(ms, "requester") == p.requester
            && At(ms, "target") == p.target && At(ms, "capability") == p.capability && At(ms, "objective") == p.objective
            && At(ms, "constraints") == p.constraints && At(ms, "deliverables") == p.deliverables && At(ms, "verification") == p.verification
            && At(ms, "side_effects") == p.sideEffects && At(ms, "expires_at") == p.expiresAt && At(ms, "idempotency_key") == p.idempotencyKey
            && At(ms, "signature") == p.signature
  {
    hide TaskProposal.ToMembers, At;
    var ms := p.ToMembers();
    ProposalKeyNames();
    ProposalFieldPlaces(p);
    ProposalKeys(p);
    ProposalLayout(p, p);
    forall i | 0 <= i < 13
      ensures At(ms, PROPOSAL_KEYS[i]) == ms[i].value
    {
      AtPlace(ms, i);
    }
    assert At(ms, PROPOSAL_KEYS[0]) == ms[0].value && At(ms, PROPOSAL_KEYS[1]) == ms[1].value &&
           At(ms, PROPOSAL_KEYS[2]) == ms[2].value;
    assert At(ms, PROPOSAL_KEYS[3]) == ms[3].value && At(ms, PROPOSAL_KEYS[4]) == ms[4].value &&
           At(ms, PROPOSAL_KEYS[5]) == ms[5].value;
    assert At(ms, PROPOSAL_KEYS[6]) == ms[6].value && At(ms, PROPOSAL_KEYS[7]) == ms[7].value &&
           At(ms, PROPOSAL_KEYS[8]) == ms[8].value;
    assert At(ms, PROPOSAL_KEYS[9]) == ms[9].value && At(ms, PROPOSAL_KEYS[10]) == ms[10].value &&
           At(ms, PROPOSAL_KEYS[11]) == ms[11].value;
    assert At(ms, PROPOSAL_KEYS[12]) == ms[12].value;
  }

  lemma AtPlace(ms: seq<Member>, i: nat)
    requires DistinctKeys(ms) && i < |ms|
    ensures At(ms, ms[i].key) == ms[i].value
  {
    GetAt(ms, i);
  }

  lemma ProposalKeyNames()
    ensures |PROPOSAL_KEYS| == 13
    ensures PROPOSAL_KEYS[0] == "proposal_id" && PROPOSAL_KEYS[1] == "revision" && PROPOSAL_KEYS[2] == "requester"
    ensures PROPOSAL_KEYS[3] == "target" && PROPOSAL_KEYS[4] == "capability" && PROPOSAL_KEYS[5] == "objective"
    ensures PROPOSAL_KEYS[6] == "constraints" && PROPOSAL_KEYS[7] == "deliverables" && PROPOSAL_KEYS[8] == "verification"
    ensures PROPOSAL_KEYS[9] == "side_effects" && PROPOSAL_KEYS[10] == "expires_at" && PROPOSAL_KEYS[11] == "idempotency_key"
    ensures PROPOSAL_KEYS[12] == "signature"
  {
  }

  /** `from_dict` needs the nine fields without a default, and fills in the others. */
  lemma ContractDefaults(ms: seq<Member>)
    ensures TaskContract.FromMembers(ms).Some? <==> forall i | 0 <= i < 9 :: Get(ms, CONTRACT_KEYS[i]).Some?
    ensures TaskContract.FromMembers(ms).Some? ==>
              var c := TaskContract.FromMembers(ms).value;
              && (Get(ms, "status").None? ==> c.status == Str("SIGNED"))
              && (Get(ms, "metadata").None? ==> c.metadata == Obj([]))
              && (Get(ms, "side_effects").None? ==> c.sideEffects == Str("NONE"))
              && (Get(ms, "schema_version").None? ==> c.schemaVersion == Str("0.2"))
              && (Get(ms, "canonicalization").None? ==> c.canonicalization == Str("agent-json-v0.1"))
              && (Get(ms, "signature_suite").None? ==> c.signatureSuite == Str("ed25519-sha256-v1"))
              && (Get(ms, "requester_signature").None? ==> c.requesterSignature == Null)
              && (Get(ms, "executor_signature").None? ==> c.executorSignature == Null)
  {
    KeyNames();
    hide Get;
    if TaskContract.FromMembers(ms).Some? {
      forall i | 0 <= i < 9
        ensures Get(ms, CONTRACT_KEYS[i]).Some?
      {
        assert i == 0 || i == 1 || i == 2 || i == 3 || i == 4 || i == 5 || i == 6 || i == 7 || i == 8;
      }
    }
    if forall i | 0 <= i < 9 :: Get(ms, CONTRACT_KEYS[i]).Some? {
      assert Get(ms, CONTRACT_KEYS[0]).Some? && Get(ms, CONTRACT_KEYS[1]).Some? && Get(ms, CONTRACT_KEYS[2]).Some?;
      assert Get(ms, CONTRACT_KEYS[3]).Some? && Get(ms, CONTRACT_KEYS[4]).Some? && Get(ms, CONTRACT_KEYS[5]).Some?;
      assert Get(ms, CONTRACT_KEYS[6]).Some? && Get(ms, CONTRACT_KEYS[7]).Some? && Get(ms, CONTRACT_KEYS[8]).Some?;
    }
  }
}
