/**
 * What a settled contract says, in terms of what the requester asked for: the fields of the
 * proposal as the executor reads them, and the fields of the contract built from it.
 */
module Terms {
  import opened Wrappers
  import opened Json
  import opened JsonText
  import opened Transport
  import opened Crypto
  import opened Records
  import opened Python
  import opened Negotiation
  import opened NegotiationProofs
  import opened ContractFields
  import Quorum

  // ----------------------------------------------- the proposal on arrival

  /** Each field of `q` is what a hop makes of that field of `p`. */
  ghost predicate ProposalArrives(p: TaskProposal, q: TaskProposal) {
    && Hop(p.proposalId, q.proposalId) && Hop(p.revision, q.revision) && Hop(p.requester, q.requester)
    && Hop(p.target, q.target) && Hop(p.capability, q.capability) && Hop(p.objective, q.objective)
    && Hop(p.constraints, q.constraints) && Hop(p.deliverables, q.deliverables)
    && Hop(p.verification, q.verification) && Hop(p.sideEffects, q.sideEffects)
    && Hop(p.expiresAt, q.expiresAt) && Hop(p.idempotencyKey, q.idempotencyKey)
  }

  /** The executor reads every field from the delivered copy, and none from another place. */
  lemma ProposalIsReadAsSent(w: World, executor: Party, p: TaskProposal, body: seq<Member>, metadata: seq<Member>,
                             copy: seq<Member>, freshId: string, q: TaskProposal)
    requires p.capability.Obj? && At(metadata, "proposal") == Obj(copy) && Hop(Obj(p.ToMembers()), Obj(copy))
    requires ReadProposal(w, executor, ProposalRaw(body, metadata), metadata, freshId) == Some(q)
    ensures ProposalArrives(p, q)
  {
    hide TaskProposal.ToMembers, TaskProposal.FromMembers, ReadProposal, Hop, ProposalRaw, ProposalArrives;
    var ms, ns := p.ToMembers(), q.ToMembers();
    var raw := ProposalRaw(body, metadata);
    ProposalKeysArrive(p, Obj(copy));
    HopIsClean(Obj(ms), Obj(copy));
    DictDistinct(copy);
    ReadFromCopy(w, executor, body, metadata, copy, freshId, q);
    ProposalReads(raw, q);
    ProposalLayout(p, q);
    ProposalKeys(p);
    forall i | 0 <= i < 12
      ensures Hop(ms[i].value, ns[i].value)
    {
      GetAt(ms, i);
      HopOfMember(ms, Obj(copy), PROPOSAL_KEYS[i]);
    }
    ArrivesByPlace(p, q);
  }

  lemma ArrivesByPlace(p: TaskProposal, q: TaskProposal)
    requires |p.ToMembers()| == |q.ToMembers()| == 13
    requires forall i | 0 <= i < 12 :: Hop(p.ToMembers()[i].value, q.ToMembers()[i].value)
    ensures ProposalArrives(p, q)
  {
    hide Hop, TaskProposal.ToMembers;
    var ms, ns := p.ToMembers(), q.ToMembers();
    ProposalFieldPlaces(p);
    ProposalFieldPlaces(q);
    assert Hop(ms[0].value, ns[0].value) && Hop(ms[1].value, ns[1].value);
    assert Hop(ms[2].value, ns[2].value) && Hop(ms[3].value, ns[3].value);
    assert Hop(ms[4].value, ns[4].value) && Hop(ms[5].value, ns[5].value);
    assert Hop(ms[6].value, ns[6].value) && Hop(ms[7].value, ns[7].value);
    assert Hop(ms[8].value, ns[8].value) && Hop(ms[9].value, ns[9].value);
    assert Hop(ms[10].value, ns[10].value) && Hop(ms[11].value, ns[11].value);
  }

  // ------------------------------------------------ the contract from it

  /** The contract names the two parties and says what was asked for, field by field. */
  ghost predicate NamesParties(c: TaskContract, requester: Party, executor: Party, contractId: string, now: string,
                        proposalId: string, capability: string, objective: string, sideEffects: string)
  {
    && c.contractId == Str(contractId) && c.createdAt == Str(now) && c.status == Str("SIGNED")
    && c.requester == Str(requester.agentId) && c.requesterKeyId == Str(requester.keyId)
    && c.executor == Str(executor.agentId) && c.executorKeyId == Str(executor.keyId)
    && c.capability == Str(capability) && c.objective == Str(objective) && c.sideEffects == Str(sideEffects)
    && c.proposalId == Str(proposalId) && c.proposalRevision == Int(1)
    && c.expiresAt == Null && c.economicTerms == Null
  }

  /** The lists, the policy and the task's metadata are what a hop made of those asked for. */
  ghost predicate Carried(c: TaskContract, constraints: Value, deliverables: Value, policy: Value, taskMetadata: Value) {
    && Hop(constraints, c.constraints) && Hop(deliverables, c.deliverables)
    && Hop(policy, c.verification) && Hop(taskMetadata, c.metadata)
  }

  lemma TextHops(s: string, received: Value)
    requires Hop(Str(s), received)
    ensures received == Str(s)
  {
  }

  lemma AtomHops(received: Value)
    ensures Hop(Int(1), received) ==> received == Int(1)
    ensures Hop(Null, received) ==> received == Null
  {
    ExactBelow53(1);
  }

  lemma ListHops(sent: Value, received: Value)
    requires Hop(sent, received) && sent.Arr?
    ensures ListOf(received) == Some(received)
  {
  }

  /** A non-empty dict stays one over a hop. */
  lemma DictHops(sent: Value, received: Value)
    requires Hop(sent, received) && sent.Obj?
    ensures received.Obj?
    ensures sent.members != [] ==> Truthy(received)
    ensures DictOf(received) == Some(received)
  {
    var wire :| WellFormed(wire) && Same(ToStruct(sent), wire) && received == Restore(wire);
    SameTruth(ToStruct(sent), wire);
  }

  lemma CapabilityIdHops(capability: string, version: string, received: Value)
    requires Hop(CapabilityRef(Str(capability), Str(version)), received)
    ensures received.Obj? && Get(received.members, "id") == Some(Str(capability))
  {
    var ms := CapabilityRef(Str(capability), Str(version)).members;
    assert ms[0] == Member("id", Str(capability));
    assert Get(ms, "id") == Some(Str(capability));
    hide Hop, CapabilityRef;
    HopOfMember(ms, received, "id");
    TextHops(capability, Get(received.members, "id").value);
  }

  /** The names in the offered contract are those that the requester's caller gave. */
  lemma OfferNames(w: World, requester: Party, executor: Party, p: TaskProposal, raw: seq<Member>, metadata: seq<Member>,
                   q: TaskProposal, contractId: string, now: string, c: TaskContract, proposalId: string,
                   capability: string, version: string, objective: string, sideEffects: string)
    requires Shaped(w, executor, raw, metadata, q, contractId, now, c) && ProposalArrives(p, q)
    requires p.proposalId == Str(proposalId) && p.revision == Int(1) && p.requester == Str(requester.agentId)
    requires p.capability == CapabilityRef(Str(capability), Str(version)) && p.objective == Str(objective)
    requires p.sideEffects == Str(sideEffects)
    requires At(metadata, "requester_key_id") == Str(requester.keyId) && Get(raw, "requester_key_id").None?
    ensures NamesParties(c, requester, executor, contractId, now, proposalId, capability, objective, sideEffects)
  {
    hide Hop, ListOf, DictOf, Quorum.PolicyHash, CapabilityRef, TaskProposal.ToMembers;
    TextHops(proposalId, q.proposalId);
    TextHops(requester.agentId, q.requester);
    TextHops(objective, q.objective);
    TextHops(sideEffects, q.sideEffects);
    AtomHops(q.revision);
    CapabilityIdHops(capability, version, q.capability);
  }

  lemma OfferCarries(w: World, executor: Party, p: TaskProposal, raw: seq<Member>, metadata: seq<Member>,
                     q: TaskProposal, contractId: string, now: string, c: TaskContract, taskMetadata: Value)
    requires Shaped(w, executor, raw, metadata, q, contractId, now, c) && ProposalArrives(p, q)
    requires p.constraints.Arr? && p.deliverables.Arr? && p.verification.Obj? && p.verification.members != []
    requires Get(raw, "metadata").None?
    requires taskMetadata.Obj? && Hop(taskMetadata, At(metadata, "task_metadata"))
    ensures Carried(c, p.constraints, p.deliverables, p.verification, taskMetadata)
  {
    hide Hop, ListOf, DictOf, Quorum.PolicyHash, TaskProposal.ToMembers;
    ListHops(p.constraints, q.constraints);
    ListHops(p.deliverables, q.deliverables);
    DictHops(p.verification, q.verification);
    DictHops(taskMetadata, At(metadata, "task_metadata"));
  }

  // ------------------------------------------- the countersigned contract

  /** The contract that both parties signed has the offered value in each signed field. */
  lemma CountersignedAgrees(w: World, requester: Party, c: TaskContract, d: TaskContract, g: TaskContract)
    requires Same(Obj(c.ToMembers()), Obj(d.ToMembers()))
    requires Countersigned(w, requester, d, g) && d.status == Str("SIGNED")
    ensures SignedFieldsAgree(c, g)
  {
    hide TaskContract.ToMembers, Same, WellFormed, UnsignedPayload, SignedFieldsAgree;
    CountersigningKeepsPayload(w, requester, d, g);
    UnsignedRespectsSame(c.ToMembers(), d.ToMembers());
    SamePayloadIff(c, g);
  }

  /** So it names the same parties and says the same. */
  lemma NamesAgree(c: TaskContract, g: TaskContract, requester: Party, executor: Party, contractId: string, now: string,
                   proposalId: string, capability: string, objective: string, sideEffects: string)
    requires SignedFieldsAgree(c, g)
    ensures NamesParties(c, requester, executor, contractId, now, proposalId, capability, objective, sideEffects) <==>
            NamesParties(g, requester, executor, contractId, now, proposalId, capability, objective, sideEffects)
  {
  }
}
