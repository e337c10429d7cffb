/**
 * Two-party contract negotiation: the requester proposes, the executor builds and signs a
 * contract, the requester rebuilds and countersigns it, the executor checks it on delivery.
 *
 * Foreign calls enter as a `World`: the float format, and `str()` of a value that is not a
 * string.
 */
module Negotiation {
  import opened Wrappers
  import opened Json
  import opened JsonText
  import opened Transport
  import opened Crypto
  import opened Records
  import opened Python
  import Quorum
  import Verifiers

  /** The parts of an `Identity` that negotiation uses; `key` is its public key text. */
  datatype Party = Party(agentId: string, key: string, keyId: string)

  const NOT_REQUIRED: Value := Obj([Member("required", Bool(false))])

  function CapabilityRef(id: Value, version: Value): Value {
    Obj([Member("id", id), Member("version", version)])
  }

  // -------------------------------------------------- building a proposal

  /** `TaskProposal.create`. None: `validate_verification` or `list` raised. */
  function CreateProposal(w: World, proposalId: string, requester: string, target: string, capabilityId: string,
                          version: string, objective: string, constraints: Value, deliverables: Value,
                          verification: Value, sideEffects: string, idempotencyKey: Value): Option<TaskProposal>
  {
    var policy := OrElse(verification, NOT_REQUIRED);
    match (DictOf(policy), ListOf(constraints), ListOf(deliverables))
    case (Some(Obj(ms)), Some(constraintList), Some(deliverableList)) =>
      if Truthy(At(ms, "required")) && Verifiers.Validate(w.str, policy, Str(target)) != Verifiers.Valid then None
      else Some(TaskProposal(
        Str(proposalId), Int(1), Str(requester), Str(target), CapabilityRef(Str(capabilityId), Str(version)),
        Str(objective), constraintList, deliverableList, policy, Str(sideEffects), Null, idempotencyKey, Null))
    case _ => None
  }

  /** The dict that `TaskProposal.from_dict` builds the proposal from. */
  function ProposalPayload(raw: seq<Member>, freshId: string): seq<Member> {
    var p0 := match Get(raw, "capability")
      case Some(Str(id)) =>
        Put(raw, "capability", CapabilityRef(Str(id), OrElse(At(raw, "capability_version"), Str("1.0.0"))))
      case _ => raw;
    var p1 := SetDefault(p0, "proposal_id", Str(freshId));
    var p2 := SetDefault(p1, "revision", Int(1));
    var p3 := SetDefault(p2, "requester", Str(""));
    var p4 := SetDefault(p3, "target", Str(""));
    var p5 := SetDefault(p4, "capability", CapabilityRef(Str(""), Str("1.0.0")));
    SetDefault(p5, "objective", Str(""))
  }

  /** A complete proposal that carries its requester's signature over its own dict. */
  ghost predicate SignedProposal(w: World, me: Party, p: TaskProposal) {
    p.signature.Str? && SignObject(me.key, p.ToMembers(), w.ff) == Success(p.signature.s)
  }

  /** The verification a requester proposes; a required one without a policy gets the default policy. */
  function RequesterPolicy(verification: seq<Member>): (policy: seq<Member>)
    ensures policy != []
    ensures Truthy(At(policy, "required")) ==> Truthy(At(policy, "policy"))
    ensures Truthy(At(policy, "required")) == Truthy(At(verification, "required"))
    ensures Truthy(At(verification, "policy")) && verification != [] ==> policy == verification
    ensures Truthy(At(verification, "required")) && !Truthy(At(verification, "policy")) ==>
              At(policy, "policy") == Str("REQUESTER_SELECTS")
    ensures verification != [] ==> forall key | key != "policy" :: At(policy, key) == At(verification, key)
  {
    PutGet(verification, "policy", Str("REQUESTER_SELECTS"), "policy");
    PutGet(verification, "policy", Str("REQUESTER_SELECTS"), "required");
    assert forall key | key != "policy" ::
        At(Put(verification, "policy", Str("REQUESTER_SELECTS")), key) == At(verification, key) by {
      forall key: string | key != "policy"
        ensures At(Put(verification, "policy", Str("REQUESTER_SELECTS")), key) == At(verification, key)
      {
        PutGet(verification, "policy", Str("REQUESTER_SELECTS"), key);
      }
    }
    if verification == [] then NOT_REQUIRED.members
    else if Truthy(At(verification, "required")) && !Truthy(At(verification, "policy")) then
      Put(verification, "policy", Str("REQUESTER_SELECTS"))
    else verification
  }

  /** The proposal says what its requester was asked to propose. */
  ghost predicate AsAsked(p: TaskProposal, proposalId: string, requester: string, target: string, capability: string,
                          version: string, objective: string, constraints: Value, deliverables: Value,
                          verification: Value, sideEffects: string, idempotencyKey: Value)
  {
    && p.proposalId == Str(proposalId) && p.revision == Int(1)
    && p.requester == Str(requester) && p.target == Str(target)
    && p.capability == Obj([Member("id", Str(capability)), Member("version", Str(version))])
    && p.objective == Str(objective)
    && Some(p.constraints) == ListOf(constraints) && Some(p.deliverables) == ListOf(deliverables)
    && p.verification == verification && p.sideEffects == Str(sideEffects)
    && p.expiresAt == Null && p.idempotencyKey == idempotencyKey
  }

  /** When a proposal can be created, and what it says then. */
  lemma CreatedAsAsked(w: World, proposalId: string, requester: string, target: string, capability: string,
                       version: string, objective: string, constraints: Value, deliverables: Value,
                       policy: seq<Member>, sideEffects: string, idempotencyKey: Value)
    requires policy != []
    ensures var created := CreateProposal(w, proposalId, requester, target, capability, version, objective, constraints,
                                          deliverables, Obj(policy), sideEffects, idempotencyKey);
            && (created.Some? <==>
                && ListOf(constraints).Some? && ListOf(deliverables).Some?
                && (Truthy(At(policy, "required")) ==>
                      Verifiers.Validate(w.str, Obj(policy), Str(target)) == Verifiers.Valid))
            && (created.Some? ==>
                  && AsAsked(created.value, proposalId, requester, target, capability, version, objective, constraints,
                             deliverables, Obj(policy), sideEffects, idempotencyKey)
                  && created.value.signature.Null?)
  {
    hide Verifiers.Validate, ListOf, At;
  }

  /** `Peer.propose_task` up to the first message. None: validation raised, or a NaN was met. */
  method Propose(w: World, me: Party, target: string, capability: string, version: string, objective: string,
                 constraints: Value, deliverables: Value, verification: seq<Member>, sideEffects: string,
                 idempotencyKey: Value, proposalId: string)
    returns (r: Option<TaskProposal>)
    ensures var policy := RequesterPolicy(verification);
            var created := CreateProposal(w, proposalId, me.agentId, target, capability, version, objective,
                                          constraints, deliverables, Obj(policy), sideEffects, idempotencyKey);
            && (r.Some? ==>
                  && created.Some?
                  && r.value == created.value.(signature := r.value.signature)
                  && SignedProposal(w, me, r.value))
            && (r.None? ==> created.None? || SignedBytes(created.value.ToMembers(), w.ff).Failure?)
    ensures r.Some? ==>
              && AsAsked(r.value, proposalId, me.agentId, target, capability, version, objective, constraints,
                         deliverables, Obj(RequesterPolicy(verification)), sideEffects, idempotencyKey)
              && (Truthy(At(verification, "required")) ==>
                    Verifiers.Validate(w.str, r.value.verification, r.value.target) == Verifiers.Valid)
  {
    hide CreateProposal, Verifiers.Validate;
    CreatedAsAsked(w, proposalId, me.agentId, target, capability, version, objective, constraints, deliverables,
                   RequesterPolicy(verification), sideEffects, idempotencyKey);
    var policy := RequesterPolicy(verification);
    var created := CreateProposal(w, proposalId, me.agentId, target, capability, version, objective, constraints,
                                  deliverables, Obj(policy), sideEffects, idempotencyKey);
    if created.None? {
      return None;
    }
    r := SignProposal(w, me, created.value);
  }

  method SignProposal(w: World, me: Party, p: TaskProposal) returns (r: Option<TaskProposal>)
    ensures r.Some? <==> SignedBytes(p.ToMembers(), w.ff).Success?
    ensures r.Some? ==> r.value == p.(signature := r.value.signature) && SignedProposal(w, me, r.value)
  {
    match SignObject(me.key, p.ToMembers(), w.ff)
    case Failure(_) =>
      return None;
    case Success(signature) =>
      ProposalOmits(p, Str(signature));
      return Some(p.(signature := Str(signature)));
  }

  // ---------------------------------------------------------- the executor

  /** A dict without a proposal id is read as a bare request: from the sender, to this executor. */
  lemma BareRequestRead(w: World, me: Party, raw: seq<Member>, metadata: seq<Member>, freshId: string, p: TaskProposal)
    requires Get(raw, "proposal_id").None? && ReadProposal(w, me, raw, metadata, freshId) == Some(p)
    ensures p.proposalId == Str(freshId) && p.revision == Int(1) && p.target == Str(me.agentId)
    ensures p.requester ==
            Str(StrOf(w.str, OrElse(OrElse(At(raw, "requester"), At(metadata, "requester_agent_id")), Str(""))))
    ensures p.capability == Obj([Member("id", Str(StrOf(w.str, CapabilityId(raw)))), Member("version", Str("1.0.0"))])
    ensures p.objective == Str(StrOf(w.str, OrElse(At(raw, "objective"), Str(""))))
    ensures Some(p.constraints) == ListOf(At(raw, "constraints")) && Some(p.deliverables) == ListOf(At(raw, "deliverables"))
    ensures p.verification == OrElse(At(raw, "verification"), NOT_REQUIRED)
    ensures p.sideEffects == Str(StrOf(w.str, OrElse(At(raw, "side_effects"), Str("NONE"))))
    ensures p.expiresAt == Null && p.idempotencyKey == Null && p.signature == Null
  {
    hide ListOf, CapabilityId, Verifiers.Validate;
  }

  lemma SetDefaultGet(ms: seq<Member>, key: string, v: Value, k: string)
    ensures Get(SetDefault(ms, key, v), k) == if k == key && Get(ms, key).None? then Some(v) else Get(ms, k)
  {
    AppendedGet(ms, Member(key, v), k);
  }

  lemma {:induction false} AppendedGet(ms: seq<Member>, m: Member, k: string)
    ensures Get(ms + [m], k) == if Get(ms, k).Some? then Get(ms, k) else if k == m.key then Some(m.value) else None
    decreases |ms|
  {
    if ms != [] && ms[0].key != k {
      assert (ms + [m])[1..] == ms[1..] + [m];
      AppendedGet(ms[1..], m, k);
    }
  }

  /**
   * A dict with a proposal id is taken entry by entry; a capability that is text becomes a
   * reference to it, and what is missing gets its default.
   */
  lemma PayloadEntries(raw: seq<Member>, freshId: string, key: string)
    ensures var entry := Get(ProposalPayload(raw, freshId), key);
            && (Get(raw, key).Some? && !(key == "capability" && At(raw, key).Str?) ==> entry == Get(raw, key))
            && (key == "capability" && At(raw, key).Str? ==>
                  entry == Some(Obj([Member("id", At(raw, key)),
                                     Member("version", OrElse(At(raw, "capability_version"), Str("1.0.0")))])))
            && (Get(raw, key).None? ==>
                  entry == if key == "proposal_id" then Some(Str(freshId))
                           else if key == "revision" then Some(Int(1))
                           else if key == "requester" || key == "target" || key == "objective" then Some(Str(""))
                           else if key == "capability" then Some(Obj([Member("id", Str("")), Member("version", Str("1.0.0"))]))
                           else None)
  {
    var reference := CapabilityRef(At(raw, "capability"), OrElse(At(raw, "capability_version"), Str("1.0.0")));
    PutGet(raw, "capability", reference, key);
    PutGet(raw, "capability", reference, "capability");
    var p0 := match Get(raw, "capability")
      case Some(Str(id)) =>
        Put(raw, "capability", CapabilityRef(Str(id), OrElse(At(raw, "capability_version"), Str("1.0.0"))))
      case _ => raw;
    var p1 := SetDefault(p0, "proposal_id", Str(freshId));
    var p2 := SetDefault(p1, "revision", Int(1));
    var p3 := SetDefault(p2, "requester", Str(""));
    var p4 := SetDefault(p3, "target", Str(""));
    var p5 := SetDefault(p4, "capability", CapabilityRef(Str(""), Str("1.0.0")));
    hide SetDefault, Put, OrElse;
    SetDefaultGet(p0, "proposal_id", Str(freshId), key);
    SetDefaultGet(p1, "revision", Int(1), key);
    SetDefaultGet(p2, "requester", Str(""), key);
    SetDefaultGet(p3, "target", Str(""), key);
    SetDefaultGet(p4, "capability", CapabilityRef(Str(""), Str("1.0.0")), key);
    SetDefaultGet(p5, "objective", Str(""), key);
  }

  /** Which capability a proposal is for: a text, the id of a reference, or else `capability_id`. */
  lemma CapabilityIs(raw: seq<Member>)
    ensures At(raw, "capability").Str? && Truthy(At(raw, "capability")) ==> CapabilityId(raw) == At(raw, "capability")
    ensures At(raw, "capability").Obj? && Truthy(At(At(raw, "capability").members, "id")) ==>
              CapabilityId(raw) == At(At(raw, "capability").members, "id")
    ensures !Truthy(At(raw, "capability")) ==> CapabilityId(raw) == At(raw, "capability_id")
    ensures At(raw, "capability").Obj? && !Truthy(At(At(raw, "capability").members, "id")) ==>
              CapabilityId(raw) == At(raw, "capability_id")
  {
    if At(raw, "capability") == Obj([]) {
      assert At([], "id") == Null;
    }
  }

  /** Everything the executor reads from a proposal message. */
  function Request(raw: seq<Member>, metadata: seq<Member>): Value {
    Arr([Obj(raw), Obj(metadata)])
  }

  datatype ProposeOutcome =
    | Unsupported
    | AcceptBare
    | Rejected
    | Offer(contract: TaskContract, proposal: TaskProposal)
    | Raised

  /** The first data part, overridden by the proposal in the metadata. */
  function ProposalRaw(body: seq<Member>, metadata: seq<Member>): seq<Member> {
    match At(metadata, "proposal")
    case Obj(ps) => Update(body, ps)
    case _ => body
  }

  function CapabilityId(raw: seq<Member>): Value {
    var id := match At(raw, "capability")
      case Obj(ms) => At(ms, "id")
      case other => other;
    OrElse(id, At(raw, "capability_id"))
  }

  function ReadProposal(w: World, me: Party, raw: seq<Member>, metadata: seq<Member>, freshId: string): Option<TaskProposal>
  {
    if Get(raw, "proposal_id").Some? then TaskProposal.FromMembers(ProposalPayload(raw, freshId))
    else CreateProposal(
      w, freshId, StrOf(w.str, OrElse(OrElse(At(raw, "requester"), At(metadata, "requester_agent_id")), Str(""))),
      me.agentId, StrOf(w.str, CapabilityId(raw)), "1.0.0", StrOf(w.str, OrElse(At(raw, "objective"), Str(""))),
      At(raw, "constraints"), At(raw, "deliverables"), At(raw, "verification"),
      StrOf(w.str, OrElse(At(raw, "side_effects"), Str("NONE"))), Null)
  }

  /** Everything the signed contract says, each field from the proposal or the request. */
  ghost predicate Shaped(w: World, me: Party, raw: seq<Member>, metadata: seq<Member>, p: TaskProposal,
                         contractId: string, now: string, c: TaskContract)
  {
    && c.contractId == Str(contractId) && c.createdAt == Str(now)
    && c.requester == p.requester && c.executor == Str(me.agentId)
    && p.capability.Obj? && Get(p.capability.members, "id") == Some(c.capability)
    && c.objective == p.objective
    && ListOf(p.constraints) == Some(c.constraints) && ListOf(p.deliverables) == Some(c.deliverables)
    && c.verification == OrElse(p.verification, NOT_REQUIRED)
    && DictOf(OrElse(At(raw, "metadata"), At(metadata, "task_metadata"))) == Some(c.metadata)
    && c.proposalId == p.proposalId && c.proposalRevision == p.revision && c.sideEffects == p.sideEffects
    && c.status == Str("SIGNED") && c.requesterSignature.Null? && c.expiresAt.Null? && c.economicTerms.Null?
    && c.schemaVersion == Str("0.2") && c.canonicalization == Str("agent-json-v0.1")
    && c.signatureSuite == Str("ed25519-sha256-v1")
    && c.executorKeyId == Str(me.keyId)
    && c.requesterKeyId ==
       Str(StrOf(w.str, OrElse(OrElse(At(metadata, "requester_key_id"), At(raw, "requester_key_id")), Str(""))))
    && c.verificationPolicyHash.Str? && Quorum.PolicyHash(p.verification, w.ff) == Some(c.verificationPolicyHash.s)
    && c.proposalHash.Str? && ObjectHash(p.ToMembers(), w.ff) == Success(c.proposalHash.s)
  }

  /** A contract with the executor's signature over it, and its own hash. */
  ghost predicate Offered(w: World, me: Party, raw: seq<Member>, metadata: seq<Member>, p: TaskProposal,
                          contractId: string, now: string, c: TaskContract)
  {
    && Shaped(w, me, raw, metadata, p, contractId, now, c)
    && SignedBy(w, me, c.executorSignature, c)
    && c.contractHash.Str? && ObjectHash(c.ToMembers(), w.ff) == Success(c.contractHash.s)
  }

  /** `signature` is the party's signature over the contract's own dict. */
  ghost predicate SignedBy(w: World, me: Party, signature: Value, c: TaskContract) {
    signature.Str? && SignObject(me.key, c.ToMembers(), w.ff) == Success(signature.s)
  }

  /** What building a contract needs; anything else is a TypeError, KeyError, AttributeError or ValueError. */
  ghost predicate Buildable(raw: seq<Member>, metadata: seq<Member>, p: TaskProposal) {
    ShapesFit(raw, metadata, p) && Quorum.PolicyReadable(p.verification)
  }

  ghost predicate ShapesFit(raw: seq<Member>, metadata: seq<Member>, p: TaskProposal) {
    && p.capability.Obj? && Get(p.capability.members, "id").Some?
    && ListOf(p.constraints).Some? && ListOf(p.deliverables).Some?
    && DictOf(OrElse(At(raw, "metadata"), At(metadata, "task_metadata"))).Some?
  }

  /** A missing verification and the default that replaces it have the same hash. */
  lemma DefaultHashesAlike(v: Value, ff: FloatFormat)
    ensures Quorum.PolicyHash(OrElse(v, NOT_REQUIRED), ff) == Quorum.PolicyHash(v, ff)
  {
    if !Truthy(v) {
      assert !Truthy(At(NOT_REQUIRED.members, "required"));
    }
  }

  /** `TaskContract.create`. None: `policy_hash`, `list` or `dict` raised. */
  method CreateContract(w: World, contractId: string, now: string, requester: Value, executor: Value,
                        capability: Value, objective: Value, constraints: Value, deliverables: Value,
                        verification: Value, metadata: Value)
    returns (r: Option<TaskContract>)
    ensures r.Some? <==>
            && ListOf(constraints).Some? && ListOf(deliverables).Some? && DictOf(metadata).Some?
            && Quorum.PolicyHash(verification, w.ff).Some?
    ensures r.Some? ==>
              r.value == TaskContract(
                Str(contractId), requester, executor, capability, objective, ListOf(constraints).value,
                ListOf(deliverables).value, OrElse(verification, NOT_REQUIRED), Str(now), Str("SIGNED"), Null, Null,
                DictOf(metadata).value, Null, Null, Null, Str("NONE"), Null, Null, Str("0.2"), Str("agent-json-v0.1"),
                Str("ed25519-sha256-v1"), Null, Null, Str(Quorum.PolicyHash(verification, w.ff).value), Null)
  {
    DefaultHashesAlike(verification, w.ff);
    hide Quorum.PolicyHash;
    var policy := OrElse(verification, NOT_REQUIRED);
    match (ListOf(constraints), ListOf(deliverables), DictOf(metadata), Quorum.PolicyHash(policy, w.ff))
    case (Some(cs), Some(ds), Some(m), Some(hash)) =>
      return Some(TaskContract(
        Str(contractId), requester, executor, capability, objective, cs, ds, policy, Str(now),
        Str("SIGNED"), Null, Null, m, Null, Null, Null, Str("NONE"), Null, Null, Str("0.2"),
        Str("agent-json-v0.1"), Str("ed25519-sha256-v1"), Null, Null, Str(hash), Null));
    case _ =>
      return None;
  }

  /** `A2AServer._handle_propose`. */
  method HandlePropose(w: World, me: Party, workHandlers: set<string>, body: seq<Member>, metadata: seq<Member>,
                       freshId: string, contractId: string, now: string)
    returns (r: ProposeOutcome)
    ensures var raw := ProposalRaw(body, metadata);
            var id := CapabilityId(raw);
            && (r.AcceptBare? <==> !Truthy(id))
            && (r.Unsupported? <==> Truthy(id) && !id.Arr? && !id.Obj? && !(id.Str? && id.s in workHandlers))
            && var read := ReadProposal(w, me, raw, metadata, freshId);
               var accepted := Truthy(id) && id.Str? && id.s in workHandlers && read.Some?;
               && (r.Rejected? <==> accepted && At(metadata, "action") == Str("REJECT"))
               && (r.Offer? ==>
                     && accepted && At(metadata, "action") != Str("REJECT")
                     && r.proposal == read.value
                     && Buildable(raw, metadata, r.proposal)
                     && Offered(w, me, raw, metadata, r.proposal, contractId, now, r.contract))
               && (accepted && At(metadata, "action") != Str("REJECT") && Buildable(raw, metadata, read.value) &&
                   Clean(Request(raw, metadata))
                   ==> r.Offer?)
  {
    var raw := ProposalRaw(body, metadata);
    var id := CapabilityId(raw);
    if Truthy(id) && (id.Arr? || id.Obj?) {
      return Raised;
    }
    if Truthy(id) && !(id.Str? && id.s in workHandlers) {
      return Unsupported;
    }
    if !Truthy(id) {
      return AcceptBare;
    }
    var read := ReadProposal(w, me, raw, metadata, freshId);
    if read.None? {
      return Raised;
    }
    var p := read.value;
    if At(metadata, "action") == Str("REJECT") {
      return Rejected;
    }
    r := BuildOffer(w, me, raw, metadata, p, contractId, now);
    if Clean(Request(raw, metadata)) {
      RequestClean(raw, metadata);
      ReadClean(w, me, raw, metadata, freshId, p);
    }
  }

  /** The part of `_handle_propose` after the decision to accept. */
  method BuildOffer(w: World, me: Party, raw: seq<Member>, metadata: seq<Member>, p: TaskProposal,
                    contractId: string, now: string)
    returns (r: ProposeOutcome)
    ensures r.Raised? || r.Offer?
    ensures r.Offer? ==>
              && r.proposal == p
              && Buildable(raw, metadata, p)
              && Offered(w, me, raw, metadata, p, contractId, now, r.contract)
    ensures Buildable(raw, metadata, p) && Clean(Obj(raw)) && Clean(Obj(metadata)) && CleanProposal(p) ==> r.Offer?
  {
    hide Quorum.PolicyHash, Quorum.PolicyReadable, Shaped, Clean, CleanProposal, Buildable, TaskContract.ToMembers;
    var shaped := ShapeContract(w, me, raw, metadata, p, contractId, now);
    if shaped.None? {
      return Raised;
    }
    var c := shaped.value;
    r := SignOffer(w, me, c, p);
    if r.Offer? {
      ShapedUnsigned(w, me, raw, metadata, p, contractId, now, c, r.contract);
    }
    if Clean(Obj(raw)) && Clean(Obj(metadata)) && CleanProposal(p) {
      ShapedClean(w, me, raw, metadata, p, contractId, now, c);
      ContractFieldsClean(c);
      PayloadFinite(c.ToMembers());
    }
  }

  lemma ShapedUnsigned(w: World, me: Party, raw: seq<Member>, metadata: seq<Member>, p: TaskProposal, contractId: string,
                       now: string, c: TaskContract, signed: TaskContract)
    requires Shaped(w, me, raw, metadata, p, contractId, now, c)
    requires signed == c.(executorSignature := signed.executorSignature, contractHash := signed.contractHash)
    ensures Shaped(w, me, raw, metadata, p, contractId, now, signed)
  {
  }

  /** Creating the contract and assigning its fields, before the signature. */
  method ShapeContract(w: World, me: Party, raw: seq<Member>, metadata: seq<Member>, p: TaskProposal,
                       contractId: string, now: string)
    returns (r: Option<TaskContract>)
    ensures r.Some? ==>
              && Buildable(raw, metadata, p) && Shaped(w, me, raw, metadata, p, contractId, now, r.value)
              && r.value.executorSignature.Null? && r.value.contractHash.Null?
    ensures Buildable(raw, metadata, p) && CleanProposal(p) ==> r.Some?
  {
    hide Quorum.PolicyHash, Quorum.PolicyReadable;
    VerificationHash(p, w.ff);
    if !p.capability.Obj? || Get(p.capability.members, "id").None? {
      return None;
    }
    var created := CreateContract(w, contractId, now, p.requester, Str(me.agentId), At(p.capability.members, "id"),
                                  p.objective, p.constraints, p.deliverables, p.verification,
                                  OrElse(At(raw, "metadata"), At(metadata, "task_metadata")));
    if created.None? {
      return None;
    }
    ProposalFieldsClean(p);
    PayloadFinite(p.ToMembers());
    var c := created.value;
    c := c.(proposalId := p.proposalId);
    c := c.(proposalRevision := p.revision);
    match ObjectHash(p.ToMembers(), w.ff)
    case Failure(_) =>
      return None;
    case Success(proposalHash) =>
      c := c.(proposalHash := Str(proposalHash));
      c := c.(sideEffects := p.sideEffects);
      c := c.(status := Str("SIGNED"));
      c := c.(executorKeyId := Str(me.keyId));
      c := c.(requesterKeyId :=
        Str(StrOf(w.str, OrElse(OrElse(At(metadata, "requester_key_id"), At(raw, "requester_key_id")), Str("")))));
      c := c.(verificationPolicyHash := Str(Quorum.PolicyHash(p.verification, w.ff).value));
      return Some(c);
  }

  /** The last two assignments: the executor's signature, then the contract hash. */
  method SignOffer(w: World, me: Party, c: TaskContract, p: TaskProposal) returns (r: ProposeOutcome)
    ensures r.Raised? || r.Offer?
    ensures r.Offer? <==> SignedBytes(c.ToMembers(), w.ff).Success?
    ensures r.Offer? ==>
              && r.proposal == p
              && r.contract == c.(executorSignature := r.contract.executorSignature, contractHash := r.contract.contractHash)
              && SignedBy(w, me, r.contract.executorSignature, r.contract)
              && r.contract.contractHash.Str?
              && ObjectHash(r.contract.ToMembers(), w.ff) == Success(r.contract.contractHash.s)
  {
    match SignObject(me.key, c.ToMembers(), w.ff)
    case Failure(_) =>
      return Raised;
    case Success(signature) =>
      var signed := c.(executorSignature := Str(signature));
      ContractOmits(c, c.requesterSignature, Str(signature), c.contractHash);
      match ObjectHash(signed.ToMembers(), w.ff) {
        case Failure(_) =>
          return Raised;
        case Success(hash) =>
          ContractOmits(c, c.requesterSignature, Str(signature), Str(hash));
          return Offer(signed.(contractHash := Str(hash)), p);
      }
  }

  // ---------------------------------------------------------- the requester

  datatype AnswerOutcome =
    | Returned
    | Counter(proposal: TaskProposal)
    | Signed(contract: TaskContract)
    | Failed

  /** What countersigning makes of the rebuilt contract `d`. */
  ghost predicate Countersigned(w: World, me: Party, d: TaskContract, g: TaskContract) {
    && g == d.(requesterSignature := g.requesterSignature, status := Str("SIGNED"), contractHash := g.contractHash)
    && SignedBy(w, me, g.requesterSignature, d)
    && g.contractHash.Str? && ObjectHash(g.ToMembers(), w.ff) == Success(g.contractHash.s)
  }

  /** The answer holds a dict with an executor signature and every required contract field. */
  predicate Countersignable(meta: seq<Member>) {
    && At(meta, "contract").Obj?
    && Truthy(At(At(meta, "contract").members, "executor_signature"))
    && TaskContract.FromMembers(At(meta, "contract").members).Some?
  }

  function ReceivedContract(meta: seq<Member>): TaskContract
    requires Countersignable(meta)
  {
    TaskContract.FromMembers(At(meta, "contract").members).value
  }

  /** `Peer.propose_task` from the executor's answer up to the delivery message. */
  method Countersign(w: World, me: Party, state: string, meta: seq<Member>, afterCounter: bool, freshId: string)
    returns (r: AnswerOutcome)
    ensures r.Counter? ==>
              && !afterCounter && At(meta, "decision") == Str("COUNTER")
              && SignedProposal(w, me, r.proposal)
              && At(meta, "proposal").Obj?
              && var read := TaskProposal.FromMembers(ProposalPayload(At(meta, "proposal").members, freshId));
                 read.Some? && r.proposal == read.value.(signature := r.proposal.signature)
    ensures var countered := !afterCounter && At(meta, "decision") == Str("COUNTER") && Truthy(At(meta, "proposal"));
            var refused := state == "failed" || At(meta, "decision") == Str("REJECT");
            && (r.Returned? <==> !countered && refused)
            && (r.Signed? ==>
                  && !countered && !refused && Countersignable(meta)
                  && At(meta, "contract").Obj? && Truthy(At(At(meta, "contract").members, "executor_signature"))
                  && Countersigned(w, me, ReceivedContract(meta), r.contract))
            && (countered && At(meta, "proposal").Obj? && Clean(At(meta, "proposal")) &&
                TaskProposal.FromMembers(ProposalPayload(At(meta, "proposal").members, freshId)).Some?
                ==> r.Counter?)
            && (!countered && !refused && Countersignable(meta) &&
                FiniteNumbers(Obj(ReceivedContract(meta).ToMembers()))
                ==> r.Signed?)
  {
    if !afterCounter && At(meta, "decision") == Str("COUNTER") && Truthy(At(meta, "proposal")) {
      if !At(meta, "proposal").Obj? {
        return Failed;
      }
      var read := TaskProposal.FromMembers(ProposalPayload(At(meta, "proposal").members, freshId));
      if read.None? {
        return Failed;
      }
      if Clean(At(meta, "proposal")) {
        CounterIsSignable(At(meta, "proposal").members, freshId, read.value);
      }
      match SignObject(me.key, read.value.ToMembers(), w.ff)
      case Failure(_) =>
        return Failed;
      case Success(signature) =>
        ProposalOmits(read.value, Str(signature));
        return Counter(read.value.(signature := Str(signature)));
    }
    if state == "failed" || At(meta, "decision") == Str("REJECT") {
      return Returned;
    }
    if !Countersignable(meta) {
      return Failed;
    }
    var signed := SignContract(w, me, ReceivedContract(meta));
    return if signed.Some? then Signed(signed.value) else Failed;
  }

  /** What arrives over a hop can be signed again. */
  lemma CounterIsSignable(raw: seq<Member>, freshId: string, p: TaskProposal)
    requires Clean(Obj(raw)) && TaskProposal.FromMembers(ProposalPayload(raw, freshId)) == Some(p)
    ensures forall ff :: SignedBytes(p.ToMembers(), ff).Success?
  {
    hide ProposalPayload, TaskProposal.FromMembers, TaskProposal.ToMembers, Clean, CleanProposal;
    PayloadClean(raw, freshId);
    FromMembersClean(ProposalPayload(raw, freshId), p);
    ProposalFieldsClean(p);
    PayloadFinite(p.ToMembers());
  }

  /** The requester's three assignments: signature, status, contract hash. */
  method SignContract(w: World, me: Party, d: TaskContract) returns (r: Option<TaskContract>)
    ensures r.Some? ==> Countersigned(w, me, d, r.value)
    ensures FiniteNumbers(Obj(d.ToMembers())) ==> r.Some?
  {
    PayloadFinite(d.ToMembers());
    match SignObject(me.key, d.ToMembers(), w.ff)
    case Failure(_) =>
      return None;
    case Success(signature) =>
      var c := d.(requesterSignature := Str(signature));
      c := c.(status := Str("SIGNED"));
      if FiniteNumbers(Obj(d.ToMembers())) {
        ResignedFinite(d, c);
        PayloadFinite(c.ToMembers());
      }
      match ObjectHash(c.ToMembers(), w.ff) {
        case Failure(_) =>
          return None;
        case Success(hash) =>
          ContractOmits(c, c.requesterSignature, c.executorSignature, Str(hash));
          return Some(c.(contractHash := Str(hash)));
      }
  }

  // ------------------------------------------------------ the delivery check

  datatype GateResult = Admitted | UnsignedContract | SignatureMismatch | GateRaised

  /** The contract check in `A2AServer.handle_message`, before the handler runs. */
  function Gate(publicKey: string, contractRaw: Value, capability: string, ff: FloatFormat): GateResult {
    if !Truthy(contractRaw) || capability == "task.propose" then Admitted
    else if !contractRaw.Obj? then GateRaised
    else
      var executorSig := At(contractRaw.members, "executor_signature");
      if !Truthy(At(contractRaw.members, "requester_signature")) || !Truthy(executorSig) then UnsignedContract
      else if !executorSig.Str? then GateRaised
      else
        match VerifyObject(publicKey, contractRaw.members, executorSig.s, ff)
        case Success(ok) => if ok then Admitted else SignatureMismatch
        case Failure(_) => GateRaised
  }

  // ----------------------------------------------------------- dict lemmas

  /** What a hop guarantees of every value it delivers. */
  ghost predicate Clean(v: Value) {
    match v
    case Int(n) => Abs(n) < TWO_53
    case Float(d) => IsDouble(d) && IsFinite(d) && NumberSafe(v)
    case Arr(items) => forall i | 0 <= i < |items| :: Clean(items[i])
    case Obj(ms) => DistinctKeys(ms) && forall i | 0 <= i < |ms| :: Clean(ms[i].value)
    case _ => true
  }

  lemma {:induction false} CleanMeans(v: Value)
    ensures Clean(v) <==> WellFormed(v) && NumberSafe(v) && FiniteNumbers(v)
  {
    match v
    case Arr(items) =>
      forall i | 0 <= i < |items|
        ensures Clean(items[i]) <==> WellFormed(items[i]) && NumberSafe(items[i]) && FiniteNumbers(items[i])
      {
        CleanMeans(items[i]);
      }
    case Obj(ms) =>
      forall i | 0 <= i < |ms|
        ensures Clean(ms[i].value) <==>
                WellFormed(ms[i].value) && NumberSafe(ms[i].value) && FiniteNumbers(ms[i].value)
      {
        CleanMeans(ms[i].value);
      }
    case _ =>
  }

  lemma AtClean(ms: seq<Member>, key: string)
    requires Clean(Obj(ms))
    ensures Clean(At(ms, key))
  {
    GetFinds(ms, key);
  }

  lemma FieldClean(ms: seq<Member>, key: string, d: Value)
    requires Clean(Obj(ms)) && Clean(d)
    ensures Clean(Field(ms, key, d))
  {
    GetFinds(ms, key);
  }

  lemma ListOfClean(v: Value)
    requires Clean(v)
    ensures ListOf(v).Some? ==> Clean(ListOf(v).value)
    ensures DictOf(v).Some? ==> Clean(DictOf(v).value)
  {
  }

  lemma AppendedClean(ms: seq<Member>, m: Member)
    requires Clean(Obj(ms)) && Clean(m.value) && !HasKey(ms, m.key)
    ensures Clean(Obj(ms + [m])) && Clean(Obj([m] + ms))
  {
  }

  lemma {:induction false} PutKeys(ms: seq<Member>, key: string, v: Value, k: string)
    ensures HasKey(Put(ms, key, v), k) <==> HasKey(ms, k) || k == key
  {
    PutGet(ms, key, v, k);
    GetFinds(Put(ms, key, v), k);
    GetFinds(ms, k);
  }

  lemma {:induction false} PutClean(ms: seq<Member>, key: string, v: Value)
    requires Clean(Obj(ms)) && Clean(v)
    ensures Clean(Obj(Put(ms, key, v)))
  {
    if ms == [] {
    } else if ms[0].key == key {
      assert forall i | 0 < i < |ms| :: Put(ms, key, v)[i] == ms[i];
    } else {
      TailClean(ms);
      PutClean(ms[1..], key, v);
      PutKeys(ms[1..], key, v, ms[0].key);
      AppendedClean(Put(ms[1..], key, v), ms[0]);
    }
  }

  lemma TailClean(ms: seq<Member>)
    requires Clean(Obj(ms)) && ms != []
    ensures Clean(Obj(ms[1..])) && Clean(ms[0].value) && !HasKey(ms[1..], ms[0].key)
  {
    assert forall i | 0 <= i < |ms[1..]| :: ms[1..][i] == ms[i + 1];
  }

  lemma SetDefaultClean(ms: seq<Member>, key: string, v: Value)
    requires Clean(Obj(ms)) && Clean(v)
    ensures Clean(Obj(SetDefault(ms, key, v)))
  {
    GetFinds(ms, key);
    if Get(ms, key).None? {
      AppendedClean(ms, Member(key, v));
    }
  }

  lemma ReferenceClean(id: Value, version: Value)
    requires Clean(id) && Clean(version)
    ensures Clean(CapabilityRef(id, version))
  {
  }

  lemma PayloadClean(raw: seq<Member>, freshId: string)
    requires Clean(Obj(raw))
    ensures Clean(Obj(ProposalPayload(raw, freshId)))
  {
    var version := OrElse(At(raw, "capability_version"), Str("1.0.0"));
    AtClean(raw, "capability");
    AtClean(raw, "capability_version");
    var p0 := match Get(raw, "capability")
      case Some(Str(id)) => Put(raw, "capability", CapabilityRef(Str(id), version))
      case _ => raw;
    if Get(raw, "capability").Some? && Get(raw, "capability").value.Str? {
      ReferenceClean(At(raw, "capability"), version);
      PutClean(raw, "capability", CapabilityRef(At(raw, "capability"), version));
    }
    var blank := CapabilityRef(Str(""), Str("1.0.0"));
    ReferenceClean(Str(""), Str("1.0.0"));
    var p1 := SetDefault(p0, "proposal_id", Str(freshId));
    SetDefaultClean(p0, "proposal_id", Str(freshId));
    var p2 := SetDefault(p1, "revision", Int(1));
    SetDefaultClean(p1, "revision", Int(1));
    var p3 := SetDefault(p2, "requester", Str(""));
    SetDefaultClean(p2, "requester", Str(""));
    var p4 := SetDefault(p3, "target", Str(""));
    SetDefaultClean(p3, "target", Str(""));
    var p5 := SetDefault(p4, "capability", blank);
    SetDefaultClean(p4, "capability", blank);
    SetDefaultClean(p5, "objective", Str(""));
  }

  ghost predicate CleanProposal(p: TaskProposal) {
    && Clean(p.proposalId) && Clean(p.revision) && Clean(p.requester) && Clean(p.target)
    && Clean(p.capability) && Clean(p.objective) && Clean(p.constraints) && Clean(p.deliverables)
    && Clean(p.verification) && Clean(p.sideEffects) && Clean(p.expiresAt) && Clean(p.idempotencyKey)
    && Clean(p.signature)
  }

  /** The policy hash of a proposal's verification exists for readable ones, and for no others. */
  lemma VerificationHash(p: TaskProposal, ff: FloatFormat)
    ensures Quorum.PolicyHash(p.verification, ff).Some? ==> Quorum.PolicyReadable(p.verification)
    ensures CleanProposal(p) && Quorum.PolicyReadable(p.verification) ==> Quorum.PolicyHash(p.verification, ff).Some?
  {
    Quorum.CanonicalDefinedIff(p.verification);
    if CleanProposal(p) {
      CleanMeans(p.verification);
      Quorum.HashDefinedIff(p.verification, ff);
    }
  }

  lemma ProposalFieldsClean(p: TaskProposal)
    ensures Clean(Obj(p.ToMembers())) <==> CleanProposal(p)
  {
    ProposalLayout(p, p);
    ProposalFieldwise(p, (v: Value) => Clean(v));
  }

  lemma CreatedClean(w: World, proposalId: string, requester: string, target: string, capabilityId: string,
                     version: string, objective: string, constraints: Value, deliverables: Value,
                     verification: Value, sideEffects: string, idempotencyKey: Value, p: TaskProposal)
    requires CreateProposal(w, proposalId, requester, target, capabilityId, version, objective, constraints,
                            deliverables, verification, sideEffects, idempotencyKey) == Some(p)
    requires Clean(constraints) && Clean(deliverables) && Clean(verification) && Clean(idempotencyKey)
    ensures CleanProposal(p)
  {
    ListOfClean(constraints);
    ListOfClean(deliverables);
    ReferenceClean(Str(capabilityId), Str(version));
    NotRequiredClean();
    ListOfClean(OrElse(verification, NOT_REQUIRED));
  }

  lemma NotRequiredClean()
    ensures Clean(NOT_REQUIRED)
  {
  }

  /** The proposal the executor works from is as clean as the request. */
  lemma ReadClean(w: World, me: Party, raw: seq<Member>, metadata: seq<Member>, freshId: string, p: TaskProposal)
    requires ReadProposal(w, me, raw, metadata, freshId) == Some(p) && Clean(Request(raw, metadata))
    ensures CleanProposal(p)
  {
    RequestClean(raw, metadata);
    if Get(raw, "proposal_id").Some? {
      PayloadClean(raw, freshId);
      FromMembersClean(ProposalPayload(raw, freshId), p);
    } else {
      AtClean(raw, "constraints");
      AtClean(raw, "deliverables");
      AtClean(raw, "verification");
      CreatedClean(
        w, freshId, StrOf(w.str, OrElse(OrElse(At(raw, "requester"), At(metadata, "requester_agent_id")), Str(""))),
        me.agentId, StrOf(w.str, CapabilityId(raw)), "1.0.0", StrOf(w.str, OrElse(At(raw, "objective"), Str(""))),
        At(raw, "constraints"), At(raw, "deliverables"), At(raw, "verification"),
        StrOf(w.str, OrElse(At(raw, "side_effects"), Str("NONE"))), Null, p);
    }
  }

  lemma RequestClean(raw: seq<Member>, metadata: seq<Member>)
    ensures Clean(Request(raw, metadata)) <==> Clean(Obj(raw)) && Clean(Obj(metadata))
  {
    var items := Request(raw, metadata).items;
    assert items[0] == Obj(raw) && items[1] == Obj(metadata);
  }

  lemma FromMembersClean(ms: seq<Member>, p: TaskProposal)
    requires TaskProposal.FromMembers(ms) == Some(p) && Clean(Obj(ms))
    ensures CleanProposal(p)
  {
    FieldClean(ms, "proposal_id", Null);
    FieldClean(ms, "revision", Null);
    FieldClean(ms, "requester", Null);
    FieldClean(ms, "target", Null);
    FieldClean(ms, "capability", Null);
    FieldClean(ms, "objective", Null);
    FieldClean(ms, "constraints", Arr([]));
    FieldClean(ms, "deliverables", Arr([]));
    FieldClean(ms, "verification", Obj([]));
    FieldClean(ms, "side_effects", Str("NONE"));
    FieldClean(ms, "expires_at", Null);
    FieldClean(ms, "idempotency_key", Null);
    FieldClean(ms, "signature", Null);
  }

  /** The contract fields that are computed from the request rather than copied. */
  lemma DerivedClean(raw: seq<Member>, metadata: seq<Member>, capability: Value, constraints: Value,
                     deliverables: Value, verification: Value)
    requires Clean(Obj(raw)) && Clean(Obj(metadata)) && Clean(capability) && Clean(constraints)
    requires Clean(deliverables) && Clean(verification)
    ensures capability.Obj? ==> Clean(At(capability.members, "id"))
    ensures ListOf(constraints).Some? ==> Clean(ListOf(constraints).value)
    ensures ListOf(deliverables).Some? ==> Clean(ListOf(deliverables).value)
    ensures Clean(OrElse(verification, NOT_REQUIRED))
    ensures var m := DictOf(OrElse(At(raw, "metadata"), At(metadata, "task_metadata"))); m.Some? ==> Clean(m.value)
  {
    if capability.Obj? {
      AtClean(capability.members, "id");
    }
    ListOfClean(constraints);
    ListOfClean(deliverables);
    NotRequiredClean();
    AtClean(raw, "metadata");
    AtClean(metadata, "task_metadata");
    ListOfClean(OrElse(At(raw, "metadata"), At(metadata, "task_metadata")));
  }

  predicate TextOrNull(v: Value) {
    v.Str? || v.Null?
  }

  ghost predicate CleanContract(c: TaskContract) {
    && Clean(c.contractId) && Clean(c.requester) && Clean(c.executor) && Clean(c.capability)
    && Clean(c.objective) && Clean(c.constraints) && Clean(c.deliverables) && Clean(c.verification)
    && Clean(c.createdAt) && Clean(c.status) && Clean(c.expiresAt) && Clean(c.economicTerms)
    && Clean(c.metadata) && Clean(c.proposalId) && Clean(c.proposalRevision) && Clean(c.proposalHash)
    && Clean(c.sideEffects) && Clean(c.requesterSignature) && Clean(c.executorSignature) && Clean(c.schemaVersion)
    && Clean(c.canonicalization) && Clean(c.signatureSuite) && Clean(c.requesterKeyId) && Clean(c.executorKeyId)
    && Clean(c.verificationPolicyHash) && Clean(c.contractHash)
  }

  lemma ContractFieldsClean(c: TaskContract)
    requires CleanContract(c)
    ensures Clean(Obj(c.ToMembers()))
  {
    ContractLayout(c, c);
    ContractFieldwise(c, (v: Value) => Clean(v));
  }

  lemma ComputedClean(w: World, me: Party, raw: seq<Member>, metadata: seq<Member>, p: TaskProposal,
                      contractId: string, now: string, c: TaskContract)
    requires Shaped(w, me, raw, metadata, p, contractId, now, c)
    requires Clean(Obj(raw)) && Clean(Obj(metadata)) && CleanProposal(p)
    ensures Clean(c.capability) && Clean(c.constraints) && Clean(c.deliverables) && Clean(c.verification)
    ensures Clean(c.metadata)
  {
    DerivedClean(raw, metadata, p.capability, p.constraints, p.deliverables, p.verification);
  }

  /** So is the contract built from it. */
  lemma ShapedClean(w: World, me: Party, raw: seq<Member>, metadata: seq<Member>, p: TaskProposal,
                    contractId: string, now: string, c: TaskContract)
    requires Shaped(w, me, raw, metadata, p, contractId, now, c)
    requires TextOrNull(c.executorSignature) && TextOrNull(c.contractHash)
    requires Clean(Obj(raw)) && Clean(Obj(metadata)) && CleanProposal(p)
    ensures CleanContract(c)
  {
    ComputedClean(w, me, raw, metadata, p, contractId, now, c);
  }

  lemma PayloadFinite(ms: seq<Member>)
    ensures FiniteNumbers(Obj(ms)) || Clean(Obj(ms)) ==> forall ff :: SignedBytes(ms, ff).Success?
  {
    CleanMeans(Obj(ms));
    if FiniteNumbers(Obj(ms)) {
      UnsignedFinite(ms);
    }
  }

  lemma ResignedFinite(base: TaskContract, c: TaskContract)
    requires c == base.(requesterSignature := c.requesterSignature, status := c.status)
    requires c.requesterSignature.Str? && c.status.Str? && FiniteNumbers(Obj(base.ToMembers()))
    ensures FiniteNumbers(Obj(c.ToMembers()))
  {
    var ms, ns := base.ToMembers(), c.ToMembers();
    ContractKeys(base);
    ContractKeys(c);
    forall i | 0 <= i < 26
      ensures FiniteNumbers(ns[i].value)
    {
      assert ns[i] == ms[i] || ns[i].value.Str?;
    }
  }
}
