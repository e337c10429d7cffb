/**
 * A whole negotiation: both parties follow the code, and every message crosses a hop. `carry`
 * is the network: whatever it does to key order and numbers, each value it is given arrives
 * as one that a hop may deliver.
 */
module Session {
  import opened Wrappers
  import opened Json
  import opened JsonText
  import opened Transport
  import opened Crypto
  import opened Records
  import opened Python
  import opened Negotiation
  import opened NegotiationProofs
  import opened ContractFields
  import opened Terms
  import opened Quorum
  import Verifiers

  /** A value that a Struct can carry; its numbers need not be safe. */
  ghost predicate Sendable(v: Value) {
    WellFormed(v) && Transportable(v)
  }

  ghost predicate Carries(carry: Value -> Value) {
    forall v | Sendable(v) :: Hop(v, carry(v))
  }

  /** The network that keeps key order and only converts numbers is one. */
  lemma PlainNetworkCarries()
    ensures Carries(v => if Transportable(v) then Restore(ToStruct(v)) else v)
  {
    forall v | Sendable(v)
      ensures Hop(v, Restore(ToStruct(v)))
    {
      ToStructWellFormed(v);
      SameReflexive(ToStruct(v));
    }
  }

  // --------------------------------------------------- the three messages

  /** The metadata of the first message. */
  function OfferMetadata(me: Party, p: TaskProposal, taskMetadata: Value): seq<Member> {
    [
      Member("capability", Str("task.propose")),
      Member("proposal", Obj(p.ToMembers())),
      Member("requester_agent_id", Str(me.agentId)),
      Member("requester_key_id", Str(me.keyId)),
      Member("task_metadata", taskMetadata)
    ]
  }

  /** The metadata of the task that answers it. */
  function AnswerMetadata(c: TaskContract, q: TaskProposal): seq<Member> {
    [
      Member("decision", Str("ACCEPT")),
      Member("contract", Obj(c.ToMembers())),
      Member("proposal", Obj(q.ToMembers())),
      Member("error", Null),
      Member("message", Null),
      Member("error_envelope", Null)
    ]
  }

  /** The metadata of the delivery message. */
  function DeliveryMetadata(me: Party, capability: string, taskId: Value, p: TaskProposal, g: TaskContract,
                            idempotencyKey: string): seq<Member>
  {
    [
      Member("capability", Str(capability)),
      Member("contract", Obj(g.ToMembers())),
      Member("task_id", taskId),
      Member("proposal", Obj(p.ToMembers())),
      Member("requester_agent_id", Str(me.agentId)),
      Member("idempotency_key", Str(idempotencyKey))
    ]
  }

  // ------------------------------------------------------ what can be sent

  lemma DictSendable(ms: seq<Member>)
    requires DistinctKeys(ms) && forall i | 0 <= i < |ms| :: Sendable(ms[i].value)
    ensures Sendable(Obj(ms))
  {
  }

  lemma {:induction false} CleanSendable(v: Value)
    requires Clean(v)
    ensures Sendable(v)
  {
    match v
    case Int(n) => ExactBelow53(n);
    case Arr(items) =>
      forall i | 0 <= i < |items|
        ensures Sendable(items[i])
      {
        CleanSendable(items[i]);
      }
    case Obj(ms) =>
      forall i | 0 <= i < |ms|
        ensures Sendable(ms[i].value)
      {
        CleanSendable(ms[i].value);
      }
    case _ =>
  }

  lemma ListOfSendable(v: Value)
    requires Sendable(v)
    ensures ListOf(v).Some? ==> ListOf(v).value.Arr? && Sendable(ListOf(v).value)
    ensures DictOf(v).Some? ==> DictOf(v).value.Obj? && Sendable(DictOf(v).value)
  {
  }

  lemma {:induction false} PutSendable(ms: seq<Member>, key: string, v: Value)
    requires Sendable(Obj(ms)) && Sendable(v)
    ensures Sendable(Obj(Put(ms, key, v)))
  {
    var r := Put(ms, key, v);
    if ms == [] {
    } else if ms[0].key == key {
      assert forall i | 0 < i < |ms| :: r[i] == ms[i];
    } else {
      var tail := ms[1..];
      assert forall i | 0 <= i < |tail| :: tail[i] == ms[i + 1];
      PutSendable(tail, key, v);
      PutKeys(tail, key, v, ms[0].key);
      var rest := Put(tail, key, v);
      assert forall i | 0 < i < |r| :: r[i] == rest[i - 1];
      assert !HasKey(tail, ms[0].key);
      assert forall i | 0 <= i < |rest| :: rest[i].key != ms[0].key;
    }
  }

  lemma PolicySendable(verification: seq<Member>)
    requires Sendable(Obj(verification))
    ensures Sendable(Obj(RequesterPolicy(verification)))
  {
    PutSendable(verification, "policy", Str("REQUESTER_SELECTS"));
  }

  /** What a created proposal looks like, whatever its numbers. */
  ghost predicate Proposed(p: TaskProposal, capability: string, version: string) {
    && p.capability == CapabilityRef(Str(capability), Str(version))
    && p.constraints.Arr? && p.deliverables.Arr? && p.signature.Str?
    && Sendable(Obj(p.ToMembers()))
  }

  lemma CreatedIsProposed(w: World, proposalId: string, requester: string, target: string, capability: string,
                          version: string, objective: string, constraints: Value, deliverables: Value, policy: Value,
                          sideEffects: string, idempotencyKey: Value, created: TaskProposal, signature: string)
    requires CreateProposal(w, proposalId, requester, target, capability, version, objective, constraints, deliverables,
                            policy, sideEffects, idempotencyKey) == Some(created)
    requires Sendable(constraints) && Sendable(deliverables) && Sendable(policy) && Sendable(idempotencyKey)
    ensures Proposed(created.(signature := Str(signature)), capability, version)
    ensures FiniteNumbers(Obj(created.ToMembers()))
  {
    CreatedParts(w, proposalId, requester, target, capability, version, objective, constraints, deliverables, policy,
                 sideEffects, idempotencyKey, created);
    hide CreateProposal, Sendable, ListOf, DictOf, OrElse;
    var p := created.(signature := Str(signature));
    AtomsSendable();
    FieldsSendable(p);
    FieldsSendable(created);
    SendableIsFinite(Obj(created.ToMembers()));
  }

  lemma CreatedParts(w: World, proposalId: string, requester: string, target: string, capability: string,
                     version: string, objective: string, constraints: Value, deliverables: Value, policy: Value,
                     sideEffects: string, idempotencyKey: Value, created: TaskProposal)
    requires CreateProposal(w, proposalId, requester, target, capability, version, objective, constraints, deliverables,
                            policy, sideEffects, idempotencyKey) == Some(created)
    requires Sendable(constraints) && Sendable(deliverables) && Sendable(policy) && Sendable(idempotencyKey)
    ensures created.proposalId.Str? && created.revision == Int(1) && created.requester.Str? && created.target.Str?
    ensures created.objective.Str? && created.sideEffects.Str? && created.expiresAt.Null? && created.signature.Null?
    ensures created.capability == CapabilityRef(Str(capability), Str(version)) && Sendable(created.capability)
    ensures created.constraints.Arr? && created.deliverables.Arr?
    ensures Sendable(created.constraints) && Sendable(created.deliverables) && Sendable(created.verification)
    ensures created.idempotencyKey == idempotencyKey
  {
    ListOfSendable(constraints);
    ListOfSendable(deliverables);
    ReferenceSendable(capability, version);
    hide ListOf, CapabilityRef;
  }

  lemma ReferenceSendable(capability: string, version: string)
    ensures Sendable(CapabilityRef(Str(capability), Str(version)))
  {
    var ms := CapabilityRef(Str(capability), Str(version)).members;
    assert ms[0].key == "id" && ms[1].key == "version";
    DictSendable(ms);
  }

  lemma AtomsSendable()
    ensures Sendable(Null) && Sendable(Int(1))
    ensures forall s :: Sendable(Str(s))
  {
    ExactBelow53(1);
  }

  lemma FieldsSendable(p: TaskProposal)
    requires Sendable(p.proposalId) && Sendable(p.revision) && Sendable(p.requester) && Sendable(p.target)
    requires Sendable(p.capability) && Sendable(p.objective) && Sendable(p.constraints) && Sendable(p.deliverables)
    requires Sendable(p.verification) && Sendable(p.sideEffects) && Sendable(p.expiresAt)
    requires Sendable(p.idempotencyKey) && Sendable(p.signature)
    ensures Sendable(Obj(p.ToMembers()))
  {
    hide Sendable;
    ProposalFieldwise(p, (v: Value) => Sendable(v));
    ProposalLayout(p, p);
    DictSendable(p.ToMembers());
  }

  lemma SendableIsFinite(v: Value)
    requires Sendable(v)
    ensures FiniteNumbers(v)
  {
    TransportableIsFinite(v);
  }

  // ------------------------------------------------- the executor's reading

  lemma HopAddsNoKey(ms: seq<Member>, received: Value, key: string)
    requires Hop(Obj(ms), received) && received.Obj? && HasKey(received.members, key)
    ensures HasKey(ms, key)
  {
    var wire :| WellFormed(wire) && Same(ToStruct(Obj(ms)), wire) && received == Restore(wire);
    var ts := ToStruct(Obj(ms)).members;
    var j :| 0 <= j < |received.members| && received.members[j].key == key;
    assert wire.members[j].key == key;
    assert HasKey(ts, wire.members[j].key);
    var i :| 0 <= i < |ts| && ts[i].key == key;
    assert ms[i].key == key;
  }

  lemma HopAbsent(ms: seq<Member>, received: Value, key: string)
    requires Hop(Obj(ms), received) && Get(ms, key).None?
    ensures received.Obj? && Get(received.members, key).None?
  {
    HopShapes(Obj(ms), received);
    hide Hop;
    GetFinds(ms, key);
    GetFinds(received.members, key);
    if HasKey(received.members, key) {
      HopAddsNoKey(ms, received, key);
    }
  }

  lemma HopShapes(sent: Value, received: Value)
    requires Hop(sent, received)
    ensures sent.Str? ==> received == sent
    ensures sent.Arr? ==> received.Arr?
    ensures sent.Obj? ==> received.Obj?
  {
  }

  // -------------------------------------------- policies keep readable

  /** A hop changes neither the truth of a value nor whether `list` and `int` accept it. */
  lemma HopTruth(sent: Value, received: Value)
    requires Hop(sent, received)
    ensures Truthy(received) == Truthy(sent) && Iterable(received) == Iterable(sent)
    ensures IntOfValue(received).Some? == IntOfValue(sent).Some?
  {
    var wire :| WellFormed(wire) && Same(ToStruct(sent), wire) && received == Restore(wire);
    match sent
    case Int(n) =>
      if Abs(n) < TWO_53 {
        ExactBelow53(n);
      } else {
        LargeStaysLarge(n);
      }
    case Obj(ms) => SameTruth(ToStruct(sent), wire);
    case _ =>
  }

  lemma HopEntry(ms: seq<Member>, received: Value, key: string)
    requires Hop(Obj(ms), received)
    ensures received.Obj?
    ensures Truthy(At(received.members, key)) == Truthy(At(ms, key))
    ensures Iterable(At(received.members, key)) == Iterable(At(ms, key))
    ensures IntOfValue(At(received.members, key)).Some? == IntOfValue(At(ms, key)).Some?
  {
    hide Hop, Iterable, Truthy, IntOfValue;
    if Get(ms, key).Some? {
      HopOfMember(ms, received, key);
      HopTruth(At(ms, key), At(received.members, key));
    } else {
      HopAbsent(ms, received, key);
    }
  }

  /** So a policy is readable after a hop exactly when it was before. */
  lemma HopReadable(sent: Value, received: Value)
    requires Hop(sent, received)
    ensures PolicyReadable(received) <==> PolicyReadable(sent)
  {
    HopTruth(sent, received);
    HopKind(sent, received);
    if sent.Obj? {
      hide Hop, Iterable, IntOfValue, Truthy, At;
      HopEntry(sent.members, received, "required");
      HopEntry(sent.members, received, "verifiers");
      HopEntry(sent.members, received, "acceptance");
      HopEntry(sent.members, received, "required_passes");
    }
  }

  lemma HopKind(sent: Value, received: Value)
    requires Hop(sent, received)
    ensures received.Obj? <==> sent.Obj?
  {
  }

  lemma ArrIsList(v: Value)
    requires v.Arr?
    ensures ListOf(v).Some?
  {
  }

  lemma NoSuchKeys(p: TaskProposal)
    ensures Get(p.ToMembers(), "metadata").None? && Get(p.ToMembers(), "requester_key_id").None?
  {
    ProposalKeys(p);
    hide TaskProposal.ToMembers;
    GetFinds(p.ToMembers(), "metadata");
    GetFinds(p.ToMembers(), "requester_key_id");
    assert forall i | 0 <= i < 13 :: PROPOSAL_KEYS[i] != "metadata" && PROPOSAL_KEYS[i] != "requester_key_id";
  }

  /** The proposal's own keys in the received copy, and none that the code would take for another. */
  lemma CopyArrives(p: TaskProposal, capability: string, version: string, received: Value)
    requires Proposed(p, capability, version) && Hop(Obj(p.ToMembers()), received)
    ensures received.Obj? && DistinctKeys(received.members) && Get(received.members, "metadata").None?
    ensures |PROPOSAL_KEYS| == 13 && forall i | 0 <= i < 13 :: Get(received.members, PROPOSAL_KEYS[i]).Some?
    ensures At(received.members, "capability").Obj?
    ensures Get(At(received.members, "capability").members, "id") == Some(Str(capability))
    ensures At(received.members, "constraints").Arr? && At(received.members, "deliverables").Arr?
    ensures PolicyReadable(At(received.members, "verification")) <==> PolicyReadable(p.verification)
  {
    hide Hop, Sendable;
    var ms := p.ToMembers();
    ProposalKeysArrive(p, received);
    HopIsClean(Obj(ms), received);
    DictDistinct(received.members);
    NoSuchKeys(p);
    HopAbsent(ms, received, "metadata");
    ProposalLayout(p, p);
    assert ms[4] == Member("capability", p.capability);
    assert ms[6] == Member("constraints", p.constraints) && ms[7] == Member("deliverables", p.deliverables);
    assert ms[8] == Member("verification", p.verification);
    hide TaskProposal.ToMembers, Clean, NumberSafe, WellFormed, Transportable, PolicyReadable;
    GetAt(ms, 8);
    HopOfMember(ms, received, "verification");
    HopReadable(p.verification, At(received.members, "verification"));
    GetAt(ms, 4);
    GetAt(ms, 6);
    GetAt(ms, 7);
    HopOfMember(ms, received, "capability");
    HopOfMember(ms, received, "constraints");
    HopOfMember(ms, received, "deliverables");
    CapabilityIdHops(capability, version, At(received.members, "capability"));
    HopShapes(p.constraints, At(received.members, "constraints"));
    HopShapes(p.deliverables, At(received.members, "deliverables"));
  }

  lemma OfferEntries(me: Party, p: TaskProposal, taskMetadata: Value)
    ensures var ms := OfferMetadata(me, p, taskMetadata);
            && Get(ms, "proposal") == Some(Obj(p.ToMembers()))
            && Get(ms, "requester_agent_id") == Some(Str(me.agentId))
            && Get(ms, "requester_key_id") == Some(Str(me.keyId))
            && Get(ms, "task_metadata") == Some(taskMetadata)
            && Get(ms, "action").None? && DistinctKeys(ms)
  {
    hide TaskProposal.ToMembers;
    var ms := OfferMetadata(me, p, taskMetadata);
    assert ms[0].key == "capability" && ms[1].key == "proposal" && ms[2].key == "requester_agent_id";
    assert ms[3].key == "requester_key_id" && ms[4].key == "task_metadata";
    GetAt(ms, 1);
    GetAt(ms, 2);
    GetAt(ms, 3);
    GetAt(ms, 4);
    GetFinds(ms, "action");
  }

  lemma OfferSendable(me: Party, p: TaskProposal, taskMetadata: Value)
    requires Sendable(Obj(p.ToMembers())) && Sendable(taskMetadata)
    ensures Sendable(Obj(OfferMetadata(me, p, taskMetadata)))
  {
    AtomsSendable();
    OfferEntries(me, p, taskMetadata);
    hide TaskProposal.ToMembers, Sendable;
    DictSendable(OfferMetadata(me, p, taskMetadata));
  }

  /** What `_handle_propose` asks of a request before it offers a contract, but for a readable policy. */
  ghost predicate Recognised(w: World, executor: Party, workHandlers: set<string>, body: seq<Member>,
                             metadata: seq<Member>, freshId: string)
  {
    var raw := ProposalRaw(body, metadata);
    var id := CapabilityId(raw);
    && Truthy(id) && id.Str? && id.s in workHandlers
    && ReadProposal(w, executor, raw, metadata, freshId).Some?
    && ShapesFit(raw, metadata, ReadProposal(w, executor, raw, metadata, freshId).value)
    && At(metadata, "action") != Str("REJECT")
    && Clean(Request(raw, metadata))
  }

  /** The verification that the executor reads from a request. */
  function ReadVerification(w: World, executor: Party, body: seq<Member>, metadata: seq<Member>, freshId: string): Option<Value> {
    match ReadProposal(w, executor, ProposalRaw(body, metadata), metadata, freshId)
    case None => None
    case Some(q) => Some(q.verification)
  }

  /**
   * A proposal sent by the requester's code, as the executor's code reads it, is recognised,
   * and its verification is readable exactly when the one sent was.
   */
  lemma ProposalIsRecognised(w: World, requester: Party, executor: Party, workHandlers: set<string>, p: TaskProposal,
                             capability: string, version: string, taskMetadata: Value, body: Value, metadata: Value,
                             freshId: string)
    requires Proposed(p, capability, version) && capability != "" && capability in workHandlers
    requires taskMetadata.Obj?
    requires Hop(Obj(p.ToMembers()), body)
    requires Hop(Obj(OfferMetadata(requester, p, taskMetadata)), metadata)
    ensures body.Obj? && metadata.Obj?
    ensures Recognised(w, executor, workHandlers, body.members, metadata.members, freshId)
    ensures ReadVerification(w, executor, body.members, metadata.members, freshId).Some?
    ensures PolicyReadable(ReadVerification(w, executor, body.members, metadata.members, freshId).value) <==>
            PolicyReadable(p.verification)
  {
    hide TaskProposal.ToMembers, TaskProposal.FromMembers, Proposed, OfferMetadata, Hop, Clean, ProposalPayload,
         CreateProposal, PolicyReadable;
    var offer := OfferMetadata(requester, p, taskMetadata);
    OfferEntries(requester, p, taskMetadata);
    CopyArrives(p, capability, version, body);
    HopOfMember(offer, metadata, "proposal");
    HopOfMember(offer, metadata, "task_metadata");
    HopAbsent(offer, metadata, "action");
    var copy := At(metadata.members, "proposal");
    CopyArrives(p, capability, version, copy);
    HopShapes(taskMetadata, At(metadata.members, "task_metadata"));
    HopIsClean(Obj(p.ToMembers()), body);
    HopIsClean(Obj(offer), metadata);
    RawIsClean(body.members, metadata.members);
    RequestClean(ProposalRaw(body.members, metadata.members), metadata.members);
    CopyIsRead(w, executor, body.members, metadata.members, copy.members, capability, freshId);
  }

  lemma CopyIsRead(w: World, executor: Party, body: seq<Member>, metadata: seq<Member>, copy: seq<Member>,
                   capability: string, freshId: string)
    requires At(metadata, "proposal") == Obj(copy) && DistinctKeys(copy) && At(metadata, "task_metadata").Obj?
    requires |PROPOSAL_KEYS| == 13 && forall i | 0 <= i < 13 :: Get(copy, PROPOSAL_KEYS[i]).Some?
    requires At(copy, "capability").Obj? && Get(At(copy, "capability").members, "id") == Some(Str(capability))
    requires At(copy, "constraints").Arr? && At(copy, "deliverables").Arr?
    requires Get(copy, "metadata").None? && Get(body, "metadata").None? && capability != ""
    ensures var raw := ProposalRaw(body, metadata);
            var read := ReadProposal(w, executor, raw, metadata, freshId);
            && CapabilityId(raw) == Str(capability)
            && read.Some? && ShapesFit(raw, metadata, read.value) && read.value.verification == At(copy, "verification")
  {
    hide CreateProposal;
    var raw := ProposalRaw(body, metadata);
    forall i | 0 <= i < 13
      ensures Get(raw, PROPOSAL_KEYS[i]) == Get(copy, PROPOSAL_KEYS[i])
    {
      UpdateGet(body, copy, PROPOSAL_KEYS[i]);
    }
    UpdateGet(body, copy, "capability");
    UpdateGet(body, copy, "metadata");
    PayloadIsRaw(raw, freshId);
    hide ProposalPayload, Update;
    ProposalRequired(raw);
    var q := TaskProposal.FromMembers(raw).value;
    ReadsParts(raw, q);
    UpdateGet(body, copy, "constraints");
    UpdateGet(body, copy, "deliverables");
    UpdateGet(body, copy, "verification");
    assert PROPOSAL_KEYS[4] == "capability" && PROPOSAL_KEYS[6] == "constraints" && PROPOSAL_KEYS[7] == "deliverables";
    assert PROPOSAL_KEYS[8] == "verification";
    hide TaskProposal.FromMembers;
    ArrIsList(q.constraints);
    ArrIsList(q.deliverables);
  }

  lemma ReadsParts(raw: seq<Member>, q: TaskProposal)
    requires TaskProposal.FromMembers(raw) == Some(q)
    ensures q.capability == At(raw, "capability")
    ensures Get(raw, "constraints").Some? ==> q.constraints == At(raw, "constraints")
    ensures Get(raw, "deliverables").Some? ==> q.deliverables == At(raw, "deliverables")
    ensures Get(raw, "verification").Some? ==> q.verification == At(raw, "verification")
  {
  }

  // ---------------------------------------------------- answer and delivery

  lemma AnswerEntries(c: TaskContract, q: TaskProposal)
    ensures var ms := AnswerMetadata(c, q);
            && Get(ms, "contract") == Some(Obj(c.ToMembers())) && Get(ms, "decision") == Some(Str("ACCEPT"))
            && DistinctKeys(ms)
  {
    hide TaskContract.ToMembers, TaskProposal.ToMembers;
    var ms := AnswerMetadata(c, q);
    assert ms[0].key == "decision" && ms[1].key == "contract" && ms[2].key == "proposal";
    assert ms[3].key == "error" && ms[4].key == "message" && ms[5].key == "error_envelope";
    GetAt(ms, 0);
    GetAt(ms, 1);
  }

  lemma AnswerValues(c: TaskContract, q: TaskProposal)
    ensures forall m | m in AnswerMetadata(c, q) ::
              m.value.Null? || m.value == Str("ACCEPT") || m.value == Obj(c.ToMembers()) || m.value == Obj(q.ToMembers())
  {
    hide TaskContract.ToMembers, TaskProposal.ToMembers;
  }

  lemma AnswerSendable(c: TaskContract, q: TaskProposal)
    requires CleanContract(c) && CleanProposal(q)
    ensures Sendable(Obj(AnswerMetadata(c, q)))
  {
    hide TaskContract.ToMembers, TaskProposal.ToMembers, Clean, CleanContract, CleanProposal, Sendable;
    ContractFieldsClean(c);
    ProposalFieldsClean(q);
    CleanSendable(Obj(c.ToMembers()));
    CleanSendable(Obj(q.ToMembers()));
    AtomsSendable();
    AnswerEntries(c, q);
    AnswerValues(c, q);
    hide AnswerMetadata;
    DictSendable(AnswerMetadata(c, q));
  }

  lemma DecisionArrives(c: TaskContract, q: TaskProposal, answered: Value)
    requires Hop(Obj(AnswerMetadata(c, q)), answered)
    ensures answered.Obj? && At(answered.members, "decision") == Str("ACCEPT")
  {
    hide AnswerMetadata, Hop;
    AnswerEntries(c, q);
    HopOfMember(AnswerMetadata(c, q), answered, "decision");
    HopShapes(Str("ACCEPT"), At(answered.members, "decision"));
  }

  lemma CountersignedClean(w: World, requester: Party, d: TaskContract, g: TaskContract)
    requires Countersigned(w, requester, d, g) && Clean(Obj(d.ToMembers()))
    ensures Clean(Obj(g.ToMembers()))
  {
    hide Clean, TaskContract.ToMembers;
    ContractLayout(g, d);
    ContractPairwise(d, g, (a: Value, b: Value) => a == b || b.Str?);
    TextReplacedClean(d.ToMembers(), g.ToMembers());
  }

  lemma TextReplacedClean(ms: seq<Member>, ns: seq<Member>)
    requires |ms| == |ns| && DistinctKeys(ns)
    requires forall i | 0 <= i < |ms| :: ns[i].value == ms[i].value || ns[i].value.Str?
    requires Clean(Obj(ms))
    ensures Clean(Obj(ns))
  {
  }

  /** The task id of the delivery: one from the contract's metadata, or the contract id. */
  function DeliveryTaskId(g: TaskContract): Value
    requires g.metadata.Obj?
  {
    OrElse(At(g.metadata.members, "task_id"), g.contractId)
  }

  lemma DeliveryTaskIdClean(g: TaskContract)
    requires Clean(Obj(g.ToMembers())) && g.metadata.Obj?
    ensures Clean(DeliveryTaskId(g))
  {
    var ms := g.ToMembers();
    ContractEntries(g);
    assert ms[0] == Member("contract_id", g.contractId);
    hide TaskContract.ToMembers;
    assert Clean(ms[0].value) && Clean(ms[12].value);
    hide Clean;
    AtClean(g.metadata.members, "task_id");
  }

  lemma DeliveryEntries(me: Party, capability: string, taskId: Value, p: TaskProposal, g: TaskContract, key: string)
    ensures var ms := DeliveryMetadata(me, capability, taskId, p, g, key);
            Get(ms, "contract") == Some(Obj(g.ToMembers())) && DistinctKeys(ms)
  {
    hide TaskContract.ToMembers, TaskProposal.ToMembers;
    var ms := DeliveryMetadata(me, capability, taskId, p, g, key);
    assert ms[0].key == "capability" && ms[1].key == "contract" && ms[2].key == "task_id";
    assert ms[3].key == "proposal" && ms[4].key == "requester_agent_id" && ms[5].key == "idempotency_key";
    GetAt(ms, 1);
  }

  /** What the server reads from a delivered message: the texts that were sent, and a hop of the rest. */
  lemma DeliveryIsRead(me: Party, capability: string, taskId: Value, p: TaskProposal, g: TaskContract, key: string,
                       delivered: Value)
    requires Hop(Obj(DeliveryMetadata(me, capability, taskId, p, g, key)), delivered)
    ensures delivered.Obj?
    ensures var ms := delivered.members;
            && At(ms, "capability") == Str(capability) && At(ms, "requester_agent_id") == Str(me.agentId)
            && At(ms, "idempotency_key") == Str(key)
            && Hop(taskId, At(ms, "task_id")) && Hop(Obj(g.ToMembers()), At(ms, "contract"))
            && Hop(Obj(p.ToMembers()), At(ms, "proposal"))
            && Get(ms, "message_id").None? && Get(ms, "sender_agent_id").None? && Get(ms, "action").None?
  {
    hide TaskContract.ToMembers, TaskProposal.ToMembers, Hop;
    var ms := DeliveryMetadata(me, capability, taskId, p, g, key);
    DeliveryMembers(me, capability, taskId, p, g, key);
    hide DeliveryMetadata;
    HopOfMember(ms, delivered, "capability");
    HopOfMember(ms, delivered, "contract");
    HopOfMember(ms, delivered, "task_id");
    HopOfMember(ms, delivered, "proposal");
    HopOfMember(ms, delivered, "requester_agent_id");
    HopOfMember(ms, delivered, "idempotency_key");
    HopAbsent(ms, delivered, "message_id");
    HopAbsent(ms, delivered, "sender_agent_id");
    HopAbsent(ms, delivered, "action");
    TextHops(capability, At(delivered.members, "capability"));
    TextHops(me.agentId, At(delivered.members, "requester_agent_id"));
    TextHops(key, At(delivered.members, "idempotency_key"));
  }

  lemma DeliveryMembers(me: Party, capability: string, taskId: Value, p: TaskProposal, g: TaskContract, key: string)
    ensures var ms := DeliveryMetadata(me, capability, taskId, p, g, key);
            && Get(ms, "capability") == Some(Str(capability)) && Get(ms, "contract") == Some(Obj(g.ToMembers()))
            && Get(ms, "task_id") == Some(taskId) && Get(ms, "proposal") == Some(Obj(p.ToMembers()))
            && Get(ms, "requester_agent_id") == Some(Str(me.agentId)) && Get(ms, "idempotency_key") == Some(Str(key))
            && Get(ms, "message_id").None? && Get(ms, "sender_agent_id").None? && Get(ms, "action").None?
  {
    hide TaskContract.ToMembers, TaskProposal.ToMembers;
    var ms := DeliveryMetadata(me, capability, taskId, p, g, key);
    DeliveryEntries(me, capability, taskId, p, g, key);
    assert ms[0].key == "capability" && ms[1].key == "contract" && ms[2].key == "task_id";
    assert ms[3].key == "proposal" && ms[4].key == "requester_agent_id" && ms[5].key == "idempotency_key";
    GetAt(ms, 0);
    GetAt(ms, 1);
    GetAt(ms, 2);
    GetAt(ms, 3);
    GetAt(ms, 4);
    GetAt(ms, 5);
    GetFinds(ms, "message_id");
    GetFinds(ms, "sender_agent_id");
    GetFinds(ms, "action");
  }

  lemma DeliverySendable(me: Party, capability: string, taskId: Value, p: TaskProposal, g: TaskContract, key: string)
    requires Clean(Obj(g.ToMembers())) && Sendable(Obj(p.ToMembers())) && Sendable(taskId)
    ensures Sendable(Obj(DeliveryMetadata(me, capability, taskId, p, g, key)))
  {
    hide TaskContract.ToMembers, TaskProposal.ToMembers, Clean, Sendable;
    CleanSendable(Obj(g.ToMembers()));
    AtomsSendable();
    DeliveryEntries(me, capability, taskId, p, g, key);
    DictSendable(DeliveryMetadata(me, capability, taskId, p, g, key));
  }

  /** The contract's metadata is a dict, before and after the hop. */
  lemma MetadataIsDict(w: World, executor: Party, raw: seq<Member>, metadata: seq<Member>, q: TaskProposal,
                       contractId: string, now: string, c: TaskContract, d: TaskContract)
    requires Shaped(w, executor, raw, metadata, q, contractId, now, c)
    requires Same(Obj(c.ToMembers()), Obj(d.ToMembers()))
    ensures d.metadata.Obj?
  {
    hide Shaped, TaskContract.ToMembers;
    ShapedMetadata(w, executor, raw, metadata, q, contractId, now, c);
    SamePlace(c, d, 12);
    FirstPlaces(c);
    FirstPlaces(d);
  }

  lemma ShapedMetadata(w: World, executor: Party, raw: seq<Member>, metadata: seq<Member>, q: TaskProposal,
                       contractId: string, now: string, c: TaskContract)
    requires Shaped(w, executor, raw, metadata, q, contractId, now, c)
    ensures c.metadata.Obj?
  {
    hide TaskContract.ToMembers, TaskProposal.ToMembers, DictOf, ObjectHash, PolicyHash;
    DictIsObj(OrElse(At(raw, "metadata"), At(metadata, "task_metadata")));
  }

  lemma SamePlace(c: TaskContract, d: TaskContract, i: nat)
    requires Same(Obj(c.ToMembers()), Obj(d.ToMembers())) && i < 26
    ensures |c.ToMembers()| == |d.ToMembers()| == 26 && Same(c.ToMembers()[i].value, d.ToMembers()[i].value)
  {
    hide TaskContract.ToMembers;
    ContractLayout(c, d);
  }

  lemma DictIsObj(v: Value)
    ensures DictOf(v).Some? ==> DictOf(v).value.Obj?
  {
  }

  // ------------------------------------------------------- the whole session

  /** A proposal as its requester makes it, before the signature is looked at. */
  ghost predicate ProposedBy(me: Party, p: TaskProposal, capability: string, version: string) {
    && Proposed(p, capability, version)
    && p.proposalId.Str? && p.revision == Int(1) && p.requester == Str(me.agentId)
    && p.objective.Str? && p.sideEffects.Str?
    && p.verification.Obj? && p.verification.members != []
  }

  /** The first message's proposal. */
  method SendProposal(w: World, me: Party, target: string, capability: string, version: string, objective: string,
                      constraints: Value, deliverables: Value, verification: seq<Member>, sideEffects: string,
                      idempotencyKey: Value, proposalId: string)
    returns (p: TaskProposal)
    requires Sendable(constraints) && Sendable(deliverables) && Sendable(Obj(verification)) && Sendable(idempotencyKey)
    requires CreateProposal(w, proposalId, me.agentId, target, capability, version, objective, constraints, deliverables,
                            Obj(RequesterPolicy(verification)), sideEffects, idempotencyKey).Some?
    ensures ProposedBy(me, p, capability, version) && SignedProposal(w, me, p)
    ensures AsAsked(p, proposalId, me.agentId, target, capability, version, objective, constraints, deliverables,
                    Obj(RequesterPolicy(verification)), sideEffects, idempotencyKey)
  {
    var policy := Obj(RequesterPolicy(verification));
    ghost var created := CreateProposal(w, proposalId, me.agentId, target, capability, version, objective, constraints,
                                        deliverables, policy, sideEffects, idempotencyKey).value;
    var sent := Propose(w, me, target, capability, version, objective, constraints, deliverables, verification, sideEffects,
                        idempotencyKey, proposalId);
    PolicySendable(verification);
    hide CreateProposal, Sendable, Proposed, FiniteNumbers;
    CreatedIsProposed(w, proposalId, me.agentId, target, capability, version, objective, constraints, deliverables, policy,
                      sideEffects, idempotencyKey, created, "");
    PayloadFinite(created.ToMembers());
    CreatedIsProposed(w, proposalId, me.agentId, target, capability, version, objective, constraints, deliverables, policy,
                      sideEffects, idempotencyKey, created, if sent.Some? then sent.value.signature.s else "");
    p := sent.value;
  }

  /** What the executor makes of the delivered proposal; None is an exception of `policy_hash`. */
  method AnswerProposal(w: World, executor: Party, workHandlers: set<string>, body: seq<Member>, metadata: seq<Member>,
                        freshId: string, contractId: string, now: string)
    returns (r: Option<(TaskContract, TaskProposal)>)
    requires Recognised(w, executor, workHandlers, body, metadata, freshId)
    ensures ReadVerification(w, executor, body, metadata, freshId).Some?
    ensures r.Some? <==> PolicyReadable(ReadVerification(w, executor, body, metadata, freshId).value)
    ensures r.Some? ==>
              var (c, q) := r.value;
              var raw := ProposalRaw(body, metadata);
              && ReadProposal(w, executor, raw, metadata, freshId) == Some(q)
              && Offered(w, executor, raw, metadata, q, contractId, now, c)
              && CleanContract(c) && CleanProposal(q) && Clean(Obj(raw)) && Clean(Obj(metadata))
  {
    hide Clean, CleanProposal, CleanContract, ReadProposal, ShapesFit, Shaped, PolicyReadable;
    var outcome := HandlePropose(w, executor, workHandlers, body, metadata, freshId, contractId, now);
    if !outcome.Offer? {
      return None;
    }
    var c, q := outcome.contract, outcome.proposal;
    ghost var raw := ProposalRaw(body, metadata);
    RequestClean(raw, metadata);
    ReadClean(w, executor, raw, metadata, freshId, q);
    ShapedClean(w, executor, raw, metadata, q, contractId, now, c);
    return Some((c, q));
  }

  datatype Settlement = Settlement(proposal: TaskProposal, offered: TaskContract, signed: TaskContract, verdict: GateResult)

  /** The requester's countersignature, and the executor's check of what is delivered. */
  method Settle(w: World, requester: Party, executor: Party, carry: Value -> Value, capability: string, p: TaskProposal,
                raw: seq<Member>, metadata: seq<Member>, freshId: string, contractId: string, now: string, q: TaskProposal,
                c: TaskContract, deliveryKey: string)
    returns (s: Settlement)
    requires Carries(carry) && Sendable(Obj(p.ToMembers()))
    requires Clean(Obj(raw)) && Clean(Obj(metadata)) && CleanProposal(q) && CleanContract(c)
    requires ReadProposal(w, executor, raw, metadata, freshId) == Some(q)
    requires Offered(w, executor, raw, metadata, q, contractId, now, c)
    ensures s.proposal == p && s.offered == c && s.verdict == Admitted && c.contractHash == s.signed.contractHash
    ensures SignedBy(w, requester, s.signed.requesterSignature, s.signed)
    ensures SignedBy(w, executor, s.signed.executorSignature, s.signed)
    ensures SignedFieldsAgree(c, s.signed)
  {
    hide SignedFieldsAgree, Clean, CleanProposal, CleanContract, ReadProposal, Sendable, Same, WellFormed, NumberSafe, FiniteNumbers, Hop,
         AnswerMetadata, DeliveryMetadata, Shaped, DeliveryTaskId, TaskContract.ToMembers, TaskContract.FromMembers,
         TaskProposal.ToMembers, Gate;
    var answer := AnswerMetadata(c, q);
    AnswerSendable(c, q);
    AnswerEntries(c, q);
    var answered := carry(Obj(answer));
    DecisionArrives(c, q, answered);
    OfferIsCountersignable(w, executor, raw, metadata, q, contractId, now, c, answer, answered);
    var d := ReceivedContract(answered.members);
    var outcome := Countersign(w, requester, "completed", answered.members, false, freshId);
    var g := outcome.contract;
    MetadataIsDict(w, executor, raw, metadata, q, contractId, now, c, d);
    CleanMeans(Obj(d.ToMembers()));
    CountersignedClean(w, requester, d, g);
    CountersignedAgrees(w, requester, c, d, g);
    var taskId := DeliveryTaskId(g);
    DeliveryTaskIdClean(g);
    CleanSendable(taskId);
    var delivery := DeliveryMetadata(requester, capability, taskId, p, g, deliveryKey);
    DeliverySendable(requester, capability, taskId, p, g, deliveryKey);
    DeliveryEntries(requester, capability, taskId, p, g, deliveryKey);
    var delivered := carry(Obj(delivery));
    NegotiationCompletes(w, requester, executor, capability, raw, metadata, freshId, q, contractId, now, c, answer, answered,
                         g, delivery, delivered);
    s := Settlement(p, c, g, Gate(executor.key, At(delivered.members, "contract"), capability, w.ff));
  }

  /** The default policy that the requester fills in does not change whether the policy is readable. */
  lemma RequesterPolicyReadable(verification: seq<Member>)
    ensures PolicyReadable(Obj(RequesterPolicy(verification))) <==> PolicyReadable(Obj(verification))
  {
    var filled := Put(verification, "policy", Str("REQUESTER_SELECTS"));
    PutGet(verification, "policy", Str("REQUESTER_SELECTS"), "required");
    PutGet(verification, "policy", Str("REQUESTER_SELECTS"), "verifiers");
    PutGet(verification, "policy", Str("REQUESTER_SELECTS"), "acceptance");
    PutGet(verification, "policy", Str("REQUESTER_SELECTS"), "required_passes");
    assert "policy"[0] != "required"[0] && "policy"[0] != "verifiers"[0] && "policy"[0] != "acceptance"[0];
    assert |"policy"| != |"required_passes"|;
    hide Iterable, IntOfValue;
  }

  /** The messages after the proposal has been signed. */
  method Conclude(w: World, requester: Party, executor: Party, workHandlers: set<string>, carry: Value -> Value,
                  capability: string, version: string, p: TaskProposal, taskMetadata: Value, freshId: string,
                  contractId: string, now: string, deliveryKey: string)
    returns (r: Option<Settlement>)
    requires Carries(carry) && capability != "" && capability in workHandlers
    requires ProposedBy(requester, p, capability, version)
    requires taskMetadata.Obj? && Sendable(taskMetadata)
    ensures r.Some? <==> PolicyReadable(p.verification)
    ensures r.Some? ==>
              var s := r.value;
              && s.proposal == p && s.verdict == Admitted
              && s.offered.contractHash == s.signed.contractHash
              && SignedBy(w, requester, s.signed.requesterSignature, s.signed)
              && SignedBy(w, executor, s.signed.executorSignature, s.signed)
              && SignedFieldsAgree(s.offered, s.signed)
              && NamesParties(s.offered, requester, executor, contractId, now, p.proposalId.s, capability, p.objective.s,
                              p.sideEffects.s)
              && Carried(s.offered, p.constraints, p.deliverables, p.verification, taskMetadata)
              && s.offered.proposalHash.Str?
              && (Faithful(w.ff) ==>
                    (ObjectHash(p.ToMembers(), w.ff) == Success(s.offered.proposalHash.s) <==>
                     NumberSafe(Obj(UnsignedPayload(p.ToMembers())))))
  {
    hide Clean, CleanProposal, CleanContract, ReadProposal, Sendable, NumberSafe, Hop, OfferMetadata, Recognised, Shaped,
         TaskContract.ToMembers, TaskProposal.ToMembers, UnsignedPayload, ProposalRaw, PolicyReadable, ReadVerification,
         NamesParties, Carried, SignedFieldsAgree, Offered, SignedBy;
    var offer := OfferMetadata(requester, p, taskMetadata);
    OfferEntries(requester, p, taskMetadata);
    OfferSendable(requester, p, taskMetadata);
    var body := carry(Obj(p.ToMembers()));
    var metadata := carry(Obj(offer));
    ProposalIsRecognised(w, requester, executor, workHandlers, p, capability, version, taskMetadata, body, metadata, freshId);
    var answer := AnswerProposal(w, executor, workHandlers, body.members, metadata.members, freshId, contractId, now);
    if answer.None? {
      return None;
    }
    var (c, q) := answer.value;
    var raw := ProposalRaw(body.members, metadata.members);
    var s := Settle(w, requester, executor, carry, capability, p, raw, metadata.members, freshId, contractId, now, q, c, deliveryKey);
    HopIsClean(Obj(p.ToMembers()), body);
    ProposalHashOf(w, executor, raw, metadata.members, q, contractId, now, c);
    OfferTerms(w, requester, executor, p, taskMetadata, body, metadata, freshId, q, contractId, now, c, capability, version);
    if Faithful(w.ff) {
      ProposalHashAgrees(w, executor, p, offer, metadata, body.members, freshId, q);
    }
    return Some(s);
  }

  /**
   * `Peer.propose_task` against `A2AServer` for a capability that the executor handles. It
   * settles exactly when the caller's verification is readable; otherwise the executor raises
   * and there is no contract. When it settles, the delivery check admits the contract, both
   * parties hold its hash, both signatures cover it, it names the two parties and says what the
   * caller asked for, and the executor's hash of the proposal is the requester's exactly when
   * the signed part of the proposal is number-safe.
   */
  method Negotiate(w: World, requester: Party, executor: Party, workHandlers: set<string>, carry: Value -> Value,
                   capability: string, version: string, objective: string, constraints: Value, deliverables: Value,
                   verification: seq<Member>, taskMetadata: Value, sideEffects: string, idempotencyKey: Value,
                   proposalId: string, freshId: string, contractId: string, now: string, deliveryKey: string)
    returns (r: Option<Settlement>)
    requires Carries(carry) && capability != "" && capability in workHandlers
    requires Sendable(constraints) && Sendable(deliverables) && Sendable(Obj(verification)) && Sendable(idempotencyKey)
    requires taskMetadata.Obj? && Sendable(taskMetadata)
    requires CreateProposal(w, proposalId, requester.agentId, executor.agentId, capability, version, objective,
                            constraints, deliverables, Obj(RequesterPolicy(verification)), sideEffects, idempotencyKey).Some?
    ensures r.Some? <==> PolicyReadable(Obj(verification))
    ensures ListOf(constraints).Some? && ListOf(deliverables).Some?
    ensures r.Some? ==>
              var s := r.value;
              && s.verdict == Admitted
              && s.offered.contractHash == s.signed.contractHash
              && SignedBy(w, requester, s.signed.requesterSignature, s.signed)
              && SignedBy(w, executor, s.signed.executorSignature, s.signed)
              && SignedFieldsAgree(s.offered, s.signed)
              && NamesParties(s.signed, requester, executor, contractId, now, proposalId, capability, objective, sideEffects)
              && Carried(s.offered, ListOf(constraints).value, ListOf(deliverables).value,
                         Obj(RequesterPolicy(verification)), taskMetadata)
              && SignedProposal(w, requester, s.proposal)
              && AsAsked(s.proposal, proposalId, requester.agentId, executor.agentId, capability, version, objective,
                         constraints, deliverables, Obj(RequesterPolicy(verification)), sideEffects, idempotencyKey)
              && s.offered.proposalHash.Str?
              && (Faithful(w.ff) ==>
                    (ObjectHash(s.proposal.ToMembers(), w.ff) == Success(s.offered.proposalHash.s) <==>
                     NumberSafe(Obj(UnsignedPayload(s.proposal.ToMembers())))))
  {
    var p := SendProposal(w, requester, executor.agentId, capability, version, objective, constraints, deliverables,
                          verification, sideEffects, idempotencyKey, proposalId);
    assert p.proposalId == Str(proposalId) && p.objective == Str(objective) && p.sideEffects == Str(sideEffects);
    assert Some(p.constraints) == ListOf(constraints) && Some(p.deliverables) == ListOf(deliverables);
    assert p.verification == Obj(RequesterPolicy(verification));
    hide AsAsked, ProposedBy, Sendable, NumberSafe, TaskContract.ToMembers, TaskProposal.ToMembers, CreateProposal, SignedProposal,
         UnsignedPayload, PolicyReadable, NamesParties, Carried, SignedFieldsAgree, ListOf, SignedBy, Carries;
    RequesterPolicyReadable(verification);
    r := Conclude(w, requester, executor, workHandlers, carry, capability, version, p, taskMetadata, freshId, contractId, now,
                  deliveryKey);
    if r.Some? {
      NamesAgree(r.value.offered, r.value.signed, requester, executor, contractId, now, proposalId, capability, objective,
                 sideEffects);
    }
  }

  /** The offered contract says what was proposed, with the task's metadata. */
  lemma OfferTerms(w: World, requester: Party, executor: Party, p: TaskProposal, taskMetadata: Value, body: Value,
                   metadata: Value, freshId: string, q: TaskProposal, contractId: string, now: string, c: TaskContract,
                   capability: string, version: string)
    requires ProposedBy(requester, p, capability, version) && taskMetadata.Obj?
    requires Hop(Obj(p.ToMembers()), body) && Hop(Obj(OfferMetadata(requester, p, taskMetadata)), metadata)
    requires body.Obj? && metadata.Obj?
    requires var raw := ProposalRaw(body.members, metadata.members);
             && ReadProposal(w, executor, raw, metadata.members, freshId) == Some(q)
             && Offered(w, executor, raw, metadata.members, q, contractId, now, c)
    ensures NamesParties(c, requester, executor, contractId, now, p.proposalId.s, capability, p.objective.s, p.sideEffects.s)
    ensures Carried(c, p.constraints, p.deliverables, p.verification, taskMetadata)
  {
    hide Sendable, SignedBy, TaskProposal.ToMembers, OfferMetadata, Hop, ReadProposal, ProposalArrives, Shaped, NamesParties, Carried, ProposalRaw,
         CapabilityRef, Clean;
    var offer := OfferMetadata(requester, p, taskMetadata);
    var raw := ProposalRaw(body.members, metadata.members);
    OfferEntries(requester, p, taskMetadata);
    HopOfMember(offer, metadata, "proposal");
    HopOfMember(offer, metadata, "task_metadata");
    HopOfMember(offer, metadata, "requester_key_id");
    TextHops(requester.keyId, At(metadata.members, "requester_key_id"));
    var copy := At(metadata.members, "proposal");
    ReferenceIsDict(capability, version);
    ProposalKeysArrive(p, copy);
    ProposalIsReadAsSent(w, executor, p, body.members, metadata.members, copy.members, freshId, q);
    NoSuchKeys(p);
    HopAbsent(p.ToMembers(), body, "metadata");
    HopAbsent(p.ToMembers(), copy, "metadata");
    HopAbsent(p.ToMembers(), body, "requester_key_id");
    HopAbsent(p.ToMembers(), copy, "requester_key_id");
    HopIsClean(Obj(p.ToMembers()), copy);
    DictDistinct(copy.members);
    RawEntries(body.members, metadata.members, "metadata");
    RawEntries(body.members, metadata.members, "requester_key_id");
    OfferNames(w, requester, executor, p, raw, metadata.members, q, contractId, now, c, p.proposalId.s, capability,
               version, p.objective.s, p.sideEffects.s);
    OfferCarries(w, executor, p, raw, metadata.members, q, contractId, now, c, taskMetadata);
  }

  lemma ReferenceIsDict(capability: string, version: string)
    ensures CapabilityRef(Str(capability), Str(version)).Obj?
  {
  }

  lemma ProposalHashOf(w: World, executor: Party, raw: seq<Member>, metadata: seq<Member>, q: TaskProposal,
                       contractId: string, now: string, c: TaskContract)
    requires Offered(w, executor, raw, metadata, q, contractId, now, c)
    ensures c.proposalHash.Str? && ObjectHash(q.ToMembers(), w.ff) == Success(c.proposalHash.s)
  {
  }

  /**
   * The failing input: with the count "many" the proposal can be created, so everything that
   * `Negotiate` asks for holds, and it does not settle.
   */
  lemma ManyPassesNeverSettle(w: World, proposalId: string, requester: string, executor: string, capability: string,
                              version: string, objective: string, sideEffects: string)
    requires executor != "v"
    ensures RequesterPolicy(Verifiers.ManyPasses()) == Verifiers.ManyPasses()
    ensures CreateProposal(w, proposalId, requester, executor, capability, version, objective, Arr([]), Arr([]),
                           Obj(Verifiers.ManyPasses()), sideEffects, Null).Some?
    ensures Sendable(Obj(Verifiers.ManyPasses())) && !PolicyReadable(Obj(Verifiers.ManyPasses()))
  {
    Verifiers.AcceptedButUnreadable(w.str, executor);
    Verifiers.ManyPassesEntries();
    Verifiers.RequesterName();
    ManySendable();
    hide Verifiers.ManyPasses, At, Sendable, PolicyReadable, Verifiers.Validate;
  }

  lemma ManySendable()
    ensures Sendable(Obj(Verifiers.ManyPasses()))
  {
    var ms := Verifiers.ManyPasses();
    assert ms[0].key == "required" && ms[1].key == "policy" && ms[2].key == "verifier_agent_id" && ms[3].key == "required_passes";
    DictSendable(ms);
  }
}
