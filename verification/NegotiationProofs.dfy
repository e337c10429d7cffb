/**
 * What negotiation guarantees from end to end. A contract built by `HandlePropose`, carried
 * over a hop, rebuilt and countersigned, and carried back, passes the executor's delivery
 * check, whatever numbers the requester put into its proposal.
 */
module NegotiationProofs {
  import opened Wrappers
  import opened Json
  import opened JsonText
  import opened Transport
  import opened Crypto
  import opened Records
  import opened Python
  import opened Negotiation

  // ------------------------------------------------------- hops and dicts

  /** A hop of a dict is a hop of each of its values. */
  lemma HopOfMember(ms: seq<Member>, received: Value, key: string)
    requires Hop(Obj(ms), received) && Get(ms, key).Some?
    ensures received.Obj? && Get(received.members, key).Some?
    ensures Hop(Get(ms, key).value, Get(received.members, key).value)
  {
    var wire :| WellFormed(wire) && Same(ToStruct(Obj(ms)), wire) && received == Restore(wire);
    var ts := ToStruct(Obj(ms)).members;
    GetFinds(ms, key);
    var i :| 0 <= i < |ms| && ms[i] == Member(key, Get(ms, key).value);
    assert HasKey(wire.members, ts[i].key);
    var j :| 0 <= j < |wire.members| && wire.members[j].key == key;
    assert Same(ts[i].value, wire.members[j].value);
    RestoreWellFormed(wire);
    GetAt(received.members, j);
    assert received.members[j] == Member(key, Restore(wire.members[j].value));
  }

  lemma {:induction false} SameNumberSafe(a: Value, b: Value)
    requires Same(a, b)
    ensures NumberSafe(a) <==> NumberSafe(b)
    decreases a
  {
    match a
    case Arr(xs) =>
      forall i | 0 <= i < |xs|
        ensures NumberSafe(xs[i]) <==> NumberSafe(b.items[i])
      {
        SameNumberSafe(xs[i], b.items[i]);
      }
    case Obj(ms) =>
      var ns := b.members;
      forall i, j | 0 <= i < |ms| && 0 <= j < |ns| && ms[i].key == ns[j].key
        ensures NumberSafe(ms[i].value) <==> NumberSafe(ns[j].value)
      {
        SameNumberSafe(ms[i].value, ns[j].value);
      }
      assert forall i | 0 <= i < |ms| :: HasKey(ns, ms[i].key);
      assert forall j | 0 <= j < |ns| :: HasKey(ms, ns[j].key);
    case _ =>
  }

  lemma {:induction false} UpdateGet(ms: seq<Member>, other: seq<Member>, key: string)
    requires DistinctKeys(other)
    ensures Get(Update(ms, other), key) == if Get(other, key).Some? then Get(other, key) else Get(ms, key)
    decreases |other|
  {
    if other != [] {
      var first := Put(ms, other[0].key, other[0].value);
      assert forall i | 0 <= i < |other[1..]| :: other[1..][i] == other[i + 1];
      UpdateGet(first, other[1..], key);
      PutGet(ms, other[0].key, other[0].value, key);
      GetFinds(other[1..], key);
      if key == other[0].key {
        assert !HasKey(other[1..], key);
      }
    }
  }

  /** The proposal in the metadata overrides the data part, key by key. */
  lemma RawEntries(body: seq<Member>, metadata: seq<Member>, key: string)
    requires At(metadata, "proposal").Obj? ==> DistinctKeys(At(metadata, "proposal").members)
    ensures Get(ProposalRaw(body, metadata), key) ==
            if At(metadata, "proposal").Obj? && Get(At(metadata, "proposal").members, key).Some?
            then Get(At(metadata, "proposal").members, key) else Get(body, key)
  {
    if At(metadata, "proposal").Obj? {
      UpdateGet(body, At(metadata, "proposal").members, key);
    }
  }

  lemma {:induction false} UpdateClean(ms: seq<Member>, other: seq<Member>)
    requires Clean(Obj(ms)) && Clean(Obj(other))
    ensures Clean(Obj(Update(ms, other)))
    decreases |other|
  {
    if other != [] {
      TailClean(other);
      PutClean(ms, other[0].key, other[0].value);
      UpdateClean(Put(ms, other[0].key, other[0].value), other[1..]);
    }
  }

  lemma HopIsClean(sent: Value, received: Value)
    requires Hop(sent, received)
    ensures Clean(received)
  {
    HopCleans(sent, received);
    CleanMeans(received);
  }

  /** What the executor reads from two received dicts is clean. */
  lemma RawIsClean(body: seq<Member>, metadata: seq<Member>)
    requires Clean(Obj(body)) && Clean(Obj(metadata))
    ensures Clean(Obj(ProposalRaw(body, metadata)))
  {
    AtClean(metadata, "proposal");
    if At(metadata, "proposal").Obj? {
      UpdateClean(body, At(metadata, "proposal").members);
    }
  }

  // ---------------------------------------------- executor to requester

  /** Fields of two contracts whose dicts agree. */
  lemma SameContractFields(c: TaskContract, d: TaskContract)
    requires Same(Obj(c.ToMembers()), Obj(d.ToMembers()))
    ensures Same(c.status, d.status) && Same(c.executorSignature, d.executorSignature)
    ensures Same(c.proposalHash, d.proposalHash)
  {
    var ms, ns := c.ToMembers(), d.ToMembers();
    ContractLayout(c, d);
    assert Same(ms[9].value, ns[9].value) && Same(ms[18].value, ns[18].value) && Same(ms[15].value, ns[15].value);
  }

  /** The requester rebuilds, from what the hop delivers, a contract with the same dict. */
  lemma ContractTravels(c: TaskContract, received: Value)
    requires CleanContract(c) && Hop(Obj(c.ToMembers()), received)
    ensures received.Obj? && TaskContract.FromMembers(received.members).Some?
    ensures var d := TaskContract.FromMembers(received.members).value;
            && WellFormed(Obj(d.ToMembers())) && NumberSafe(Obj(d.ToMembers())) && FiniteNumbers(Obj(d.ToMembers()))
            && Same(Obj(c.ToMembers()), Obj(d.ToMembers()))
  {
    ContractFieldsClean(c);
    CleanMeans(Obj(c.ToMembers()));
    HopDelivers(Obj(c.ToMembers()), received);
    ContractRebuilt(c, received.members);
    var d := TaskContract.FromMembers(received.members).value;
    SameNumberSafe(Obj(c.ToMembers()), Obj(d.ToMembers()));
    SameFiniteNumbers(Obj(c.ToMembers()), Obj(d.ToMembers()));
  }

  lemma ShapedStatus(w: World, me: Party, raw: seq<Member>, metadata: seq<Member>, p: TaskProposal,
                     contractId: string, now: string, c: TaskContract)
    requires Shaped(w, me, raw, metadata, p, contractId, now, c)
    ensures c.status == Str("SIGNED")
  {
  }

  lemma SameText(a: Value, b: Value)
    requires Same(a, b) && a.Str?
    ensures a == b
  {
  }

  /** The answer always holds a contract that the requester can countersign. */
  lemma OfferIsCountersignable(w: World, executor: Party, raw: seq<Member>, metadata: seq<Member>, q: TaskProposal,
                               contractId: string, now: string, c: TaskContract, answer: seq<Member>, answered: Value)
    requires Clean(Obj(raw)) && Clean(Obj(metadata)) && CleanProposal(q)
    requires Offered(w, executor, raw, metadata, q, contractId, now, c)
    requires Get(answer, "contract") == Some(Obj(c.ToMembers())) && Hop(Obj(answer), answered)
    ensures answered.Obj? && Countersignable(answered.members)
    ensures var d := ReceivedContract(answered.members);
            && WellFormed(Obj(d.ToMembers())) && NumberSafe(Obj(d.ToMembers())) && FiniteNumbers(Obj(d.ToMembers()))
            && Same(Obj(c.ToMembers()), Obj(d.ToMembers()))
            && d.status == Str("SIGNED") && d.executorSignature == c.executorSignature
  {
    hide TaskContract.ToMembers, TaskContract.FromMembers, Shaped, WellFormed, NumberSafe, FiniteNumbers, Clean, CleanContract, Same;
    ShapedClean(w, executor, raw, metadata, q, contractId, now, c);
    ShapedStatus(w, executor, raw, metadata, q, contractId, now, c);
    ContractFieldsClean(c);
    CleanMeans(Obj(c.ToMembers()));
    HopOfMember(answer, answered, "contract");
    var received := Get(answered.members, "contract").value;
    ContractTravels(c, received);
    var d := TaskContract.FromMembers(received.members).value;
    SameContractFields(c, d);
    SameText(c.status, d.status);
    SameText(c.executorSignature, d.executorSignature);
    HopDelivers(Obj(c.ToMembers()), received);
    ReceivedSignature(c, received.members);
    SameText(c.executorSignature, At(received.members, "executor_signature"));
    SignaturesAreNotEmpty(w, executor, c.executorSignature, c);
  }

  lemma ReceivedSignature(c: TaskContract, ns: seq<Member>)
    requires Same(Obj(c.ToMembers()), Obj(ns)) && WellFormed(Obj(ns))
    ensures Same(c.executorSignature, At(ns, "executor_signature"))
    ensures Same(c.requesterSignature, At(ns, "requester_signature"))
  {
    hide TaskContract.ToMembers;
    var ms := c.ToMembers();
    ContractEntries(c);
    GetFromSame(ms, ns, 17);
    GetFromSame(ms, ns, 18);
  }

  // ---------------------------------------------- requester to executor

  /** Countersigning a contract that is already SIGNED does not touch what the executor signed. */
  lemma CountersigningKeepsPayload(w: World, requester: Party, d: TaskContract, g: TaskContract)
    requires Countersigned(w, requester, d, g) && d.status == Str("SIGNED")
    ensures UnsignedPayload(g.ToMembers()) == UnsignedPayload(d.ToMembers())
    ensures SignedBy(w, requester, g.requesterSignature, g)
    ensures g.executorSignature == d.executorSignature
  {
    ContractOmits(d, g.requesterSignature, d.executorSignature, g.contractHash);
    assert g == d.(requesterSignature := g.requesterSignature, contractHash := g.contractHash);
  }

  lemma CountersignedShape(w: World, requester: Party, d: TaskContract, g: TaskContract)
    requires Countersigned(w, requester, d, g)
    requires WellFormed(Obj(d.ToMembers())) && NumberSafe(Obj(d.ToMembers()))
    ensures WellFormed(Obj(g.ToMembers())) && NumberSafe(Obj(g.ToMembers()))
  {
    hide WellFormed, NumberSafe, TaskContract.ToMembers;
    var ms, ns := d.ToMembers(), g.ToMembers();
    ContractLayout(g, d);
    ContractPairwise(d, g, (a: Value, b: Value) => a == b || b.Str?);
    TextReplaced(ms, ns);
  }

  lemma TextReplaced(ms: seq<Member>, ns: seq<Member>)
    requires |ms| == |ns| && DistinctKeys(ns)
    requires forall i | 0 <= i < |ms| :: ns[i].value == ms[i].value || ns[i].value.Str?
    requires WellFormed(Obj(ms)) && NumberSafe(Obj(ms))
    ensures WellFormed(Obj(ns)) && NumberSafe(Obj(ns))
  {
  }

  /** Over the second hop the executor's signature still verifies, and the check admits. */
  lemma DeliveryAdmitted(w: World, executor: Party, capability: string, c: TaskContract, g: TaskContract, received: Value)
    requires WellFormed(Obj(c.ToMembers())) && WellFormed(Obj(g.ToMembers())) && NumberSafe(Obj(g.ToMembers()))
    requires SignedBytes(c.ToMembers(), w.ff) == SignedBytes(g.ToMembers(), w.ff)
    requires SignedBy(w, executor, c.executorSignature, c) && g.executorSignature == c.executorSignature
    requires g.requesterSignature.Str? && g.requesterSignature.s != ""
    requires Hop(Obj(g.ToMembers()), received)
    ensures Gate(executor.key, received, capability, w.ff) == Admitted
  {
    hide TaskContract.ToMembers, WellFormed, NumberSafe, ToStruct, Transportable, UnsignedPayload;
    HopKeepsDict(Obj(g.ToMembers()), received);
    HopDelivers(Obj(g.ToMembers()), received);
    hide Same;
    var ns := received.members;
    ReceivedSignature(g, ns);
    SameGivesSameSignedBytes(g.ToMembers(), ns, w.ff);
    assert VerifyObject(executor.key, ns, g.executorSignature.s, w.ff) == Success(true);
  }

  lemma SignaturesAreNotEmpty(w: World, me: Party, signature: Value, c: TaskContract)
    requires SignedBy(w, me, signature, c)
    ensures Truthy(signature)
  {
    var bytes := SignedBytes(c.ToMembers(), w.ff).value;
    assert |SignatureText(me.key, bytes)| >= 8;
  }

  // ------------------------------------------------------- the main results

  /**
   * End to end: the executor's offer, the requester's countersignature over what the first
   * hop delivered, and the delivery over the second hop. The executor's check admits the
   * contract, both parties hold the same contract hash, and both signatures cover the
   * countersigned contract. Nothing is assumed of the numbers in the request.
   */
  lemma NegotiationCompletes(w: World, requester: Party, executor: Party, capability: string, raw: seq<Member>,
                             metadata: seq<Member>, freshId: string, q: TaskProposal, contractId: string, now: string,
                             c: TaskContract, answer: seq<Member>, answered: Value, g: TaskContract,
                             delivery: seq<Member>, delivered: Value)
    requires Clean(Obj(raw)) && Clean(Obj(metadata))
    requires ReadProposal(w, executor, raw, metadata, freshId) == Some(q)
    requires Offered(w, executor, raw, metadata, q, contractId, now, c)
    requires Get(answer, "contract") == Some(Obj(c.ToMembers())) && Hop(Obj(answer), answered)
    requires answered.Obj? && Countersignable(answered.members)
    requires Countersigned(w, requester, ReceivedContract(answered.members), g)
    requires Get(delivery, "contract") == Some(Obj(g.ToMembers())) && Hop(Obj(delivery), delivered)
    ensures delivered.Obj? && Gate(executor.key, At(delivered.members, "contract"), capability, w.ff) == Admitted
    ensures g.contractHash == c.contractHash
    ensures SignedBy(w, requester, g.requesterSignature, g) && SignedBy(w, executor, g.executorSignature, g)
  {
    hide TaskContract.ToMembers, TaskContract.FromMembers, Shaped, WellFormed, NumberSafe, FiniteNumbers, Clean, CleanContract, ReadProposal;
    RequestClean(raw, metadata);
    ReadClean(w, executor, raw, metadata, freshId, q);
    OfferIsCountersignable(w, executor, raw, metadata, q, contractId, now, c, answer, answered);
    var d := ReceivedContract(answered.members);
    ShapedClean(w, executor, raw, metadata, q, contractId, now, c);
    ContractFieldsClean(c);
    CleanMeans(Obj(c.ToMembers()));
    SameGivesSameSignedBytes(c.ToMembers(), d.ToMembers(), w.ff);
    CountersigningKeepsPayload(w, requester, d, g);
    CountersignedShape(w, requester, d, g);
    SignaturesAreNotEmpty(w, requester, g.requesterSignature, g);
    HopOfMember(delivery, delivered, "contract");
    DeliveryAdmitted(w, executor, capability, c, g, Get(delivered.members, "contract").value);
  }

  /**
   * The check decides by what was signed: presenting the signature that the executor made
   * over `c`, a contract is admitted exactly when it agrees with `c`, up to key order,
   * outside signatures and derived hashes.
   */
  lemma GateAdmitsWhatWasSigned(w: World, executor: Party, capability: string, c: TaskContract, presented: seq<Member>)
    requires Faithful(w.ff) && SignedBy(w, executor, c.executorSignature, c)
    requires WellFormed(Obj(c.ToMembers())) && FiniteNumbers(Obj(c.ToMembers()))
    requires WellFormed(Obj(presented)) && FiniteNumbers(Obj(presented))
    requires At(presented, "executor_signature") == c.executorSignature
    requires Truthy(At(presented, "requester_signature")) && capability != "task.propose"
    ensures Gate(executor.key, Obj(presented), capability, w.ff) ==
            if Same(Obj(UnsignedPayload(c.ToMembers())), Obj(UnsignedPayload(presented))) then Admitted
            else SignatureMismatch
  {
    SignaturesAreNotEmpty(w, executor, c.executorSignature, c);
    VerifyMeansSigned(executor.key, c.ToMembers(), executor.key, presented, w.ff);
    assert presented != [];
  }

  /**
   * Status is signed, so countersigning a contract that arrived with another status breaks
   * the executor's signature; with SIGNED it never does.
   */
  lemma CountersigningPreservesIff(w: World, requester: Party, executor: Party, d: TaskContract, g: TaskContract)
    requires Faithful(w.ff) && WellFormed(Obj(d.ToMembers())) && FiniteNumbers(Obj(d.ToMembers()))
    requires WellFormed(Obj(g.ToMembers())) && FiniteNumbers(Obj(g.ToMembers()))
    requires SignedBy(w, executor, d.executorSignature, d) && Countersigned(w, requester, d, g)
    ensures SignedBy(w, executor, g.executorSignature, g) <==> d.status == Str("SIGNED")
  {
    hide TaskContract.ToMembers, WellFormed, FiniteNumbers, Same;
    if d.status == Str("SIGNED") {
      CountersigningKeepsPayload(w, requester, d, g);
    } else {
      VerifyMeansSigned(executor.key, d.ToMembers(), executor.key, g.ToMembers(), w.ff);
      if Same(Obj(UnsignedPayload(d.ToMembers())), Obj(UnsignedPayload(g.ToMembers()))) {
        StatusIsSigned(d, g);
        SameTextBack(d.status, g.status);
      }
    }
  }

  lemma SameTextBack(a: Value, b: Value)
    requires Same(a, b) && b.Str?
    ensures a == b
  {
  }

  lemma StatusMember(c: TaskContract)
    ensures Member("status", c.status) in c.ToMembers()
  {
    ContractEntries(c);
  }

  lemma StatusNotOmitted()
    ensures !Omitted("status")
  {
  }

  lemma StatusIsSigned(c: TaskContract, d: TaskContract)
    requires Same(Obj(UnsignedPayload(c.ToMembers())), Obj(UnsignedPayload(d.ToMembers())))
    ensures Same(c.status, d.status)
  {
    hide TaskContract.ToMembers;
    var m, n := Member("status", c.status), Member("status", d.status);
    StatusMember(c);
    StatusMember(d);
    StatusNotOmitted();
    UnsignedPayloadMembers(c.ToMembers());
    UnsignedPayloadMembers(d.ToMembers());
    SameMembers(UnsignedPayload(c.ToMembers()), UnsignedPayload(d.ToMembers()), m, n);
  }

  // ------------------------------------------------------ proposal hashes

  /** A dict that already has the keys and a capability dict is used as it is. */
  lemma PayloadIsRaw(raw: seq<Member>, freshId: string)
    requires |PROPOSAL_KEYS| == 13 && forall i | 0 <= i < 13 :: Get(raw, PROPOSAL_KEYS[i]).Some?
    requires At(raw, "capability").Obj?
    ensures ProposalPayload(raw, freshId) == raw && Get(raw, "proposal_id").Some?
  {
    assert PROPOSAL_KEYS[0] == "proposal_id" && PROPOSAL_KEYS[1] == "revision" && PROPOSAL_KEYS[2] == "requester";
    assert PROPOSAL_KEYS[3] == "target" && PROPOSAL_KEYS[4] == "capability" && PROPOSAL_KEYS[5] == "objective";
  }

  /** The received proposal answers `get` for every key, whatever happened to its numbers. */
  lemma ProposalKeysArrive(p: TaskProposal, received: Value)
    requires Hop(Obj(p.ToMembers()), received) && p.capability.Obj?
    ensures received.Obj? && |PROPOSAL_KEYS| == 13
    ensures forall i | 0 <= i < 13 :: Get(received.members, PROPOSAL_KEYS[i]).Some?
    ensures At(received.members, "capability").Obj?
  {
    hide WellFormed, NumberSafe, Transportable, ToStruct, Hop;
    var ms := p.ToMembers();
    ProposalKeys(p);
    ProposalLayout(p, p);
    HopKeepsDict(Obj(ms), received);
    forall i | 0 <= i < 13
      ensures Get(received.members, PROPOSAL_KEYS[i]).Some?
    {
      GetAt(ms, i);
      HopOfMember(ms, received, PROPOSAL_KEYS[i]);
    }
    assert ms[4] == Member("capability", p.capability);
    GetAt(ms, 4);
    HopOfMember(ms, received, "capability");
    HopKeepsDict(p.capability, At(received.members, "capability"));
  }

  lemma HopKeepsDict(sent: Value, received: Value)
    requires Hop(sent, received) && sent.Obj?
    ensures received.Obj?
  {
  }

  lemma OnlySignatureOmitted()
    ensures |PROPOSAL_KEYS| == 13 && forall i | 0 <= i < 12 :: !Omitted(PROPOSAL_KEYS[i])
  {
  }

  /** The signature is the only omitted field of a proposal, and it is text. */
  lemma ProposalPayloadSafe(p: TaskProposal)
    requires p.signature.Str?
    ensures NumberSafe(Obj(UnsignedPayload(p.ToMembers()))) <==> NumberSafe(Obj(p.ToMembers()))
  {
    hide UnsignedPayload, NumberSafe, Omitted;
    var ms := p.ToMembers();
    ProposalKeys(p);
    OnlySignatureOmitted();
    UnsignedPayloadMembers(ms);
    assert ms[12].value == p.signature;
    OmittedText(ms, UnsignedPayload(ms));
  }

  lemma OmittedText(ms: seq<Member>, us: seq<Member>)
    requires forall m :: m in us <==> m in ms && !Omitted(m.key)
    requires forall i | 0 <= i < |ms| && Omitted(ms[i].key) :: ms[i].value.Str?
    ensures NumberSafe(Obj(us)) <==> NumberSafe(Obj(ms))
  {
    if NumberSafe(Obj(us)) {
      forall i | 0 <= i < |ms|
        ensures NumberSafe(ms[i].value)
      {
        if !Omitted(ms[i].key) {
          assert ms[i] in us;
        }
      }
    }
    if NumberSafe(Obj(ms)) {
      forall i | 0 <= i < |us|
        ensures NumberSafe(us[i].value)
      {
        assert us[i] in ms;
      }
    }
  }

  /** The executor's proposal is read from the received copy, key by key. */
  lemma ReadFromCopy(w: World, executor: Party, body: seq<Member>, metadata: seq<Member>, copy: seq<Member>,
                     freshId: string, q: TaskProposal)
    requires At(metadata, "proposal") == Obj(copy) && DistinctKeys(copy)
    requires |PROPOSAL_KEYS| == 13 && forall i | 0 <= i < 13 :: Get(copy, PROPOSAL_KEYS[i]).Some?
    requires At(copy, "capability").Obj?
    requires ReadProposal(w, executor, ProposalRaw(body, metadata), metadata, freshId) == Some(q)
    ensures var raw := ProposalRaw(body, metadata);
            && TaskProposal.FromMembers(raw) == Some(q)
            && forall i | 0 <= i < 13 :: Get(raw, PROPOSAL_KEYS[i]) == Get(copy, PROPOSAL_KEYS[i])
  {
    hide TaskProposal.FromMembers, ProposalPayload, CreateProposal;
    var raw := ProposalRaw(body, metadata);
    forall i | 0 <= i < 13
      ensures Get(raw, PROPOSAL_KEYS[i]) == Get(copy, PROPOSAL_KEYS[i])
    {
      UpdateGet(body, copy, PROPOSAL_KEYS[i]);
    }
    UpdateGet(body, copy, "capability");
    PayloadIsRaw(raw, freshId);
  }

  /**
   * The hash the executor puts into the contract is the requester's own hash of its proposal
   * exactly when the signed part of the proposal is number-safe.
   */
  lemma ProposalHashAgrees(w: World, executor: Party, p: TaskProposal, offer: seq<Member>, offered: Value,
                           body: seq<Member>, freshId: string, q: TaskProposal)
    requires Faithful(w.ff) && p.signature.Str? && p.capability.Obj?
    requires Get(offer, "proposal") == Some(Obj(p.ToMembers())) && Hop(Obj(offer), offered)
    requires offered.Obj? && Clean(Obj(body))
    requires ReadProposal(w, executor, ProposalRaw(body, offered.members), offered.members, freshId) == Some(q)
    ensures ObjectHash(q.ToMembers(), w.ff) == ObjectHash(p.ToMembers(), w.ff) <==>
            NumberSafe(Obj(UnsignedPayload(p.ToMembers())))
  {
    hide TaskProposal.ToMembers, TaskProposal.FromMembers, ReadProposal, WellFormed, NumberSafe, FiniteNumbers,
         Transportable, ToStruct, Same, Clean;
    var metadata := offered.members;
    HopOfMember(offer, offered, "proposal");
    var received := Get(metadata, "proposal").value;
    ProposalKeysArrive(p, received);
    HopIsClean(Obj(offer), offered);
    HopIsClean(Obj(p.ToMembers()), received);
    DictDistinct(received.members);
    ReadFromCopy(w, executor, body, metadata, received.members, freshId, q);
    RawIsClean(body, metadata);
    RequestClean(ProposalRaw(body, metadata), metadata);
    ReadClean(w, executor, ProposalRaw(body, metadata), metadata, freshId, q);
    ProposalFieldsClean(q);
    CleanMeans(Obj(q.ToMembers()));
    TransportableIsFinite(Obj(p.ToMembers()));
    HashMeansSame(q.ToMembers(), p.ToMembers(), w.ff);
    ProposalPayloadSafe(p);
    if NumberSafe(Obj(p.ToMembers())) {
      HopDelivers(Obj(p.ToMembers()), received);
      CleanMeans(received);
      ProposalRebuilt(p, received.members, ProposalRaw(body, metadata));
      SameGivesSameSignedBytes(p.ToMembers(), q.ToMembers(), w.ff);
    } else if ObjectHash(q.ToMembers(), w.ff) == ObjectHash(p.ToMembers(), w.ff) {
      PayloadSafe(q.ToMembers());
      SameNumberSafe(Obj(UnsignedPayload(q.ToMembers())), Obj(UnsignedPayload(p.ToMembers())));
    }
  }

  lemma DictDistinct(ms: seq<Member>)
    requires Clean(Obj(ms))
    ensures DistinctKeys(ms)
  {
  }

  lemma PayloadSafe(ms: seq<Member>)
    requires NumberSafe(Obj(ms))
    ensures NumberSafe(Obj(UnsignedPayload(ms)))
  {
    UnsignedPayloadMembers(ms);
    forall i | 0 <= i < |UnsignedPayload(ms)|
      ensures NumberSafe(UnsignedPayload(ms)[i].value)
    {
      assert UnsignedPayload(ms)[i] in ms;
    }
  }
}
