/**
 * `sign_contract_from_proposal`, where one process holds both identities, and what the
 * stored `verification_policy_hash` means on either way of building a contract.
 */
module Agreement {
  import opened Wrappers
  import opened Json
  import opened JsonText
  import opened Transport
  import opened Crypto
  import opened Records
  import opened Python
  import opened Negotiation
  import opened NegotiationProofs
  import Quorum
  import Verifiers
  import Verdicts

  // --------------------------------------------------------- direct signing

  /** The fields of a contract that is signed straight from a proposal. */
  ghost predicate Drawn(w: World, requester: Party, executor: Party, p: TaskProposal, contractId: string, now: string,
                        c: TaskContract)
  {
    && c.contractId == Str(contractId) && c.createdAt == Str(now)
    && c.requester == p.requester && c.executor == p.target
    && p.capability.Obj? && Get(p.capability.members, "id") == Some(c.capability)
    && c.objective == p.objective
    && ListOf(p.constraints) == Some(c.constraints) && ListOf(p.deliverables) == Some(c.deliverables)
    && c.verification == OrElse(p.verification, NOT_REQUIRED)
    && c.metadata == Obj([Member("proposal_id", p.proposalId)])
    && c.proposalId == p.proposalId && c.proposalRevision == p.revision && c.sideEffects == p.sideEffects
    && c.status == Str("SIGNED") && c.expiresAt.Null? && c.economicTerms.Null?
    && c.schemaVersion == Str("0.2") && c.canonicalization == Str("agent-json-v0.1")
    && c.signatureSuite == Str("ed25519-sha256-v1")
    && c.requesterKeyId == Str(requester.keyId) && c.executorKeyId == Str(executor.keyId)
    && c.verificationPolicyHash.Str? && Quorum.PolicyHash(p.verification, w.ff) == Some(c.verificationPolicyHash.s)
    && c.proposalHash.Str? && ObjectHash(p.ToMembers(), w.ff) == Success(c.proposalHash.s)
  }

  /** Both parties' signatures over the finished contract, and its own hash. */
  ghost predicate SignedByBoth(w: World, requester: Party, executor: Party, c: TaskContract) {
    && SignedBy(w, requester, c.requesterSignature, c)
    && SignedBy(w, executor, c.executorSignature, c)
    && c.contractHash.Str? && ObjectHash(c.ToMembers(), w.ff) == Success(c.contractHash.s)
  }

  /** The proposals that can be signed directly; any other one ends in an exception. */
  ghost predicate Signable(w: World, p: TaskProposal) {
    && p.verification.Obj?
    && (Truthy(At(p.verification.members, "required")) ==>
          Verifiers.Validate(w.str, p.verification, p.target) == Verifiers.Valid)
    && Drawable(p)
  }

  ghost predicate Drawable(p: TaskProposal) {
    && Quorum.PolicyReadable(p.verification)
    && p.capability.Obj? && Get(p.capability.members, "id").Some?
    && ListOf(p.constraints).Some? && ListOf(p.deliverables).Some?
  }

  /** `sign_contract_from_proposal`. */
  method SignContractFromProposal(w: World, requester: Party, executor: Party, p: TaskProposal,
                                  contractId: string, now: string)
    returns (r: Option<TaskContract>)
    ensures r.Some? ==>
              && Signable(w, p)
              && Drawn(w, requester, executor, p, contractId, now, r.value)
              && SignedByBoth(w, requester, executor, r.value)
    ensures Signable(w, p) && CleanProposal(p) ==> r.Some?
  {
    if !p.verification.Obj? {
      return None;
    }
    if Truthy(At(p.verification.members, "required")) &&
       Verifiers.Validate(w.str, p.verification, p.target) != Verifiers.Valid {
      return None;
    }
    hide Verifiers.Validate, Quorum.PolicyHash, Drawn, Drawable, CleanProposal, TaskContract.ToMembers;
    var drawn := DrawContract(w, requester, executor, p, contractId, now);
    if drawn.None? {
      return None;
    }
    var c := drawn.value;
    r := SignBoth(w, requester, executor, c);
    if r.Some? {
      DrawnUnsigned(w, requester, executor, p, contractId, now, c, r.value);
    }
    if CleanProposal(p) {
      DrawnClean(w, requester, executor, p, contractId, now, c);
      ContractFieldsClean(c);
      PayloadFinite(c.ToMembers());
    }
  }

  lemma DrawnUnsigned(w: World, requester: Party, executor: Party, p: TaskProposal, contractId: string, now: string,
                      c: TaskContract, signed: TaskContract)
    requires Drawn(w, requester, executor, p, contractId, now, c)
    requires signed == c.(requesterSignature := signed.requesterSignature, executorSignature := signed.executorSignature,
                          contractHash := signed.contractHash)
    ensures Drawn(w, requester, executor, p, contractId, now, signed)
  {
  }

  /** Creating the contract and assigning its fields, before the signatures. */
  method DrawContract(w: World, requester: Party, executor: Party, p: TaskProposal, contractId: string, now: string)
    returns (r: Option<TaskContract>)
    ensures r.Some? ==>
              && Drawn(w, requester, executor, p, contractId, now, r.value)
              && r.value.requesterSignature.Null? && r.value.executorSignature.Null? && r.value.contractHash.Null?
              && Drawable(p)
    ensures Drawable(p) && CleanProposal(p) ==> r.Some?
  {
    hide Quorum.PolicyHash, Quorum.PolicyReadable;
    VerificationHash(p, w.ff);
    if !p.capability.Obj? || Get(p.capability.members, "id").None? {
      return None;
    }
    var metadata := Obj([Member("proposal_id", p.proposalId)]);
    var created := CreateContract(w, contractId, now, p.requester, p.target, At(p.capability.members, "id"), p.objective,
                                  p.constraints, p.deliverables, p.verification, metadata);
    if created.None? {
      return None;
    }
    var c := created.value.(proposalId := p.proposalId);
    c := c.(proposalRevision := p.revision);
    ProposalFieldsClean(p);
    PayloadFinite(p.ToMembers());
    match ObjectHash(p.ToMembers(), w.ff)
    case Failure(_) =>
      return None;
    case Success(proposalHash) =>
      c := c.(proposalHash := Str(proposalHash));
      c := c.(sideEffects := p.sideEffects);
      c := c.(status := Str("SIGNED"));
      c := c.(requesterKeyId := Str(requester.keyId));
      c := c.(executorKeyId := Str(executor.keyId));
      c := c.(verificationPolicyHash := Str(Quorum.PolicyHash(p.verification, w.ff).value));
      return Some(c);
  }

  /** The last three assignments: two signatures over one payload, and the hash. */
  method SignBoth(w: World, requester: Party, executor: Party, c: TaskContract) returns (r: Option<TaskContract>)
    ensures r.Some? <==> SignedBytes(c.ToMembers(), w.ff).Success?
    ensures r.Some? ==>
              && r.value == c.(requesterSignature := r.value.requesterSignature,
                               executorSignature := r.value.executorSignature, contractHash := r.value.contractHash)
              && SignedByBoth(w, requester, executor, r.value)
  {
    match SignObject(requester.key, c.ToMembers(), w.ff)
    case Failure(_) =>
      return None;
    case Success(first) =>
      var d := c.(requesterSignature := Str(first));
      ContractOmits(c, Str(first), c.executorSignature, c.contractHash);
      match SignObject(executor.key, d.ToMembers(), w.ff) {
        case Failure(_) =>
          return None;
        case Success(second) =>
          var e := d.(executorSignature := Str(second));
          ContractOmits(c, Str(first), Str(second), c.contractHash);
          match ObjectHash(e.ToMembers(), w.ff) {
            case Failure(_) =>
              return None;
            case Success(hash) =>
              ContractOmits(c, Str(first), Str(second), Str(hash));
              return Some(e.(contractHash := Str(hash)));
          }
      }
  }

  lemma DrawnPartsClean(w: World, requester: Party, executor: Party, p: TaskProposal, contractId: string, now: string,
                        c: TaskContract)
    requires Drawn(w, requester, executor, p, contractId, now, c) && CleanProposal(p)
    ensures Clean(c.capability) && Clean(c.constraints) && Clean(c.deliverables) && Clean(c.verification)
    ensures Clean(c.metadata)
  {
    SingletonClean("proposal_id", p.proposalId);
    hide Clean, ListOf, OrElse;
    DerivedClean([], [], p.capability, p.constraints, p.deliverables, p.verification);
  }

  lemma SingletonClean(key: string, v: Value)
    ensures Clean(Obj([]))
    ensures Clean(v) ==> Clean(Obj([Member(key, v)]))
  {
  }

  lemma DrawnClean(w: World, requester: Party, executor: Party, p: TaskProposal, contractId: string, now: string,
                   c: TaskContract)
    requires Drawn(w, requester, executor, p, contractId, now, c) && CleanProposal(p)
    requires TextOrNull(c.requesterSignature) && TextOrNull(c.executorSignature) && TextOrNull(c.contractHash)
    ensures CleanContract(c)
  {
    DrawnPartsClean(w, requester, executor, p, contractId, now, c);
  }

  /**
   * A contract signed by both parties, sent over a hop, is admitted by the executor's delivery
   * check exactly when what was signed is number-safe.
   */
  lemma SignedDeliveryAdmittedIff(w: World, requester: Party, executor: Party, capability: string, c: TaskContract,
                                  received: Value)
    requires Faithful(w.ff) && SignedByBoth(w, requester, executor, c) && capability != "task.propose"
    requires Hop(Obj(c.ToMembers()), received)
    ensures Gate(executor.key, received, capability, w.ff) ==
            if NumberSafe(Obj(UnsignedPayload(c.ToMembers()))) then Admitted else SignatureMismatch
  {
    hide UnsignedPayload, NumberSafe, WellFormed, Transportable, ToStruct, Same, TaskContract.ToMembers, Hop;
    var ms := c.ToMembers();
    SignaturesSurviveHop(ms, received, executor.key, w.ff);
    ContractLayout(c, c);
    ContractEntries(c);
    GetAt(ms, 17);
    GetAt(ms, 18);
    TextTravels(ms, received, "requester_signature");
    TextTravels(ms, received, "executor_signature");
    SignatureTextLength(requester.key, ms, w.ff);
    SignatureTextLength(executor.key, ms, w.ff);
  }

  lemma SignatureTextLength(key: string, ms: seq<Member>, ff: FloatFormat)
    requires SignObject(key, ms, ff).Success?
    ensures SignObject(key, ms, ff).value != ""
  {
    assert |SignatureText(key, SignedBytes(ms, ff).value)| >= 8;
  }

  lemma HopOfText(sent: Value, received: Value)
    requires Hop(sent, received) && sent.Str?
    ensures received == sent
  {
  }

  /** Text in a dict arrives as it was sent. */
  lemma TextTravels(ms: seq<Member>, received: Value, key: string)
    requires Hop(Obj(ms), received) && Get(ms, key).Some? && Get(ms, key).value.Str?
    ensures received.Obj? && Get(received.members, key) == Get(ms, key)
  {
    hide Hop;
    HopOfMember(ms, received, key);
    HopOfText(Get(ms, key).value, Get(received.members, key).value);
  }

  // ------------------------------------------- the hash of a verification

  /** A dict that is read as a list is read in its key order. */
  predicate InOrder(x: Value, y: Value) {
    x.Obj? ==> Items(x) == Items(y)
  }

  /** The verifiers and the acceptance of a required verification come in the same order. */
  predicate ListsInOrder(v: Value, w: Value) {
    Quorum.Required(v) == Some(true) ==>
      && w.Obj? && InOrder(At(v.members, "verifiers"), At(w.members, "verifiers"))
      && InOrder(At(v.members, "acceptance"), At(w.members, "acceptance"))
  }

  lemma SameTexts(xs: seq<Value>, ys: seq<Value>)
    requires |xs| == |ys| && forall i | 0 <= i < |xs| :: xs[i].Str?
    ensures Same(Arr(xs), Arr(ys)) <==> xs == ys
  {
    if Same(Arr(xs), Arr(ys)) {
      forall i | 0 <= i < |xs|
        ensures xs[i] == ys[i]
      {
        assert Same(xs[i], ys[i]);
      }
    }
  }

  lemma KeyCount(ms: seq<Member>, ns: seq<Member>)
    requires Same(Obj(ms), Obj(ns)) && DistinctKeys(ms) && DistinctKeys(ns)
    ensures |ms| == |ns|
  {
    EachHasKey(ms, ns);
    KeySetCount(ms);
    KeySetCount(ns);
    assert KeySet(ms) == KeySet(ns);
  }

  ghost function KeySet(ms: seq<Member>): set<string> {
    set m | m in ms :: m.key
  }

  lemma {:induction false} KeySetCount(ms: seq<Member>)
    requires DistinctKeys(ms)
    ensures |KeySet(ms)| == |ms|
    ensures forall k :: k in KeySet(ms) <==> HasKey(ms, k)
  {
    if ms != [] {
      var front, last := ms[..|ms| - 1], ms[|ms| - 1];
      KeySetCount(front);
      assert ms == front + [last];
      assert KeySet(ms) == KeySet(front) + {last.key};
    }
    forall k
      ensures k in KeySet(ms) <==> HasKey(ms, k)
    {
      if HasKey(ms, k) {
        var i :| 0 <= i < |ms| && ms[i].key == k;
        assert ms[i] in ms;
      }
    }
  }

  /** Reading two equal entries as lists gives equal lists exactly when keys come in the same order. */
  lemma SameItems(x: Value, y: Value)
    requires Same(x, y) && WellFormed(x) && WellFormed(y) && Items(x).Some?
    ensures Items(y).Some? && |Items(x).value| == |Items(y).value|
    ensures Same(Arr(Items(x).value), Arr(Items(y).value)) <==> InOrder(x, y)
  {
    SameTruth(x, y);
    if x.Obj? {
      KeyCount(x.members, y.members);
      SameTexts(Items(x).value, Items(y).value);
    } else if x.Str? {
      SameTexts(Items(x).value, Items(y).value);
    }
  }

  /** Membership does not depend on key order, not even in a dict. */
  lemma SameContains(x: Value, y: Value, a: Value, b: Value)
    requires Same(x, y) && WellFormed(x) && WellFormed(y) && Items(x).Some? && Items(y).Some?
    requires Same(a, b) && WellFormed(a) && WellFormed(b)
    ensures Contains(Items(x).value, a) ==> Contains(Items(y).value, b)
  {
    SameTruth(x, y);
    hide Equal;
    if Contains(Items(x).value, a) {
      var xs, ys := Items(x).value, Items(y).value;
      var i :| 0 <= i < |xs| && Equal(xs[i], a);
      var j := PartnerItem(x, y, i);
      EqualRespectsSame(xs[i], ys[j], a, b);
    }
  }

  lemma PartnerItem(x: Value, y: Value, i: nat) returns (j: nat)
    requires Same(x, y) && WellFormed(x) && WellFormed(y) && Items(x).Some? && Items(y).Some?
    requires i < |Items(x).value|
    ensures j < |Items(y).value| && Same(Items(x).value[i], Items(y).value[j])
    ensures WellFormed(Items(x).value[i]) && WellFormed(Items(y).value[j])
  {
    SameTruth(x, y);
    if x.Obj? {
      EachHasKey(x.members, y.members);
      assert HasKey(y.members, x.members[i].key);
      j :| 0 <= j < |y.members| && y.members[j].key == x.members[i].key;
    } else {
      j := i;
    }
  }

  lemma SameVerifierLists(x: Value, y: Value, a: Value, b: Value)
    requires Same(x, y) && WellFormed(x) && WellFormed(y) && Items(x).Some?
    requires Same(a, b) && WellFormed(a) && WellFormed(b)
    ensures Items(y).Some?
    ensures Same(Arr(Quorum.WithSingle(Items(x).value, a)), Arr(Quorum.WithSingle(Items(y).value, b))) <==> InOrder(x, y)
  {
    SameItems(x, y);
    SameTruth(a, b);
    SameContains(x, y, a, b);
    SameSymmetric(x, y);
    SameSymmetric(a, b);
    SameContains(y, x, b, a);
    hide Items, Contains, InOrder;
    AppendedSame(Items(x).value, Items(y).value, a, b);
  }

  lemma AppendedSame(xs: seq<Value>, ys: seq<Value>, a: Value, b: Value)
    requires |xs| == |ys| && Same(a, b)
    ensures Same(Arr(xs + [a]), Arr(ys + [b])) <==> Same(Arr(xs), Arr(ys))
  {
    var ps, qs := xs + [a], ys + [b];
    assert forall i | 0 <= i < |xs| :: ps[i] == xs[i] && qs[i] == ys[i];
    assert ps[|xs|] == a && qs[|xs|] == b;
  }

  lemma OrElseSame(a: Value, b: Value, d: Value)
    requires Same(a, b) && WellFormed(d)
    ensures Same(OrElse(a, d), OrElse(b, d))
  {
    SameTruth(a, b);
    SameReflexive(d);
  }

  lemma SameCount(a: Value, b: Value)
    requires Same(a, b)
    ensures Quorum.CountOf(a) == Quorum.CountOf(b)
  {
    SameTruth(a, b);
    SameInt(a, b);
  }

  /** Required policies of verifications that agree up to key order. */
  lemma SameRequiredPolicies(ms: seq<Member>, ns: seq<Member>)
    requires WellFormed(Obj(ms)) && WellFormed(Obj(ns)) && Same(Obj(ms), Obj(ns)) && Quorum.RequiredPolicy(ms).Some?
    ensures Quorum.RequiredPolicy(ns).Some?
    ensures Same(Quorum.PolicyDict(Quorum.RequiredPolicy(ms).value), Quorum.PolicyDict(Quorum.RequiredPolicy(ns).value)) <==>
            InOrder(At(ms, "verifiers"), At(ns, "verifiers")) && InOrder(At(ms, "acceptance"), At(ns, "acceptance"))
  {
    AtSame(ms, ns, "policy");
    AtSame(ms, ns, "verifiers");
    AtSame(ms, ns, "verifier_agent_id");
    AtSame(ms, ns, "required_passes");
    AtSame(ms, ns, "acceptance");
    hide Same, WellFormed, At, Items, InOrder, Quorum.WithSingle, Quorum.PolicyDict, OrElse, Quorum.CountOf;
    DefaultPolicyFine();
    OrElseSame(At(ms, "policy"), At(ns, "policy"), Str(Quorum.REQUESTER_SELECTS));
    SameCount(At(ms, "required_passes"), At(ns, "required_passes"));
    SameItems(At(ms, "acceptance"), At(ns, "acceptance"));
    SameVerifierLists(At(ms, "verifiers"), At(ns, "verifiers"), At(ms, "verifier_agent_id"), At(ns, "verifier_agent_id"));
    Quorum.SamePolicyDicts(Quorum.RequiredPolicy(ms).value, Quorum.RequiredPolicy(ns).value);
  }

  lemma DefaultPolicyFine()
    ensures WellFormed(Str(Quorum.REQUESTER_SELECTS))
  {
  }

  /**
   * Verifications that agree up to key order have the same policy hash exactly when no dict
   * that is read as a list of verifiers or acceptance terms changes its key order; lists
   * never do.
   */
  lemma SameVerificationSameHashIff(a: Value, b: Value, ff: FloatFormat)
    requires Faithful(ff) && Quorum.Fine(a) && Quorum.Fine(b) && Same(a, b) && Quorum.PolicyHash(a, ff).Some?
    ensures Quorum.PolicyHash(b, ff).Some?
    ensures Quorum.PolicyHash(a, ff) == Quorum.PolicyHash(b, ff) <==> ListsInOrder(a, b)
  {
    SameTruth(a, b);
    var p := Quorum.CanonicalPolicy(a).value;
    if Quorum.Required(a) == Some(true) {
      AtSame(a.members, b.members, "required");
      SameTruth(At(a.members, "required"), At(b.members, "required"));
      SameRequiredPolicies(a.members, b.members);
    } else {
      if a.Obj? {
        AtSame(a.members, b.members, "required");
        SameTruth(At(a.members, "required"), At(b.members, "required"));
      }
      NoPolicyIsItself();
    }
    hide Same, WellFormed, FiniteNumbers, At, Items, InOrder, Quorum.RequiredPolicy, Quorum.PolicyDict, Emit, SortKeys, Quorum.PolicyHash;
    Quorum.HashMeansSamePolicy(a, b, ff, p, Quorum.CanonicalPolicy(b).value);
  }

  lemma NoPolicyIsItself()
    ensures Same(Quorum.PolicyDict(Quorum.NO_POLICY), Quorum.PolicyDict(Quorum.NO_POLICY))
  {
    Quorum.SamePolicyDicts(Quorum.NO_POLICY, Quorum.NO_POLICY);
  }

  /** The failing input: an acceptance dict with two keys, hashed in the order they happen to have. */
  lemma DictAcceptanceLosesHash(ff: FloatFormat)
    requires Faithful(ff)
    ensures var a := AcceptanceOf(Obj([Member("a", Null), Member("b", Null)]));
            var b := AcceptanceOf(Obj([Member("b", Null), Member("a", Null)]));
            && Same(a, b) && Quorum.PolicyHash(a, ff).Some? && Quorum.PolicyHash(b, ff).Some?
            && Quorum.PolicyHash(a, ff) != Quorum.PolicyHash(b, ff)
  {
    hide AcceptanceOf, At, Same, WellFormed, FiniteNumbers, Quorum.PolicyHash;
    var x := Obj([Member("a", Null), Member("b", Null)]);
    var y := Obj([Member("b", Null), Member("a", Null)]);
    Quorum.TwoKeysSame();
    SwappedItems();
    hide Items;
    AcceptanceEntries(x);
    AcceptanceEntries(y);
    AcceptanceSame(x, y);
    Quorum.HashDefinedIff(AcceptanceOf(x), ff);
    SameVerificationSameHashIff(AcceptanceOf(x), AcceptanceOf(y), ff);
  }

  lemma SwappedItems()
    ensures var x := Obj([Member("a", Null), Member("b", Null)]);
            var y := Obj([Member("b", Null), Member("a", Null)]);
            Items(x).Some? && Truthy(x) && Items(x) != Items(y)
  {
    var x := Obj([Member("a", Null), Member("b", Null)]);
    var y := Obj([Member("b", Null), Member("a", Null)]);
    assert Items(x).value[0] == Str("a") && Items(y).value[0] == Str("b") && "a"[0] != "b"[0];
  }

  function AcceptanceOf(v: Value): Value {
    Obj([Member("required", Bool(true)), Member("acceptance", v)])
  }

  lemma AcceptanceEntries(v: Value)
    ensures AcceptanceOf(v).Obj? && Truthy(AcceptanceOf(v))
    ensures var ms := AcceptanceOf(v).members;
            && At(ms, "required") == Bool(true) && At(ms, "acceptance") == v
            && At(ms, "verifiers") == Null && At(ms, "required_passes") == Null
    ensures WellFormed(v) ==> WellFormed(AcceptanceOf(v))
    ensures FiniteNumbers(v) ==> FiniteNumbers(AcceptanceOf(v))
  {
    var ms := AcceptanceOf(v).members;
    assert ms[0].key != ms[1].key;
    GetAt(ms, 0);
    GetAt(ms, 1);
    GetFinds(ms, "verifiers");
    GetFinds(ms, "required_passes");
  }

  lemma AcceptanceSame(x: Value, y: Value)
    requires Same(x, y)
    ensures Same(AcceptanceOf(x), AcceptanceOf(y))
  {
    var ms, ns := AcceptanceOf(x).members, AcceptanceOf(y).members;
    assert ms[0].key != ms[1].key && ms[0].key == ns[0].key && ms[1].key == ns[1].key;
    Quorum.AlignedSame(ms, ns);
  }

  // ---------------------------------------------------------- main results

  /** The policy hash in the contract is the hash of the contract's own verification. */
  ghost predicate StoresOwnHash(c: TaskContract, ff: FloatFormat) {
    c.verificationPolicyHash.Str? && Quorum.PolicyHash(c.verification, ff) == Some(c.verificationPolicyHash.s)
  }

  /** Either builder stores it, also when the proposal had no verification. */
  lemma BothBuildersStoreOwnHash(w: World, requester: Party, executor: Party, raw: seq<Member>, metadata: seq<Member>,
                                 p: TaskProposal, contractId: string, now: string, c: TaskContract)
    requires Shaped(w, executor, raw, metadata, p, contractId, now, c) ||
             Drawn(w, requester, executor, p, contractId, now, c)
    ensures StoresOwnHash(c, w.ff)
  {
    DefaultHashesAlike(p.verification, w.ff);
  }

  /**
   * The contract rebuilt on the other side still stores its own hash exactly when the lists of
   * its verification come in the same order.
   */
  lemma OwnHashTravelsIff(c: TaskContract, d: TaskContract, ff: FloatFormat)
    requires Faithful(ff) && FiniteNumbers(c.verification) && FiniteNumbers(d.verification)
    requires WellFormed(Obj(c.ToMembers())) && WellFormed(Obj(d.ToMembers()))
    requires Same(Obj(c.ToMembers()), Obj(d.ToMembers())) && StoresOwnHash(c, ff)
    ensures StoresOwnHash(d, ff) <==> ListsInOrder(c.verification, d.verification)
  {
    hide TaskContract.ToMembers, Quorum.PolicyHash;
    var ms, ns := c.ToMembers(), d.ToMembers();
    ContractLayout(c, d);
    ContractEntries(c);
    ContractEntries(d);
    assert WellFormed(ms[7].value) && WellFormed(ns[7].value);
    assert Same(ms[7].value, ns[7].value) && Same(ms[24].value, ns[24].value);
    SameVerificationSameHashIff(c.verification, d.verification, ff);
  }

  /**
   * Any verification with the stored hash decides every quorum as the contract's does, exactly
   * when they are not required, or authorize the same verifiers, or neither authorizes as many
   * as it asks for. They do authorize the same when no verifier holds a dict of two keys.
   */
  lemma StoredHashFixesDecision(str: Value -> string, c: TaskContract, other: Value, ff: FloatFormat, t: Quorum.Target)
    requires Verifiers.Spells(str) && Faithful(ff)
    requires StoresOwnHash(c, ff) && Quorum.Fine(c.verification) && Quorum.Fine(other)
    requires Quorum.PolicyHash(other, ff).Some? && c.verificationPolicyHash == Str(Quorum.PolicyHash(other, ff).value)
    ensures Quorum.CanonicalPolicy(other).Some?
    ensures Quorum.AuthorizedVerifiers(str, other).Some? && Quorum.AuthorizedVerifiers(str, c.verification).Some?
    ensures var p := Quorum.CanonicalPolicy(other).value;
            var a, b := Quorum.AuthorizedVerifiers(str, other).value, Quorum.AuthorizedVerifiers(str, c.verification).value;
            && ((forall rs :: Quorum.QuorumMet(str, other, rs, t) == Quorum.QuorumMet(str, c.verification, rs, t)) <==>
                !p.required || a == b || (|a| < Quorum.Passes(p) && |b| < Quorum.Passes(p)))
            && ((forall i | 0 <= i < |p.verifiers| :: Quorum.Rigid(p.verifiers[i])) ==> a == b)
  {
    hide Quorum.Rigid, Quorum.QuorumMet, Quorum.Fine, Quorum.CanonicalPolicy, Quorum.PolicyHash, Quorum.Passes;
    Quorum.PolicyHashFixesDecision(str, other, c.verification, ff, [], t);
    Verdicts.HashFixesDecisionIff(str, other, c.verification, ff, t);
  }
}
