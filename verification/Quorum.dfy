/**
 * `verification_policy`: a policy names verifiers and a number of passes, is validated,
 * canonicalised and hashed, and receipts are counted against it. Verifications and receipts
 * are JSON values, whatever they hold; `str` is Python's on values that are not strings.
 */
module Quorum {
  import opened Wrappers
  import opened Text
  import opened Json
  import opened JsonText
  import opened Crypto
  import opened Python

  const REQUESTER_SELECTS: string := "REQUESTER_SELECTS"
  const MULTI_VERIFIER: string := "MULTI_VERIFIER"
  const REPUTATION_WEIGHTED: string := "REPUTATION_WEIGHTED"

  // ------------------------------------------------------ canonical policy

  /** The entries of the dict that `canonical_policy` builds. */
  datatype Policy = Policy(policy: Value, verifiers: seq<Value>, passes: int, acceptance: seq<Value>, required: bool)

  const NO_POLICY: Policy := Policy(Str("NONE"), [], 0, [], false)

  /** `verification and verification.get("required")`; None is an AttributeError. */
  function Required(v: Value): Option<bool> {
    if !Truthy(v) then Some(false) else if v.Obj? then Some(Truthy(At(v.members, "required"))) else None
  }

  /** `int(v or 1)`. */
  function CountOf(v: Value): Option<int> {
    if Truthy(v) then IntOfValue(v) else Some(1)
  }

  function WithSingle(items: seq<Value>, single: Value): seq<Value> {
    if Truthy(single) && !Contains(items, single) then items + [single] else items
  }

  /** None: the code raises. */
  function RequiredPolicy(ms: seq<Member>): Option<Policy> {
    match (Items(At(ms, "verifiers")), CountOf(At(ms, "required_passes")), Items(At(ms, "acceptance")))
    case (Some(items), Some(passes), Some(acceptance)) =>
      Some(Policy(OrElse(At(ms, "policy"), Str(REQUESTER_SELECTS)), WithSingle(items, At(ms, "verifier_agent_id")),
                  passes, acceptance, true))
    case _ => None
  }

  function CanonicalPolicy(v: Value): Option<Policy> {
    match Required(v)
    case None => None
    case Some(required) => if required then RequiredPolicy(v.members) else Some(NO_POLICY)
  }

  function PolicyDict(p: Policy): Value {
    Obj([
      Member("policy", p.policy),
      Member("verifiers", Arr(p.verifiers)),
      Member("required_passes", Int(p.passes)),
      Member("acceptance", Arr(p.acceptance)),
      Member("required", Bool(p.required))
    ])
  }

  /** `policy_hash`; None: the policy cannot be canonicalised, or holds a NaN. */
  function PolicyHash(v: Value, ff: FloatFormat): Option<string> {
    match CanonicalPolicy(v)
    case None => None
    case Some(p) =>
      match CanonicalJson(PolicyDict(p), ff)
      case Success(bytes) => Some(HashText(bytes))
      case Failure(_) => None
  }

  /** The texts of the true elements, in order. */
  function Texts(str: Value -> string, items: seq<Value>): (r: seq<string>)
    ensures forall n :: n in r <==> exists i | 0 <= i < |items| :: Truthy(items[i]) && StrOf(str, items[i]) == n
  {
    if items == [] then []
    else
      var front, last := Texts(str, items[..|items| - 1]), items[|items| - 1];
      assert forall i | 0 <= i < |items| - 1 :: items[..|items| - 1][i] == items[i];
      if Truthy(last) then front + [StrOf(str, last)] else front
  }

  function Names(str: Value -> string, items: seq<Value>): set<string> {
    set n | n in Texts(str, items)
  }

  function AuthorizedVerifiers(str: Value -> string, v: Value): Option<set<string>> {
    match CanonicalPolicy(v)
    case None => None
    case Some(p) => Some(Names(str, p.verifiers))
  }

  function Passes(p: Policy): int {
    if !p.required then 0 else if p.passes > 1 then p.passes else 1
  }

  /** `required_pass_count`. */
  function RequiredPassCount(v: Value): Option<int> {
    match CanonicalPolicy(v)
    case None => None
    case Some(p) => Some(Passes(p))
  }

  // -------------------------------------------------------------- receipts

  type Receipt = seq<Member>

  /** What a receipt has to be about; an empty manifest hash accepts every artifact revision. */
  datatype Target = Target(contractId: string, contractHash: string, manifestHash: string)

  function VerifierOf(str: Value -> string, r: Receipt): string {
    StrOf(str, OrElse(At(r, "verifier"), Str("")))
  }

  predicate About(r: Receipt, t: Target) {
    && At(r, "contract_id") == Str(t.contractId) && At(r, "contract_hash") == Str(t.contractHash)
    && (t.manifestHash == "" || At(r, "artifact_manifest_hash") == Str(t.manifestHash))
  }

  predicate Counts(str: Value -> string, allowed: set<string>, r: Receipt, t: Target) {
    && About(r, t) && At(r, "result") == Str("PASS") && Truthy(At(r, "signature"))
    && VerifierOf(str, r) != "" && (allowed == {} || VerifierOf(str, r) in allowed)
  }

  function Qualifying(str: Value -> string, allowed: set<string>, receipts: seq<Receipt>, t: Target): set<string> {
    set r | r in receipts && Counts(str, allowed, r, t) :: VerifierOf(str, r)
  }

  /** `qualifying_pass_verifiers`: one pass over the receipts, adding to a set. */
  method QualifyingPassVerifiers(str: Value -> string, v: Value, receipts: seq<Receipt>, t: Target)
    returns (r: Option<set<string>>)
    ensures r == match AuthorizedVerifiers(str, v)
                 case None => None
                 case Some(allowed) => Some(Qualifying(str, allowed, receipts, t))
    ensures r.Some? <==> AuthorizedVerifiers(str, v).Some?
    ensures r.Some? ==>
              forall n :: n in r.value <==>
                exists i | 0 <= i < |receipts| ::
                  && At(receipts[i], "contract_id") == Str(t.contractId)
                  && At(receipts[i], "contract_hash") == Str(t.contractHash)
                  && (t.manifestHash == "" || At(receipts[i], "artifact_manifest_hash") == Str(t.manifestHash))
                  && At(receipts[i], "result") == Str("PASS") && Truthy(At(receipts[i], "signature"))
                  && n == StrOf(str, OrElse(At(receipts[i], "verifier"), Str(""))) && n != ""
                  && (AuthorizedVerifiers(str, v).value == {} || n in AuthorizedVerifiers(str, v).value)
  {
    var authorized := AuthorizedVerifiers(str, v);
    if authorized.None? {
      return None;
    }
    var allowed := authorized.value;
    var found: set<string> := {};
    for i := 0 to |receipts|
      invariant found == Qualifying(str, allowed, receipts[..i], t)
    {
      var row := receipts[i];
      assert receipts[..i + 1] == receipts[..i] + [row];
      QualifyingStep(str, allowed, receipts[..i], row, t);
      if At(row, "contract_id") != Str(t.contractId) || At(row, "contract_hash") != Str(t.contractHash) {
        continue;
      }
      if t.manifestHash != "" && At(row, "artifact_manifest_hash") != Str(t.manifestHash) {
        continue;
      }
      if At(row, "result") != Str("PASS") {
        continue;
      }
      if !Truthy(At(row, "signature")) {
        continue;
      }
      var verifier := VerifierOf(str, row);
      if verifier == "" {
        continue;
      }
      if allowed != {} && verifier !in allowed {
        continue;
      }
      found := found + {verifier};
    }
    assert receipts[..|receipts|] == receipts;
    QualifyingMeans(str, allowed, receipts, t);
    return Some(found);
  }

  /** A verifier qualifies exactly when it has a signed PASS of its own for this contract and artifact. */
  lemma QualifyingMeans(str: Value -> string, allowed: set<string>, receipts: seq<Receipt>, t: Target)
    ensures forall n :: n in Qualifying(str, allowed, receipts, t) <==>
              exists i | 0 <= i < |receipts| ::
                && At(receipts[i], "contract_id") == Str(t.contractId)
                && At(receipts[i], "contract_hash") == Str(t.contractHash)
                && (t.manifestHash == "" || At(receipts[i], "artifact_manifest_hash") == Str(t.manifestHash))
                && At(receipts[i], "result") == Str("PASS") && Truthy(At(receipts[i], "signature"))
                && n == StrOf(str, OrElse(At(receipts[i], "verifier"), Str(""))) && n != ""
                && (allowed == {} || n in allowed)
  {
    forall n
      ensures n in Qualifying(str, allowed, receipts, t) <==>
              exists i | 0 <= i < |receipts| :: Counts(str, allowed, receipts[i], t) && n == VerifierOf(str, receipts[i])
    {
      hide Counts, VerifierOf;
      if n in Qualifying(str, allowed, receipts, t) {
        var row :| row in receipts && Counts(str, allowed, row, t) && VerifierOf(str, row) == n;
        var i :| 0 <= i < |receipts| && receipts[i] == row;
      }
    }
  }

  lemma QualifyingStep(str: Value -> string, allowed: set<string>, receipts: seq<Receipt>, row: Receipt, t: Target)
    ensures Qualifying(str, allowed, receipts + [row], t) ==
            Qualifying(str, allowed, receipts, t) + (if Counts(str, allowed, row, t) then {VerifierOf(str, row)} else {})
  {
  }

  predicate Met(passes: int, found: set<string>) {
    passes <= 0 || |found| >= passes
  }

  /** `quorum_met`; None: the policy cannot be canonicalised. */
  function QuorumMet(str: Value -> string, v: Value, receipts: seq<Receipt>, t: Target): Option<bool> {
    match CanonicalPolicy(v)
    case None => None
    case Some(p) => Some(Met(Passes(p), Qualifying(str, Names(str, p.verifiers), receipts, t)))
  }

  // ------------------------------------------- when a policy can be hashed

  predicate Iterable(v: Value) {
    !Truthy(v) || v.Arr? || v.Str? || v.Obj?
  }

  /**
   * What a caller can look at: there is no policy, or it is a dict that is not required, or
   * one whose lists can be iterated over and whose count `int` can read.
   */
  predicate PolicyReadable(v: Value) {
    !Truthy(v) ||
    (v.Obj? && (Truthy(At(v.members, "required")) ==>
                  && Iterable(At(v.members, "verifiers")) && Iterable(At(v.members, "acceptance"))
                  && (Truthy(At(v.members, "required_passes")) ==> IntOfValue(At(v.members, "required_passes")).Some?)))
  }

  lemma AtFinite(ms: seq<Member>, key: string)
    requires FiniteNumbers(Obj(ms))
    ensures FiniteNumbers(At(ms, key))
    ensures Items(At(ms, key)).Some? ==> FiniteNumbers(Arr(Items(At(ms, key)).value))
  {
    GetFinds(ms, key);
  }

  lemma DictFinite(p: Policy)
    requires FiniteNumbers(p.policy) && FiniteNumbers(Arr(p.verifiers)) && FiniteNumbers(Arr(p.acceptance))
    ensures FiniteNumbers(PolicyDict(p))
  {
    PolicyKeys(p, p);
  }

  lemma CanonicalFinite(v: Value, p: Policy)
    requires FiniteNumbers(v) && CanonicalPolicy(v) == Some(p)
    ensures FiniteNumbers(PolicyDict(p))
  {
    if Required(v) == Some(true) {
      AtFinite(v.members, "policy");
      AtFinite(v.members, "verifiers");
      AtFinite(v.members, "verifier_agent_id");
      AtFinite(v.members, "acceptance");
    }
    hide PolicyDict, Items, At;
    DictFinite(p);
  }

  lemma CanonicalDefinedIff(v: Value)
    ensures CanonicalPolicy(v).Some? <==> PolicyReadable(v)
  {
  }

  /** Without NaN or infinity the hash exists exactly for readable policies; otherwise the code raises. */
  lemma HashDefinedIff(v: Value, ff: FloatFormat)
    requires FiniteNumbers(v)
    ensures PolicyHash(v, ff).Some? <==> PolicyReadable(v)
  {
    CanonicalDefinedIff(v);
    hide PolicyReadable;
    if CanonicalPolicy(v).Some? {
      CanonicalFinite(v, CanonicalPolicy(v).value);
    }
  }

  // --------------------------------------------------- canonical, once more

  lemma DictEntries(p: Policy)
    ensures PolicyDict(p).Obj? && Truthy(PolicyDict(p))
    ensures var ms := PolicyDict(p).members;
            && At(ms, "policy") == p.policy && At(ms, "verifiers") == Arr(p.verifiers)
            && At(ms, "required_passes") == Int(p.passes) && At(ms, "acceptance") == Arr(p.acceptance)
            && At(ms, "required") == Bool(p.required) && At(ms, "verifier_agent_id") == Null
  {
    var ms := PolicyDict(p).members;
    assert ms[0].key == "policy" && ms[1].key == "verifiers" && ms[2].key == "required_passes";
    assert ms[3].key == "acceptance" && ms[4].key == "required" && DistinctKeys(ms);
    GetAt(ms, 0);
    GetAt(ms, 1);
    GetAt(ms, 2);
    GetAt(ms, 3);
    GetAt(ms, 4);
    GetFinds(ms, "verifier_agent_id");
  }

  lemma CanonicalOfDict(v: Value, p: Policy)
    requires CanonicalPolicy(v) == Some(p)
    ensures CanonicalPolicy(PolicyDict(p)) == Some(if p.required && p.passes == 0 then p.(passes := 1) else p)
  {
    DictEntries(p);
    hide PolicyDict;
  }

  /** Canonicalising again changes nothing exactly when no required policy has a count that reads as 0. */
  lemma CanonicalIdempotentIff(v: Value, p: Policy)
    requires CanonicalPolicy(v) == Some(p)
    ensures CanonicalPolicy(PolicyDict(p)) == Some(p) <==>
            !(Required(v) == Some(true) && CountOf(At(v.members, "required_passes")) == Some(0))
  {
    CanonicalOfDict(v, p);
  }

  /** The text "0" is true, so it is read as the count 0, and the count 0 as 1. */
  lemma CountTextZero()
    ensures var v := Obj([Member("required", Bool(true)), Member("required_passes", Str("0"))]);
            && CanonicalPolicy(v).Some? && CanonicalPolicy(v).value.passes == 0
            && CanonicalPolicy(PolicyDict(CanonicalPolicy(v).value)) == Some(CanonicalPolicy(v).value.(passes := 1))
  {
    var ms := [Member("required", Bool(true)), Member("required_passes", Str("0"))];
    NumberReads(0);
    assert ms[0].key != ms[1].key;
    GetAt(ms, 0);
    GetAt(ms, 1);
    GetFinds(ms, "verifiers");
    GetFinds(ms, "acceptance");
    assert CanonicalPolicy(Obj(ms)).Some?;
    CanonicalOfDict(Obj(ms), CanonicalPolicy(Obj(ms)).value);
  }

  /** Even so, the quorum decision reads nothing but the canonical policy. */
  lemma DecisionIsCanonical(str: Value -> string, v: Value, p: Policy, receipts: seq<Receipt>, t: Target)
    requires CanonicalPolicy(v) == Some(p)
    ensures QuorumMet(str, v, receipts, t) == QuorumMet(str, PolicyDict(p), receipts, t)
    ensures AuthorizedVerifiers(str, v) == AuthorizedVerifiers(str, PolicyDict(p))
    ensures RequiredPassCount(v) == RequiredPassCount(PolicyDict(p))
  {
    CanonicalOfDict(v, p);
    hide CanonicalPolicy, Qualifying, Names;
  }

  // ------------------------------------- the hash fixes the decision

  ghost predicate Fine(v: Value) {
    WellFormed(v) && FiniteNumbers(v)
  }

  lemma AtWellFormed(ms: seq<Member>, key: string)
    requires WellFormed(Obj(ms))
    ensures WellFormed(At(ms, key))
    ensures Items(At(ms, key)).Some? ==> WellFormed(Arr(Items(At(ms, key)).value))
  {
    GetFinds(ms, key);
  }

  lemma PartsWellFormed(v: Value, p: Policy)
    requires WellFormed(v) && CanonicalPolicy(v) == Some(p)
    ensures WellFormed(p.policy) && WellFormed(Arr(p.verifiers)) && WellFormed(Arr(p.acceptance))
  {
    if Required(v) == Some(true) {
      AtWellFormed(v.members, "policy");
      AtWellFormed(v.members, "verifiers");
      AtWellFormed(v.members, "verifier_agent_id");
      AtWellFormed(v.members, "acceptance");
      hide Items, At;
    }
  }

  lemma CanonicalWellFormed(v: Value, p: Policy)
    requires WellFormed(v) && CanonicalPolicy(v) == Some(p)
    ensures WellFormed(PolicyDict(p)) && WellFormed(Arr(p.verifiers)) && WellFormed(Arr(p.acceptance))
  {
    hide CanonicalPolicy;
    PartsWellFormed(v, p);
    DictWellFormed(p);
  }

  lemma DictWellFormed(p: Policy)
    requires WellFormed(p.policy) && WellFormed(Arr(p.verifiers)) && WellFormed(Arr(p.acceptance))
    ensures WellFormed(PolicyDict(p))
  {
    PolicyKeys(p, p);
  }

  lemma PolicyKeys(p: Policy, q: Policy)
    ensures PolicyDict(p).Obj? && PolicyDict(q).Obj?
    ensures var ms, ns := PolicyDict(p).members, PolicyDict(q).members;
            |ms| == |ns| == 5 && DistinctKeys(ms) && forall i | 0 <= i < 5 :: ms[i].key == ns[i].key
    ensures PolicyDict(p).members[0].value == p.policy && PolicyDict(p).members[1].value == Arr(p.verifiers)
    ensures PolicyDict(p).members[2].value == Int(p.passes) && PolicyDict(p).members[3].value == Arr(p.acceptance)
    ensures PolicyDict(p).members[4].value == Bool(p.required)
  {
  }

  lemma AlignedSame(ms: seq<Member>, ns: seq<Member>)
    requires |ms| == |ns| && DistinctKeys(ms) && forall i | 0 <= i < |ms| :: ms[i].key == ns[i].key
    ensures Same(Obj(ms), Obj(ns)) <==> forall i | 0 <= i < |ms| :: Same(ms[i].value, ns[i].value)
  {
    forall i | 0 <= i < |ms|
      ensures HasKey(ns, ms[i].key) && HasKey(ms, ns[i].key)
    {
      assert ns[i].key == ms[i].key;
    }
  }

  lemma SamePolicyDicts(p: Policy, q: Policy)
    ensures Same(PolicyDict(p), PolicyDict(q)) <==>
            && Same(p.policy, q.policy) && Same(Arr(p.verifiers), Arr(q.verifiers)) && p.passes == q.passes
            && Same(Arr(p.acceptance), Arr(q.acceptance)) && p.required == q.required
  {
    PolicyKeys(p, q);
    PolicyKeys(q, p);
    hide PolicyDict;
    var ms, ns := PolicyDict(p).members, PolicyDict(q).members;
    AlignedSame(ms, ns);
    assert Same(ms[2].value, ns[2].value) <==> p.passes == q.passes;
    assert Same(ms[4].value, ns[4].value) <==> p.required == q.required;
    if Same(ms[0].value, ns[0].value) && Same(ms[1].value, ns[1].value) && Same(ms[3].value, ns[3].value)
       && p.passes == q.passes && p.required == q.required {
      forall i | 0 <= i < 5
        ensures Same(ms[i].value, ns[i].value)
      {
        if i == 0 || i == 1 || i == 2 || i == 3 {
        }
      }
    }
  }

  /** Two verifications have the same hash exactly when their canonical policies agree up to key order. */
  lemma HashMeansSamePolicy(v: Value, w: Value, ff: FloatFormat, p: Policy, q: Policy)
    requires Faithful(ff) && Fine(v) && Fine(w)
    requires CanonicalPolicy(v) == Some(p) && CanonicalPolicy(w) == Some(q)
    ensures PolicyHash(v, ff).Some? && PolicyHash(w, ff).Some?
    ensures PolicyHash(v, ff) == PolicyHash(w, ff) <==> Same(PolicyDict(p), PolicyDict(q))
  {
    hide CanonicalPolicy, PolicyDict, WellFormed, FiniteNumbers, Same, Emit, SortKeys, HashText;
    CanonicalFinite(v, p);
    CanonicalFinite(w, q);
    CanonicalWellFormed(v, p);
    CanonicalWellFormed(w, q);
    CanonicalForm(PolicyDict(p), PolicyDict(q), ff);
    if PolicyHash(v, ff) == PolicyHash(w, ff) {
      HashTextInjective(CanonicalJson(PolicyDict(p), ff).value, CanonicalJson(PolicyDict(q), ff).value);
    }
  }

  /** No dict inside has two keys, so key order has nothing to change. */
  predicate Rigid(v: Value) {
    match v
    case Arr(items) => forall i | 0 <= i < |items| :: Rigid(items[i])
    case Obj(ms) => |ms| <= 1 && forall i | 0 <= i < |ms| :: Rigid(ms[i].value)
    case _ => true
  }

  lemma {:induction false} RigidSame(a: Value, b: Value)
    requires Same(a, b) && Rigid(a) && WellFormed(b)
    ensures a == b
    decreases a
  {
    match a
    case Arr(xs) =>
      forall i | 0 <= i < |xs|
        ensures xs[i] == b.items[i]
      {
        RigidSame(xs[i], b.items[i]);
      }
    case Obj(ms) =>
      var ns := b.members;
      FewKeys(ms, ns);
      if ms != [] {
        RigidSame(ms[0].value, ns[0].value);
      }
    case _ =>
  }

  lemma FewKeys(ms: seq<Member>, ns: seq<Member>)
    requires Same(Obj(ms), Obj(ns)) && |ms| <= 1 && DistinctKeys(ns)
    ensures |ns| == |ms| && (ms != [] ==> ms[0].key == ns[0].key)
  {
    var first := if ms == [] then "" else ms[0].key;
    forall j | 0 <= j < |ns|
      ensures ms != [] && ns[j].key == first
    {
      assert HasKey(ms, ns[j].key);
    }
    if ns != [] {
      assert ns[0].key == first;
    }
    if |ns| > 1 {
      SecondKey(ns, first);
    }
    if |ms| == 1 {
      assert HasKey(ns, ms[0].key);
    }
  }

  lemma SecondKey(ns: seq<Member>, key: string)
    requires DistinctKeys(ns) && |ns| > 1
    ensures exists j | 0 <= j < |ns| :: ns[j].key != key
  {
    assert ns[0].key != key || ns[1].key != key;
  }

  lemma {:induction false} TextsAgree(str: Value -> string, xs: seq<Value>, ys: seq<Value>)
    requires |xs| == |ys|
    requires forall i | 0 <= i < |xs| :: Same(xs[i], ys[i]) && StrOf(str, xs[i]) == StrOf(str, ys[i])
    ensures Texts(str, xs) == Texts(str, ys)
  {
    if xs != [] {
      var n := |xs| - 1;
      assert forall i | 0 <= i < n :: xs[..n][i] == xs[i] && ys[..n][i] == ys[i];
      TextsAgree(str, xs[..n], ys[..n]);
      SameTruth(xs[n], ys[n]);
    }
  }

  /**
   * Policies with the same hash decide alike on all receipts, for every contract and artifact,
   * when `str` does not tell their corresponding verifiers apart; it cannot when the verifiers
   * of one of them are strings, numbers, or anything else without a dict of two keys.
   */
  lemma PolicyHashFixesDecision(str: Value -> string, v: Value, w: Value, ff: FloatFormat, receipts: seq<Receipt>, t: Target)
    requires Faithful(ff) && Fine(v) && Fine(w)
    requires PolicyHash(v, ff).Some? && PolicyHash(v, ff) == PolicyHash(w, ff)
    ensures CanonicalPolicy(v).Some? && CanonicalPolicy(w).Some?
    ensures RequiredPassCount(v) == RequiredPassCount(w)
    ensures var xs, ys := CanonicalPolicy(v).value.verifiers, CanonicalPolicy(w).value.verifiers;
            && |xs| == |ys|
            && ((forall i | 0 <= i < |xs| :: Rigid(xs[i])) ==> xs == ys)
            && ((forall i | 0 <= i < |xs| :: StrOf(str, xs[i]) == StrOf(str, ys[i])) ==>
                  && AuthorizedVerifiers(str, v) == AuthorizedVerifiers(str, w)
                  && QuorumMet(str, v, receipts, t) == QuorumMet(str, w, receipts, t))
  {
    hide WellFormed, FiniteNumbers, PolicyDict, Rigid, Qualifying, Same, Names, RequiredPolicy, Required;
    var p, q := CanonicalPolicy(v).value, CanonicalPolicy(w).value;
    HashMeansSamePolicy(v, w, ff, p, q);
    CanonicalWellFormed(w, q);
    SamePolicyDicts(p, q);
    SameVerifiers(str, p.verifiers, q.verifiers);
  }

  lemma SameVerifiers(str: Value -> string, xs: seq<Value>, ys: seq<Value>)
    requires Same(Arr(xs), Arr(ys)) && WellFormed(Arr(ys))
    ensures |xs| == |ys|
    ensures (forall i | 0 <= i < |xs| :: Rigid(xs[i])) ==> xs == ys
    ensures (forall i | 0 <= i < |xs| :: StrOf(str, xs[i]) == StrOf(str, ys[i])) ==> Names(str, xs) == Names(str, ys)
  {
    hide Rigid;
    if forall i | 0 <= i < |xs| :: Rigid(xs[i]) {
      forall i | 0 <= i < |xs|
        ensures xs[i] == ys[i]
      {
        RigidSame(xs[i], ys[i]);
      }
    }
    if forall i | 0 <= i < |xs| :: StrOf(str, xs[i]) == StrOf(str, ys[i]) {
      TextsAgree(str, xs, ys);
    }
  }

  /**
   * The condition is needed: a `str` that tells the two key orders of one dict apart, as
   * Python's does, gives two policies with one hash that decide differently.
   */
  lemma KeyOrderSplitsVerdict(str: Value -> string, ff: FloatFormat, t: Target)
    requires str(Obj([Member("a", Null), Member("b", Null)])) != str(Obj([Member("b", Null), Member("a", Null)]))
    requires str(Obj([Member("a", Null), Member("b", Null)])) != ""
    ensures var v := OneVerifier(Obj([Member("a", Null), Member("b", Null)]));
            var w := OneVerifier(Obj([Member("b", Null), Member("a", Null)]));
            && PolicyHash(v, ff).Some? && PolicyHash(v, ff) == PolicyHash(w, ff)
            && exists r :: QuorumMet(str, v, [r], t) == Some(true) && QuorumMet(str, w, [r], t) == Some(false)
  {
    var a := Obj([Member("a", Null), Member("b", Null)]);
    var b := Obj([Member("b", Null), Member("a", Null)]);
    OneVerifierPolicy(a);
    OneVerifierPolicy(b);
    TwoKeysSame();
    OneHash(a, b, ff);
    var r := PassReceipt(str(a), t);
    OneVerdict(str, a, str(a), t);
    OneVerdict(str, b, str(a), t);
  }

  function OneVerifier(item: Value): Value {
    Obj([Member("required", Bool(true)), Member("verifiers", Arr([item]))])
  }

  function PassReceipt(verifier: string, t: Target): Receipt {
    [
      Member("contract_id", Str(t.contractId)), Member("contract_hash", Str(t.contractHash)),
      Member("artifact_manifest_hash", Str(t.manifestHash)), Member("result", Str("PASS")),
      Member("signature", Str("s")), Member("verifier", Str(verifier))
    ]
  }

  lemma OneVerifierPolicy(item: Value)
    ensures CanonicalPolicy(OneVerifier(item)) == Some(Policy(Str(REQUESTER_SELECTS), [item], 1, [], true))
  {
    var ms := OneVerifier(item).members;
    assert ms[0].key != ms[1].key;
    GetAt(ms, 0);
    GetAt(ms, 1);
    GetFinds(ms, "policy");
    GetFinds(ms, "acceptance");
    GetFinds(ms, "required_passes");
    GetFinds(ms, "verifier_agent_id");
  }

  lemma TwoKeysSame()
    ensures var a := Obj([Member("a", Null), Member("b", Null)]);
            var b := Obj([Member("b", Null), Member("a", Null)]);
            Same(a, b) && WellFormed(a) && WellFormed(b) && FiniteNumbers(a) && FiniteNumbers(b)
  {
    hide Same;
    assert "a"[0] != "b"[0];
    SwappedSame("a", "b");
  }

  lemma SwappedSame(a: string, b: string)
    requires a != b
    ensures Same(Obj([Member(a, Null), Member(b, Null)]), Obj([Member(b, Null), Member(a, Null)]))
  {
    var ms := [Member(a, Null), Member(b, Null)];
    var ns := [Member(b, Null), Member(a, Null)];
    assert ns[1].key == a && ns[0].key == b && ms[0].key == a && ms[1].key == b;
  }

  lemma OneHash(a: Value, b: Value, ff: FloatFormat)
    requires Same(a, b) && Fine(a) && Fine(b)
    ensures PolicyHash(OneVerifier(a), ff).Some? && PolicyHash(OneVerifier(a), ff) == PolicyHash(OneVerifier(b), ff)
  {
    OneItem(a);
    OneItem(b);
    hide OneVerifier, CanonicalPolicy, PolicyDict, WellFormed, FiniteNumbers, Emit, SortKeys, HashText;
    OneVerifierPolicy(a);
    OneVerifierPolicy(b);
    var p := Policy(Str(REQUESTER_SELECTS), [a], 1, [], true);
    var q := p.(verifiers := [b]);
    DictWellFormed(p);
    DictWellFormed(q);
    DictFinite(p);
    DictFinite(q);
    SamePolicyDicts(p, q);
    SameGivesSameBytes(PolicyDict(p), PolicyDict(q), ff);
  }

  lemma OneItem(item: Value)
    ensures Fine(item) ==> WellFormed(Arr([item])) && FiniteNumbers(Arr([item]))
    ensures WellFormed(Str(REQUESTER_SELECTS)) && FiniteNumbers(Str(REQUESTER_SELECTS))
    ensures WellFormed(Arr([])) && FiniteNumbers(Arr([])) && Same(Arr([]), Arr([]))
  {
  }

  lemma PassReceiptEntries(verifier: string, t: Target)
    ensures var r := PassReceipt(verifier, t);
            && About(r, t) && At(r, "result") == Str("PASS") && Truthy(At(r, "signature"))
            && At(r, "verifier") == Str(verifier)
  {
    var r := PassReceipt(verifier, t);
    assert r[0].key == "contract_id" && r[1].key == "contract_hash" && r[2].key == "artifact_manifest_hash";
    assert r[3].key == "result" && r[4].key == "signature" && r[5].key == "verifier";
    GetAt(r, 0);
    GetAt(r, 1);
    GetAt(r, 2);
    GetAt(r, 3);
    GetAt(r, 4);
    GetAt(r, 5);
  }

  /** One PASS meets a quorum of one exactly when it comes from the verifier. */
  lemma OneVerdict(str: Value -> string, item: Value, verifier: string, t: Target)
    requires item.Obj? && Truthy(item) && verifier != ""
    ensures QuorumMet(str, OneVerifier(item), [PassReceipt(verifier, t)], t) == Some(verifier == str(item))
  {
    OneVerifierPolicy(item);
    PassReceiptEntries(verifier, t);
    var r := PassReceipt(verifier, t);
    assert [item][..0] == [];
    assert Texts(str, [item]) == [str(item)];
    assert Names(str, [item]) == {str(item)};
    hide OneVerifier, CanonicalPolicy, PassReceipt, About, Texts, Names;
    var found := Qualifying(str, {str(item)}, [r], t);
    assert r in [r];
    if verifier == str(item) {
      assert found == {verifier};
    } else {
      assert found == {};
    }
  }
}
