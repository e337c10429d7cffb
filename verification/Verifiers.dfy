/**
 * `validate_verification` and `apply_available_quorum`: which policies are accepted, and
 * what a policy that is accepted promises about its quorum.
 */
module Verifiers {
  import opened Wrappers
  import opened Text
  import opened Json
  import opened Python
  import opened Quorum

  datatype Verdict =
    | Valid
    | SelfVerification
    | TooFewVerifiers
    | BadPassCount
    | UnsupportedPolicy
    | InvalidRequest
    | NoVerifier
    | Raised

  // --------------------------------------------------------- named verifiers

  /** `list(dict.fromkeys(names))`: first occurrences, in order. */
  function Unique(names: seq<string>): (r: seq<string>)
    ensures forall n :: n in r <==> n in names
    ensures forall i, j | 0 <= i < j < |r| :: r[i] != r[j]
  {
    if names == [] then []
    else
      var front, last := Unique(names[..|names| - 1]), names[|names| - 1];
      assert names == names[..|names| - 1] + [last];
      if last in front then front else front + [last]
  }

  /** The distinct texts of the listed verifiers. */
  function Listed(str: Value -> string, items: seq<Value>): seq<string> {
    Unique(Texts(str, items))
  }

  /** The single verifier is appended: it is there, and not a string that is already listed. */
  predicate Appended(single: Value, listed: seq<string>) {
    Truthy(single) && !(single.Str? && single.s in listed)
  }

  function WithName(str: Value -> string, listed: seq<string>, single: Value): seq<string> {
    if Appended(single, listed) then listed + [StrOf(str, single)] else listed
  }

  /** `_named_verifiers`; None is a TypeError. */
  function NamedVerifiers(str: Value -> string, ms: seq<Member>): Option<seq<string>> {
    match Items(At(ms, "verifiers"))
    case None => None
    case Some(items) => Some(WithName(str, Listed(str, items), At(ms, "verifier_agent_id")))
  }

  // ------------------------------------------------------------ validation

  predicate Holds(names: seq<string>, executor: Value) {
    executor.Str? && executor.s in names
  }

  function ValidateCount(names: seq<string>, executor: Value, minimum: int, passes: Option<int>): Verdict {
    if Holds(names, executor) then SelfVerification
    else if |names| < minimum then TooFewVerifiers
    else
      match passes
      case None => Raised
      case Some(n) => if n < minimum || n > |names| then BadPassCount else Valid
  }

  function ValidateNamed(str: Value -> string, ms: seq<Member>, executor: Value, minimum: int, passes: Option<int>): Verdict {
    match NamedVerifiers(str, ms)
    case None => Raised
    case Some(names) => ValidateCount(names, executor, minimum, passes)
  }

  /** `int(v or 0)`. */
  function CountOrZero(v: Value): Option<int> {
    if Truthy(v) then IntOfValue(v) else Some(0)
  }

  /** `int(v if v is not None else 1)`. */
  function CountOrOne(v: Value): Option<int> {
    if v.Null? then Some(1) else IntOfValue(v)
  }

  function EffectivePolicy(ms: seq<Member>): Value {
    OrElse(At(ms, "policy"), Str(REQUESTER_SELECTS))
  }

  function Validate(str: Value -> string, v: Value, executor: Value): Verdict {
    match Required(v)
    case None => Raised
    case Some(required) => if required then ValidateRequired(str, v.members, executor) else Valid
  }

  function ValidateRequired(str: Value -> string, ms: seq<Member>, executor: Value): Verdict {
    var policy := EffectivePolicy(ms);
    var passes := At(ms, "required_passes");
    var single := At(ms, "verifier_agent_id");
    if policy.Arr? || policy.Obj? then Raised
    else if policy == Str("MUTUAL_SELECTION") || policy == Str("NETWORK_RANDOM") then UnsupportedPolicy
    else if policy == Str(MULTI_VERIFIER) then ValidateNamed(str, ms, executor, 2, CountOrZero(passes))
    else if policy == Str(REPUTATION_WEIGHTED) then ValidateNamed(str, ms, executor, 1, CountOrOne(passes))
    else if policy != Str(REQUESTER_SELECTS) then InvalidRequest
    else if !Truthy(single) then NoVerifier
    else if Equal(single, executor) then SelfVerification
    else Valid
  }

  lemma PolicyNames(ms: seq<Member>)
    requires EffectivePolicy(ms) == Str(MULTI_VERIFIER) || EffectivePolicy(ms) == Str(REPUTATION_WEIGHTED)
    ensures EffectivePolicy(ms) != Str("MUTUAL_SELECTION") && EffectivePolicy(ms) != Str("NETWORK_RANDOM")
    ensures MULTI_VERIFIER != REPUTATION_WEIGHTED
  {
    assert MULTI_VERIFIER[0] == 'M' && MULTI_VERIFIER[2] == 'L' && REPUTATION_WEIGHTED[0] == 'R';
    assert "MUTUAL_SELECTION"[2] == 'T' && "NETWORK_RANDOM"[0] == 'N';
  }

  lemma NamedPath(str: Value -> string, ms: seq<Member>, executor: Value)
    requires EffectivePolicy(ms) == Str(MULTI_VERIFIER) || EffectivePolicy(ms) == Str(REPUTATION_WEIGHTED)
    ensures ValidateRequired(str, ms, executor) ==
            if EffectivePolicy(ms) == Str(MULTI_VERIFIER)
            then ValidateNamed(str, ms, executor, 2, CountOrZero(At(ms, "required_passes")))
            else ValidateNamed(str, ms, executor, 1, CountOrOne(At(ms, "required_passes")))
  {
    PolicyNames(ms);
    hide EffectivePolicy, ValidateNamed, At;
  }

  // --------------------------------------------- counting names and verifiers

  function NameSet(names: seq<string>): set<string> {
    set n | n in names
  }

  lemma {:induction false} DistinctCount(names: seq<string>)
    requires forall i, j | 0 <= i < j < |names| :: names[i] != names[j]
    ensures |NameSet(names)| == |names|
  {
    if names != [] {
      var front, last := names[..|names| - 1], names[|names| - 1];
      DistinctCount(front);
      assert names == front + [last];
      assert NameSet(names) == NameSet(front) + {last};
    }
  }

  /** The single verifier, if any, is counted once, by validation as by the authorized set. */
  predicate CountedOnce(str: Value -> string, items: seq<Value>, single: Value) {
    !Truthy(single) || single.Str? || (StrOf(str, single) !in Listed(str, items) && !Contains(items, single))
  }

  lemma TextsOfAppended(str: Value -> string, items: seq<Value>, single: Value)
    requires Truthy(single)
    ensures Names(str, items + [single]) == Names(str, items) + {StrOf(str, single)}
  {
    assert (items + [single])[..|items|] == items;
  }

  lemma TextListed(str: Value -> string, items: seq<Value>, s: string)
    requires Contains(items, Str(s)) && s != ""
    ensures s in Listed(str, items)
  {
    var i :| 0 <= i < |items| && Equal(items[i], Str(s));
    EqualToText(items[i], s);
    assert Truthy(items[i]) && StrOf(str, items[i]) == s;
  }

  lemma EqualTruth(a: Value, b: Value)
    requires Equal(a, b)
    ensures Truthy(a) == Truthy(b)
  {
    match (a, b)
    case (Obj(ms), Obj(ns)) =>
      SortMembersKeeps(SortValues(Norm(a).members));
      SortMembersKeeps(SortValues(Norm(b).members));
      SortedCount(Norm(a).members);
      SortedCount(Norm(b).members);
    case (Arr(xs), Arr(ys)) =>
      assert |SortKeys(Norm(a)).items| == |xs| && |SortKeys(Norm(b)).items| == |ys|;
    case _ =>
  }

  lemma SortedCount(ms: seq<Member>)
    ensures |SortMembers(SortValues(ms))| == |ms|
  {
    SortMembersKeeps(SortValues(ms));
    assert |multiset(SortMembers(SortValues(ms)))| == |multiset(SortValues(ms))|;
  }

  /** Names and authorized verifiers are the same set, and equally many, exactly when nothing is counted twice. */
  lemma NamesAgainstAuthorized(str: Value -> string, items: seq<Value>, single: Value)
    ensures var named := WithName(str, Listed(str, items), single);
            var authorized := Names(str, WithSingle(items, single));
            && authorized <= NameSet(named)
            && (CountedOnce(str, items, single) ==> authorized == NameSet(named) && |authorized| == |named|)
            && (!CountedOnce(str, items, single) ==> authorized == Names(str, items) && |authorized| == |named| - 1 && |authorized| >= 1)
  {
    hide Listed, Contains, Names;
    ListedCount(str, items);
    var listed := Listed(str, items);
    if Truthy(single) {
      var t := StrOf(str, single);
      TextsOfAppended(str, items, single);
      assert NameSet(listed + [t]) == NameSet(listed) + {t};
      if !CountedOnce(str, items, single) {
        SomethingListed(str, items, single);
      } else if single.Str? && Contains(items, single) {
        TextListed(str, items, t);
      }
    }
  }

  lemma ListedCount(str: Value -> string, items: seq<Value>)
    ensures NameSet(Listed(str, items)) == Names(str, items)
    ensures |Names(str, items)| == |Listed(str, items)|
    ensures forall n :: n in Names(str, items) <==> n in Listed(str, items)
  {
    DistinctCount(Listed(str, items));
    assert NameSet(Listed(str, items)) == Names(str, items);
  }

  lemma SomethingListed(str: Value -> string, items: seq<Value>, single: Value)
    requires Truthy(single) && !CountedOnce(str, items, single)
    ensures Names(str, items) != {}
    ensures StrOf(str, single) !in Listed(str, items) ==> Contains(items, single)
  {
    if StrOf(str, single) in Listed(str, items) {
      assert StrOf(str, single) in Names(str, items);
    } else {
      var i :| 0 <= i < |items| && Equal(items[i], single);
      EqualTruth(items[i], single);
      assert StrOf(str, items[i]) in Texts(str, items);
      assert StrOf(str, items[i]) in Names(str, items);
    }
  }

  // ------------------------------------------------------ validated quorums

  lemma CountsAgree(x: Value, n: int)
    requires (CountOrZero(x) == Some(n) || CountOrOne(x) == Some(n)) && n >= 1
    ensures CountOf(x) == Some(n)
  {
  }

  /** What acceptance says about the two policies that name several verifiers. */
  lemma AcceptedMeans(str: Value -> string, v: Value, executor: Value, p: Policy)
    requires Required(v) == Some(true) && Validate(str, v, executor) == Valid && CanonicalPolicy(v) == Some(p)
    requires EffectivePolicy(v.members) == Str(MULTI_VERIFIER) || EffectivePolicy(v.members) == Str(REPUTATION_WEIGHTED)
    ensures NamedVerifiers(str, v.members).Some? && Items(At(v.members, "verifiers")).Some?
    ensures var names := NamedVerifiers(str, v.members).value;
            !Holds(names, executor) && p.required && p.passes == Passes(p) && 1 <= Passes(p) <= |names|
    ensures p.verifiers == WithSingle(Items(At(v.members, "verifiers")).value, At(v.members, "verifier_agent_id"))
  {
    var ms := v.members;
    NamedPath(str, ms, executor);
    hide EffectivePolicy, NamedVerifiers, At, WithSingle;
    var x := At(ms, "required_passes");
    if CountOrZero(x).Some? && CountOrZero(x).value >= 1 {
      CountsAgree(x, CountOrZero(x).value);
    }
    if CountOrOne(x).Some? && CountOrOne(x).value >= 1 {
      CountsAgree(x, CountOrOne(x).value);
    }
  }

  /**
   * An accepted MULTI_VERIFIER or REPUTATION_WEIGHTED policy has authorized verifiers, all of
   * them named, the executor is not one of them, and it asks for at least one pass. It asks
   * for no more than there are verifiers exactly when the single verifier is counted once,
   * or it asks for fewer than it names.
   */
  lemma ValidatedIsReachable(str: Value -> string, v: Value, executor: Value, p: Policy)
    requires Required(v) == Some(true) && Validate(str, v, executor) == Valid && CanonicalPolicy(v) == Some(p)
    requires EffectivePolicy(v.members) == Str(MULTI_VERIFIER) || EffectivePolicy(v.members) == Str(REPUTATION_WEIGHTED)
    ensures NamedVerifiers(str, v.members).Some? && Items(At(v.members, "verifiers")).Some?
    ensures var names := NamedVerifiers(str, v.members).value;
            var authorized := Names(str, p.verifiers);
            var once := CountedOnce(str, Items(At(v.members, "verifiers")).value, At(v.members, "verifier_agent_id"));
            && authorized != {} && authorized <= NameSet(names) && (once ==> authorized == NameSet(names))
            && (executor.Str? ==> executor.s !in authorized)
            && 1 <= Passes(p) && (Passes(p) <= |authorized| <==> once || Passes(p) < |names|)
  {
    AcceptedMeans(str, v, executor, p);
    hide Validate, CanonicalPolicy, EffectivePolicy, Names, WithSingle, CountedOnce, WithName, Listed, At;
    NamesAgainstAuthorized(str, Items(At(v.members, "verifiers")).value, At(v.members, "verifier_agent_id"));
  }

  /**
   * So the executor's receipts never count, and when every authorized verifier has a counting
   * receipt, the quorum is met exactly when it is reachable.
   */
  lemma ValidatedQuorumIsIndependent(str: Value -> string, v: Value, executor: Value, p: Policy, receipts: seq<Receipt>,
                                     t: Target)
    requires Required(v) == Some(true) && Validate(str, v, executor) == Valid && CanonicalPolicy(v) == Some(p)
    requires EffectivePolicy(v.members) == Str(MULTI_VERIFIER) || EffectivePolicy(v.members) == Str(REPUTATION_WEIGHTED)
    ensures var authorized := Names(str, p.verifiers);
            && Qualifying(str, authorized, receipts, t) <= authorized
            && (executor.Str? ==> executor.s !in Qualifying(str, authorized, receipts, t))
            && ((forall n | n in authorized :: exists r | r in receipts :: VerifierOf(str, r) == n && Counts(str, authorized, r, t))
                ==> QuorumMet(str, v, receipts, t) == Some(Passes(p) <= |authorized|))
  {
    ValidatedIsReachable(str, v, executor, p);
    hide Validate, EffectivePolicy, Names, CountedOnce, NamedVerifiers;
    var authorized := Names(str, p.verifiers);
    if forall n | n in authorized :: exists r | r in receipts :: VerifierOf(str, r) == n && Counts(str, authorized, r, t) {
      assert Qualifying(str, authorized, receipts, t) == authorized;
    }
  }

  function TwiceNamed(): seq<Member> {
    [
      Member("required", Bool(true)), Member("policy", Str(MULTI_VERIFIER)), Member("verifiers", Arr([Str("5")])),
      Member("verifier_agent_id", Int(5)), Member("required_passes", Int(2))
    ]
  }

  lemma TwiceNamedEntries()
    ensures var ms := TwiceNamed();
            && At(ms, "required") == Bool(true) && At(ms, "policy") == Str(MULTI_VERIFIER)
            && At(ms, "verifiers") == Arr([Str("5")]) && At(ms, "verifier_agent_id") == Int(5)
            && At(ms, "required_passes") == Int(2) && At(ms, "acceptance") == Null
  {
    var ms := TwiceNamed();
    assert ms[0].key == "required" && ms[1].key == "policy" && ms[2].key == "verifiers";
    assert ms[3].key == "verifier_agent_id" && ms[4].key == "required_passes";
    GetAt(ms, 0);
    GetAt(ms, 1);
    GetAt(ms, 2);
    GetAt(ms, 3);
    GetAt(ms, 4);
    GetFinds(ms, "acceptance");
  }

  /** The failing input: the number 5 next to the string "5" counts as two names and one verifier. */
  lemma TwiceNamedIsUnreachable(str: Value -> string, executor: Value, receipts: seq<Receipt>, t: Target)
    requires str(Int(5)) == "5" && executor != Str("5")
    ensures Validate(str, Obj(TwiceNamed()), executor) == Valid
    ensures QuorumMet(str, Obj(TwiceNamed()), receipts, t) == Some(false)
  {
    TwiceNamedEntries();
    OneText(str);
    EqualToText(Int(5), "5");
    hide TwiceNamed, At, Names, Listed, Texts, Equal, PolicyHash;
    var ms, items := TwiceNamed(), [Str("5")];
    assert NamedVerifiers(str, ms) == Some(["5"] + ["5"]);
    NamedPath(str, ms, executor);
    hide ValidateRequired;
    TwiceNamedPolicy();
    TextsOfAppended(str, items, Int(5));
    var found := Qualifying(str, {"5"}, receipts, t);
    assert {"5"} + {"5"} == {"5"};
    assert found <= {"5"};
    SubsetCount(found, {"5"});
  }

  lemma TwiceNamedPolicy()
    ensures TwiceNamed() != []
    ensures Required(Obj(TwiceNamed())) == Some(true)
    ensures CanonicalPolicy(Obj(TwiceNamed())) == Some(Policy(Str(MULTI_VERIFIER), [Str("5")] + [Int(5)], 2, [], true))
  {
    TwiceNamedEntries();
    EqualToText(Int(5), "5");
    hide At, Equal;
    assert !Contains([Str("5")], Int(5)) by {
      EqualApart();
    }
  }

  lemma EqualApart()
    ensures !Equal(Str("5"), Int(5))
  {
  }

  lemma OneText(str: Value -> string)
    ensures Texts(str, [Str("5")]) == ["5"] && Names(str, [Str("5")]) == {"5"} && Listed(str, [Str("5")]) == ["5"]
  {
    assert [Str("5")][..0] == [];
    assert Texts(str, [Str("5")]) == ["5"];
    assert ["5"][..0] == [];
  }

  // ---------------------------------------------------- receipt counting

  lemma SubsetCount(a: set<string>, b: set<string>)
    requires a <= b
    ensures |a| <= |b|
  {
    assert b == a + (b - a);
    assert |b| == |a| + |b - a|;
  }

  /**
   * More receipts, in any order and with any repetition, never take a verifier away, so a
   * quorum that is met stays met.
   */
  lemma QuorumIsMonotone(str: Value -> string, v: Value, allowed: set<string>, receipts: seq<Receipt>, more: seq<Receipt>,
                         t: Target)
    requires forall r | r in receipts :: r in more
    ensures Qualifying(str, allowed, receipts, t) <= Qualifying(str, allowed, more, t)
    ensures QuorumMet(str, v, receipts, t) == Some(true) ==> QuorumMet(str, v, more, t) == Some(true)
  {
    if CanonicalPolicy(v).Some? {
      var names := Names(str, CanonicalPolicy(v).value.verifiers);
      assert Qualifying(str, names, receipts, t) <= Qualifying(str, names, more, t);
      SubsetCount(Qualifying(str, names, receipts, t), Qualifying(str, names, more, t));
    }
  }

  /** The receipt is about something else, no pass, unsigned, or from nobody. */
  predicate Irrelevant(str: Value -> string, r: Receipt, t: Target) {
    || At(r, "contract_id") != Str(t.contractId) || At(r, "contract_hash") != Str(t.contractHash)
    || (t.manifestHash != "" && At(r, "artifact_manifest_hash") != Str(t.manifestHash))
    || At(r, "result") != Str("PASS") || !Truthy(At(r, "signature"))
    || StrOf(str, OrElse(At(r, "verifier"), Str(""))) == ""
  }

  /** Such receipts change no decision, whatever the policy and wherever they stand in the list. */
  lemma IrrelevantReceiptsIgnored(str: Value -> string, v: Value, allowed: set<string>, receipts: seq<Receipt>,
                                  fewer: seq<Receipt>, t: Target)
    requires forall r | r in fewer :: r in receipts
    requires forall r | r in receipts && r !in fewer :: Irrelevant(str, r, t)
    ensures Qualifying(str, allowed, receipts, t) == Qualifying(str, allowed, fewer, t)
    ensures QuorumMet(str, v, receipts, t) == QuorumMet(str, v, fewer, t)
  {
    IrrelevantStep(str, allowed, receipts, fewer, t);
    if CanonicalPolicy(v).Some? {
      IrrelevantStep(str, Names(str, CanonicalPolicy(v).value.verifiers), receipts, fewer, t);
    }
  }

  lemma IrrelevantStep(str: Value -> string, allowed: set<string>, receipts: seq<Receipt>, fewer: seq<Receipt>, t: Target)
    requires forall r | r in fewer :: r in receipts
    requires forall r | r in receipts && r !in fewer :: Irrelevant(str, r, t)
    ensures Qualifying(str, allowed, receipts, t) == Qualifying(str, allowed, fewer, t)
  {
    forall r | Irrelevant(str, r, t)
      ensures !Counts(str, allowed, r, t)
    {
    }
    hide Counts, Irrelevant, VerifierOf;
  }

  // -------------------------------------------------- quorum defaulting

  function TextList(names: seq<string>): Value {
    Arr(seq(|names|, i requires 0 <= i < |names| => Str(names[i])))
  }

  /** The count an absent one is given, or the explicit one; None: `int` raises. */
  function DefaultCount(ms: seq<Member>, names: seq<string>): Option<int> {
    if At(ms, "required_passes").Null? then Some(if |names| >= 2 then 2 else 1) else IntOfValue(At(ms, "required_passes"))
  }

  /** `apply_available_quorum`; None: it raises. */
  function ApplyAvailableQuorum(str: Value -> string, ms: seq<Member>): Option<seq<Member>> {
    if At(ms, "policy") != Str(REPUTATION_WEIGHTED) then Some(ms)
    else
      match NamedVerifiers(str, ms)
      case None => None
      case Some(names) =>
        match DefaultCount(ms, names)
        case None => None
        case Some(n) => Some(Put(Put(ms, "verifiers", TextList(names)), "required_passes", Int(n)))
  }

  /** Python's `str` of a true value is never empty. */
  ghost predicate Spells(str: Value -> string) {
    forall v | Truthy(v) :: StrOf(str, v) != ""
  }

  lemma DefaultedEntries(str: Value -> string, ms: seq<Member>, out: seq<Member>)
    requires At(ms, "policy") == Str(REPUTATION_WEIGHTED) && ApplyAvailableQuorum(str, ms) == Some(out)
    ensures NamedVerifiers(str, ms).Some? && DefaultCount(ms, NamedVerifiers(str, ms).value).Some?
    ensures At(out, "verifiers") == TextList(NamedVerifiers(str, ms).value)
    ensures At(out, "required_passes") == Int(DefaultCount(ms, NamedVerifiers(str, ms).value).value)
    ensures forall key | key != "verifiers" && key != "required_passes" :: At(out, key) == At(ms, key)
  {
    var names := NamedVerifiers(str, ms).value;
    var n := Int(DefaultCount(ms, names).value);
    var mid := Put(ms, "verifiers", TextList(names));
    assert "verifiers"[0] != "required_passes"[0];
    hide NamedVerifiers, DefaultCount, TextList;
    forall key: string
      ensures At(out, key) == if key == "required_passes" then n else if key == "verifiers" then TextList(names) else At(ms, key)
    {
      PutGet(ms, "verifiers", TextList(names), key);
      PutGet(mid, "required_passes", n, key);
    }
  }

  lemma {:induction false} TextsOfTexts(str: Value -> string, names: seq<string>)
    requires "" !in names
    ensures Texts(str, TextList(names).items) == names
  {
    if names != [] {
      var n := |names| - 1;
      assert TextList(names).items[..n] == TextList(names[..n]).items;
      TextsOfTexts(str, names[..n]);
      assert names == names[..n] + [names[n]];
    }
  }

  lemma {:induction false} UniqueFixed(names: seq<string>)
    requires forall i, j | 0 <= i < j < |names| :: names[i] != names[j]
    ensures Unique(names) == names
  {
    if names != [] {
      var front := names[..|names| - 1];
      UniqueFixed(front);
      assert names == front + [names[|names| - 1]];
    }
  }

  lemma UniqueExtended(names: seq<string>, last: string)
    requires forall i, j | 0 <= i < j < |names| :: names[i] != names[j]
    ensures Unique(names + [last]) == if last in names then names else names + [last]
  {
    hide Unique;
    UniqueFixed(names);
    UniqueStep(names, last);
  }

  lemma UniqueStep(names: seq<string>, last: string)
    ensures Unique(names + [last]) == if last in Unique(names) then Unique(names) else Unique(names) + [last]
  {
    assert (names + [last])[..|names|] == names;
  }

  /** A single verifier that is no string, and whose text is not listed, is appended once more by each call. */
  predicate GrowsAgain(str: Value -> string, items: seq<Value>, single: Value) {
    Truthy(single) && !single.Str? && StrOf(str, single) !in Listed(str, items)
  }

  lemma NamesAgain(str: Value -> string, items: seq<Value>, single: Value)
    requires Spells(str)
    ensures var names := WithName(str, Listed(str, items), single);
            WithName(str, Listed(str, TextList(names).items), single) ==
            names + (if GrowsAgain(str, items, single) then [StrOf(str, single)] else [])
  {
    var listed := Listed(str, items);
    var names := WithName(str, listed, single);
    assert "" !in names;
    TextsOfTexts(str, names);
    hide TextList, Texts, Spells;
    UniqueFixed(listed);
    UniqueExtended(listed, StrOf(str, single));
  }

  lemma {:induction false} PutSame(ms: seq<Member>, key: string, v: Value)
    requires Get(ms, key) == Some(v)
    ensures Put(ms, key, v) == ms
  {
    if ms[0].key != key {
      PutSame(ms[1..], key, v);
      assert ms == [ms[0]] + ms[1..];
    }
  }

  lemma {:induction false} PutTwice(ms: seq<Member>, key: string, v: Value, w: Value)
    ensures Put(Put(ms, key, v), key, w) == Put(ms, key, w)
  {
    var r := Put(ms, key, v);
    if ms == [] {
    } else if ms[0].key == key {
      assert r[1..] == ms[1..];
    } else {
      assert r[1..] == Put(ms[1..], key, v);
      PutTwice(ms[1..], key, v, w);
    }
  }

  /** Defaulting twice is defaulting once, exactly when the single verifier is not appended again. */
  lemma DefaultingIsStableIff(str: Value -> string, ms: seq<Member>, out: seq<Member>)
    requires Spells(str) && ApplyAvailableQuorum(str, ms) == Some(out)
    ensures ApplyAvailableQuorum(str, out) == Some(out) <==>
            !(At(ms, "policy") == Str(REPUTATION_WEIGHTED) && Items(At(ms, "verifiers")).Some? &&
              GrowsAgain(str, Items(At(ms, "verifiers")).value, At(ms, "verifier_agent_id")))
  {
    hide Spells, GrowsAgain, WithName, Listed, Texts, TextList, At, Put;
    if At(ms, "policy") == Str(REPUTATION_WEIGHTED) {
      DefaultedEntries(str, ms, out);
      assert "policy"[0] != "verifiers"[0] && "policy"[0] != "required_passes"[0] && "verifier_agent_id"[8] != "verifiers"[8];
      var items, single := Items(At(ms, "verifiers")).value, At(ms, "verifier_agent_id");
      NamesAgain(str, items, single);
      var names := NamedVerifiers(str, ms).value;
      var n := DefaultCount(ms, names).value;
      Listable(names);
      var again := NamedVerifiers(str, out).value;
      DefaultedAgain(ms, out, names, n, again);
      LongerDiffers(names, StrOf(str, single));
    }
  }

  lemma LongerDiffers(names: seq<string>, last: string)
    ensures names + [last] != names && names + [] == names
  {
    assert |names + [last]| != |names|;
  }

  lemma Listable(names: seq<string>)
    ensures TextList(names).Arr? && Items(TextList(names)) == Some(TextList(names).items)
  {
    if names == [] {
      assert TextList(names).items == [];
    }
  }

  lemma TextListInjective(a: seq<string>, b: seq<string>)
    requires TextList(a) == TextList(b)
    ensures a == b
  {
    var xs, ys := TextList(a).items, TextList(b).items;
    assert |a| == |xs| == |b|;
    forall i | 0 <= i < |a|
      ensures a[i] == b[i]
    {
      assert xs[i] == Str(a[i]) && ys[i] == Str(b[i]);
    }
  }

  lemma DefaultedAgain(ms: seq<Member>, out: seq<Member>, names: seq<string>, n: int, again: seq<string>)
    requires out == Put(Put(ms, "verifiers", TextList(names)), "required_passes", Int(n))
    ensures Put(Put(out, "verifiers", TextList(again)), "required_passes", Int(n)) == out <==> again == names
  {
    var mid := Put(ms, "verifiers", TextList(names));
    assert "verifiers"[0] != "required_passes"[0];
    PutGet(ms, "verifiers", TextList(names), "verifiers");
    PutGet(mid, "required_passes", Int(n), "verifiers");
    PutGet(mid, "required_passes", Int(n), "required_passes");
    hide TextList;
    var next := Put(out, "verifiers", TextList(again));
    if again == names {
      PutSame(out, "verifiers", TextList(names));
      PutSame(out, "required_passes", Int(n));
    } else {
      PutGet(out, "verifiers", TextList(again), "verifiers");
      PutGet(next, "required_passes", Int(n), "verifiers");
      if TextList(again) == TextList(names) {
        TextListInjective(again, names);
      }
    }
  }

  lemma ListedSpelled(str: Value -> string, items: seq<Value>)
    requires Spells(str)
    ensures "" !in Listed(str, items)
  {
  }

  lemma NamedSet(str: Value -> string, items: seq<Value>, single: Value)
    ensures NameSet(WithName(str, Listed(str, items), single)) ==
            Names(str, items) + (if Truthy(single) then {StrOf(str, single)} else {})
  {
    hide Listed, Names;
    ListedCount(str, items);
    var listed := Listed(str, items);
    if Appended(single, listed) {
      assert NameSet(listed + [StrOf(str, single)]) == NameSet(listed) + {StrOf(str, single)};
    }
  }

  lemma NamesOfTexts(str: Value -> string, names: seq<string>, single: Value)
    requires "" !in names && (Truthy(single) ==> StrOf(str, single) in names)
    ensures TextList(names).Arr? && Names(str, WithSingle(TextList(names).items, single)) == NameSet(names)
  {
    TextsOfTexts(str, names);
    hide Texts, Contains;
    var items := TextList(names).items;
    hide TextList;
    assert Names(str, items) == NameSet(names);
    if Truthy(single) {
      TextsOfAppended(str, items, single);
    }
  }

  lemma NamesOfNamed(str: Value -> string, items: seq<Value>, single: Value)
    requires Spells(str)
    ensures var names := WithName(str, Listed(str, items), single);
            && NameSet(names) == Names(str, items) + (if Truthy(single) then {StrOf(str, single)} else {})
            && TextList(names).Arr? && Names(str, WithSingle(TextList(names).items, single)) == NameSet(names)
  {
    hide Listed, Names;
    NamedSet(str, items, single);
    ListedSpelled(str, items);
    NamesOfTexts(str, WithName(str, Listed(str, items), single), single);
  }

  /**
   * Defaulting a required policy never lowers the pass count, and keeps the authorized set
   * exactly when no listed verifier equals the single one while being spelled differently.
   */
  lemma DefaultingKeepsAuthorizedIff(str: Value -> string, ms: seq<Member>, out: seq<Member>, p: Policy)
    requires Spells(str) && ApplyAvailableQuorum(str, ms) == Some(out)
    requires ms != [] && Truthy(At(ms, "required")) && CanonicalPolicy(Obj(ms)) == Some(p)
    ensures out != [] && CanonicalPolicy(Obj(out)).Some? && Items(At(ms, "verifiers")).Some?
    ensures var q := CanonicalPolicy(Obj(out)).value;
            var items, single := Items(At(ms, "verifiers")).value, At(ms, "verifier_agent_id");
            && Passes(q) >= Passes(p)
            && (Names(str, q.verifiers) == Names(str, p.verifiers) <==>
                !(At(ms, "policy") == Str(REPUTATION_WEIGHTED) && Truthy(single) && Contains(items, single)
                  && StrOf(str, single) !in Listed(str, items)))
  {
    hide Spells, WithName, Listed, At, Names, Contains, TextList, NamedVerifiers, ApplyAvailableQuorum, CanonicalPolicy;
    if At(ms, "policy") == Str(REPUTATION_WEIGHTED) {
      DefaultedPolicy(str, ms, out, p);
      var items, single := Items(At(ms, "verifiers")).value, At(ms, "verifier_agent_id");
      ListedCount(str, items);
      NamesOfNamed(str, items, single);
      if Truthy(single) {
        TextsOfAppended(str, items, single);
      }
    } else {
      Undefaulted(str, ms, p);
    }
  }

  lemma Undefaulted(str: Value -> string, ms: seq<Member>, p: Policy)
    requires At(ms, "policy") != Str(REPUTATION_WEIGHTED)
    requires ms != [] && Truthy(At(ms, "required")) && CanonicalPolicy(Obj(ms)) == Some(p)
    ensures ApplyAvailableQuorum(str, ms) == Some(ms) && Items(At(ms, "verifiers")).Some?
  {
  }

  /** The two canonical policies, before and after. */
  lemma DefaultedPolicy(str: Value -> string, ms: seq<Member>, out: seq<Member>, p: Policy)
    requires ApplyAvailableQuorum(str, ms) == Some(out) && At(ms, "policy") == Str(REPUTATION_WEIGHTED)
    requires ms != [] && Truthy(At(ms, "required")) && CanonicalPolicy(Obj(ms)) == Some(p)
    ensures out != [] && CanonicalPolicy(Obj(out)).Some? && Items(At(ms, "verifiers")).Some?
    ensures var q := CanonicalPolicy(Obj(out)).value;
            var items, single := Items(At(ms, "verifiers")).value, At(ms, "verifier_agent_id");
            && Passes(q) >= Passes(p) && p.verifiers == WithSingle(items, single)
            && TextList(WithName(str, Listed(str, items), single)).Arr?
            && q.verifiers == WithSingle(TextList(WithName(str, Listed(str, items), single)).items, single)
  {
    hide WithName, Listed, TextList, At, Put, WithSingle, CountOf, DefaultCount;
    DefaultedEntries(str, ms, out);
    OtherKeys();
    NothingAt("required");
    var names := NamedVerifiers(str, ms).value;
    Listable(names);
    DefaultCountKeeps(ms, names);
  }

  lemma DefaultCountKeeps(ms: seq<Member>, names: seq<string>)
    requires CountOf(At(ms, "required_passes")).Some? && DefaultCount(ms, names).Some?
    ensures CountOf(Int(DefaultCount(ms, names).value)).Some?
    ensures var n, m := CountOf(At(ms, "required_passes")).value, CountOf(Int(DefaultCount(ms, names).value)).value;
            m == n || m >= 1 >= n
  {
  }

  lemma OtherKeys()
    ensures "policy" != "verifiers" && "policy" != "required_passes"
    ensures "required" != "verifiers" && "required" != "required_passes"
    ensures "acceptance" != "verifiers" && "acceptance" != "required_passes"
    ensures "verifier_agent_id" != "verifiers" && "verifier_agent_id" != "required_passes"
  {
    assert |"required"| != |"required_passes"|;
    assert "verifier_agent_id"[8] != "verifiers"[8];
  }

  lemma NothingAt(key: string)
    ensures At([], key) == Null
  {
  }

  /**
   * A defaulted required REPUTATION_WEIGHTED policy validates exactly when it has a name, the
   * executor is not among them, and an explicit count lies between 1 and the number of names,
   * one more if the single verifier is appended again.
   */
  lemma DefaultedValidatesIff(str: Value -> string, ms: seq<Member>, out: seq<Member>, executor: Value)
    requires Spells(str) && ApplyAvailableQuorum(str, ms) == Some(out)
    requires At(ms, "policy") == Str(REPUTATION_WEIGHTED) && Truthy(At(ms, "required"))
    ensures NamedVerifiers(str, ms).Some? && Items(At(ms, "verifiers")).Some?
    ensures var names := NamedVerifiers(str, ms).value;
            var again := if GrowsAgain(str, Items(At(ms, "verifiers")).value, At(ms, "verifier_agent_id")) then 1 else 0;
            var explicit := At(ms, "required_passes");
            Validate(str, Obj(out), executor) == Valid <==>
            && names != [] && !Holds(names, executor)
            && (!explicit.Null? ==> IntOfValue(explicit).Some? && 1 <= IntOfValue(explicit).value <= |names| + again)
  {
    hide Spells, Listed, Texts, TextList, At, Put, ValidateRequired;
    DefaultedEntries(str, ms, out);
    OtherKeys();
    NothingAt("required");
    var items, single := Items(At(ms, "verifiers")).value, At(ms, "verifier_agent_id");
    var names := NamedVerifiers(str, ms).value;
    Listable(names);
    NamesAgain(str, items, single);
    NamedPath(str, out, executor);
    PolicyTruthy();
    assert NamedVerifiers(str, out) == Some(names + (if GrowsAgain(str, items, single) then [StrOf(str, single)] else []));
    assert GrowsAgain(str, items, single) ==> StrOf(str, single) in names;
  }

  lemma PolicyTruthy()
    ensures Truthy(Str(REPUTATION_WEIGHTED)) && MULTI_VERIFIER != REPUTATION_WEIGHTED
  {
    assert MULTI_VERIFIER[0] != REPUTATION_WEIGHTED[0];
  }

  function SpelledTwice(): seq<Member> {
    [
      Member("required", Bool(true)), Member("policy", Str(REPUTATION_WEIGHTED)),
      Member("verifiers", Arr([Float(Integral(1))])), Member("verifier_agent_id", Int(1))
    ]
  }

  lemma SpelledTwiceEntries()
    ensures var ms := SpelledTwice();
            && ms != [] && At(ms, "required") == Bool(true) && At(ms, "policy") == Str(REPUTATION_WEIGHTED)
            && At(ms, "verifiers") == Arr([Float(Integral(1))]) && At(ms, "verifier_agent_id") == Int(1)
            && At(ms, "required_passes") == Null && At(ms, "acceptance") == Null
  {
    var ms := SpelledTwice();
    assert ms[0].key == "required" && ms[1].key == "policy" && ms[2].key == "verifiers" && ms[3].key == "verifier_agent_id";
    GetAt(ms, 0);
    GetAt(ms, 1);
    GetAt(ms, 2);
    GetAt(ms, 3);
    GetFinds(ms, "required_passes");
    GetFinds(ms, "acceptance");
  }

  /** The failing input: a listed 1.0 with the single verifier 1 is authorized once, and after defaulting twice. */
  lemma DefaultingAddsSpelling(str: Value -> string)
    requires Spells(str) && str(Float(Integral(1))) != str(Int(1))
    ensures var before := CanonicalPolicy(Obj(SpelledTwice()));
            var out := ApplyAvailableQuorum(str, SpelledTwice());
            && before.Some? && out.Some? && CanonicalPolicy(Obj(out.value)).Some?
            && Names(str, CanonicalPolicy(Obj(out.value)).value.verifiers) != Names(str, before.value.verifiers)
  {
    hide SpelledTwice, At, Contains, Listed, Names, Spells, ApplyAvailableQuorum, CanonicalPolicy;
    SpelledTwiceEntries();
    SpelledTwiceDefined(str);
    OneListed(str);
    DefaultingKeepsAuthorizedIff(str, SpelledTwice(), ApplyAvailableQuorum(str, SpelledTwice()).value,
                                 CanonicalPolicy(Obj(SpelledTwice())).value);
  }

  lemma SpelledTwiceDefined(str: Value -> string)
    ensures CanonicalPolicy(Obj(SpelledTwice())).Some? && ApplyAvailableQuorum(str, SpelledTwice()).Some?
  {
    hide SpelledTwice, At, Put, TextList, WithName, WithSingle;
    SpelledTwiceEntries();
  }

  lemma OneListed(str: Value -> string)
    requires str(Float(Integral(1))) != str(Int(1))
    ensures var items := [Float(Integral(1))];
            Contains(items, Int(1)) && StrOf(str, Int(1)) !in Listed(str, items)
  {
    var items := [Float(Integral(1))];
    assert Equal(items[0], Int(1));
  }

  /** The failing input for stability: the number 5 alone is named once, then twice. */
  lemma NumberIsAppendedAgain(str: Value -> string)
    requires Spells(str)
    ensures var ms := [Member("policy", Str(REPUTATION_WEIGHTED)), Member("verifier_agent_id", Int(5))];
            && ApplyAvailableQuorum(str, ms).Some?
            && ApplyAvailableQuorum(str, ApplyAvailableQuorum(str, ms).value) != ApplyAvailableQuorum(str, ms)
  {
    var ms := [Member("policy", Str(REPUTATION_WEIGHTED)), Member("verifier_agent_id", Int(5))];
    assert ms[0].key != ms[1].key;
    GetAt(ms, 0);
    GetAt(ms, 1);
    GetFinds(ms, "verifiers");
    GetFinds(ms, "required_passes");
    assert Listed(str, []) == [];
    hide At, Put, TextList, Listed;
    DefaultingIsStableIff(str, ms, ApplyAvailableQuorum(str, ms).value);
  }

  // ------------------------------------------- accepted but not readable

  function ManyPasses(): seq<Member> {
    [
      Member("required", Bool(true)), Member("policy", Str(REQUESTER_SELECTS)), Member("verifier_agent_id", Str("v")),
      Member("required_passes", Str("many"))
    ]
  }

  /** Validation accepts a policy whose count `policy_hash` cannot read: it looks at the single verifier only. */
  lemma AcceptedButUnreadable(str: Value -> string, executor: string)
    requires executor != "v"
    ensures Validate(str, Obj(ManyPasses()), Str(executor)) == Valid && !PolicyReadable(Obj(ManyPasses()))
  {
    ManyPassesEntries();
    ManyIsNoInt();
    SingleStands(executor);
    RequesterName();
    hide ManyPasses, At, Equal, ValidateNamed, IntOf;
  }

  lemma ManyPassesEntries()
    ensures var ms := ManyPasses();
            && ms != [] && At(ms, "required") == Bool(true) && At(ms, "policy") == Str(REQUESTER_SELECTS)
            && At(ms, "verifier_agent_id") == Str("v") && At(ms, "required_passes") == Str("many")
  {
    var ms := ManyPasses();
    assert ms[0].key == "required" && ms[1].key == "policy" && ms[2].key == "verifier_agent_id" && ms[3].key == "required_passes";
    GetAt(ms, 0);
    GetAt(ms, 1);
    GetAt(ms, 2);
    GetAt(ms, 3);
  }

  lemma ManyIsNoInt()
    ensures IntOfValue(Str("many")) == None && Truthy(Str("many"))
  {
    StripNoSpaces("many");
  }

  lemma SingleStands(executor: string)
    requires executor != "v"
    ensures !Equal(Str("v"), Str(executor)) && Truthy(Str("v"))
  {
    EqualToText(Str("v"), executor);
  }

  lemma RequesterName()
    ensures Truthy(Str(REQUESTER_SELECTS)) && REQUESTER_SELECTS != MULTI_VERIFIER && REQUESTER_SELECTS != REPUTATION_WEIGHTED
    ensures REQUESTER_SELECTS != "MUTUAL_SELECTION" && REQUESTER_SELECTS != "NETWORK_RANDOM"
  {
    assert REQUESTER_SELECTS[0] == 'R' && REQUESTER_SELECTS[2] == 'Q';
    assert REPUTATION_WEIGHTED[2] == 'P' && MULTI_VERIFIER[0] == 'M' && "MUTUAL_SELECTION"[0] == 'M' && "NETWORK_RANDOM"[0] == 'N';
  }
}
