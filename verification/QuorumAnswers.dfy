/**
 * What validation and the quorum check answer, in terms of the entries of the policy dict.
 */
module QuorumAnswers {
  import opened Wrappers
  import opened Json
  import opened Python
  import opened Quorum
  import opened Verifiers

  // ------------------------------------------------------------- the quorum

  /** The count that a required policy asks for: its own, but at least one; 1 when there is none. */
  lemma PassCountMeans(v: Value)
    ensures !Truthy(v) || (v.Obj? && !Truthy(At(v.members, "required"))) ==> RequiredPassCount(v) == Some(0)
    ensures RequiredPassCount(v).Some? && v.Obj? && Truthy(At(v.members, "required")) ==>
              var count := At(v.members, "required_passes");
              && RequiredPassCount(v).value >= 1
              && (!Truthy(count) ==> RequiredPassCount(v).value == 1)
              && (Truthy(count) ==> IntOfValue(count).Some? && RequiredPassCount(v).value >= IntOfValue(count).value)
              && (Truthy(count) && IntOfValue(count).value >= 1 ==> RequiredPassCount(v).value == IntOfValue(count).value)
              && (Truthy(count) && IntOfValue(count).value < 1 ==> RequiredPassCount(v).value == 1)
  {
    if v == Obj([]) {
      NoRequiredKey();
    }
  }

  /** The dict that is hashed, entry by entry. */
  lemma CanonicalMeans(v: Value, p: Policy)
    requires CanonicalPolicy(v) == Some(p)
    ensures PolicyDict(p).Obj?
    ensures var ms := PolicyDict(p).members;
            && (!Truthy(v) || (v.Obj? && !Truthy(At(v.members, "required"))) ==>
                  && At(ms, "policy") == Str("NONE") && At(ms, "required") == Bool(false)
                  && At(ms, "verifiers") == Arr([]) && At(ms, "required_passes") == Int(0) && At(ms, "acceptance") == Arr([]))
            && (v.Obj? && Truthy(At(v.members, "required")) ==>
                  && At(ms, "required") == Bool(true)
                  && At(ms, "policy") == (if Truthy(At(v.members, "policy")) then At(v.members, "policy") else Str("REQUESTER_SELECTS"))
                  && Some(At(ms, "acceptance")) == ListOf(At(v.members, "acceptance"))
                  && (!Truthy(At(v.members, "verifier_agent_id")) ==>
                        Some(At(ms, "verifiers")) == ListOf(At(v.members, "verifiers")))
                  && Some(At(ms, "required_passes")) ==
                     if !Truthy(At(v.members, "required_passes")) then Some(Int(1))
                     else match IntOfValue(At(v.members, "required_passes")) case Some(n) => Some(Int(n)) case None => None)
  {
    DictEntries(p);
    NoRequiredKey();
    hide PolicyDict, At, Items, Contains;
  }

  lemma NoRequiredKey()
    ensures At([], "required") == Null
  {
  }

  /** Who may verify: the listed ones, and the single one unless the list holds an equal value. */
  lemma AuthorizedMeans(str: Value -> string, v: Value)
    requires AuthorizedVerifiers(str, v).Some?
    ensures !Truthy(v) || (v.Obj? && !Truthy(At(v.members, "required"))) ==> AuthorizedVerifiers(str, v).value == {}
    ensures v.Obj? && Truthy(At(v.members, "required")) ==>
              && Items(At(v.members, "verifiers")).Some?
              && var items, single := Items(At(v.members, "verifiers")).value, At(v.members, "verifier_agent_id");
                 forall n :: n in AuthorizedVerifiers(str, v).value <==>
                   || (exists i | 0 <= i < |items| :: Truthy(items[i]) && StrOf(str, items[i]) == n)
                   || (Truthy(single) && !Contains(items, single) && StrOf(str, single) == n)
  {
    if v == Obj([]) {
      NoRequiredKey();
    }
    if v.Obj? && Truthy(At(v.members, "required")) {
      var items, single := Items(At(v.members, "verifiers")).value, At(v.members, "verifier_agent_id");
      hide At, Contains, Items;
      if Truthy(single) {
        TextsOfAppended(str, items, single);
      }
    }
  }

  /**
   * A policy that is not required is met without receipts. A required one is met exactly when
   * there are as many qualifying verifiers as it asks for; with no receipt it never is.
   */
  lemma QuorumMeans(str: Value -> string, v: Value, receipts: seq<Receipt>, t: Target)
    ensures !Truthy(v) || (v.Obj? && !Truthy(At(v.members, "required"))) ==> QuorumMet(str, v, receipts, t) == Some(true)
    ensures v.Obj? && Truthy(At(v.members, "required")) && RequiredPassCount(v).Some? ==>
              && AuthorizedVerifiers(str, v).Some?
              && QuorumMet(str, v, receipts, t) ==
                 Some(|Qualifying(str, AuthorizedVerifiers(str, v).value, receipts, t)| >= RequiredPassCount(v).value)
    ensures v.Obj? && Truthy(At(v.members, "required")) && RequiredPassCount(v).Some? ==>
              QuorumMet(str, v, [], t) == Some(false)
  {
    PassCountMeans(v);
    hide At, Names;
    if CanonicalPolicy(v).Some? {
      assert Qualifying(str, Names(str, CanonicalPolicy(v).value.verifiers), [], t) == {};
    }
  }

  // ------------------------------------------------------------- validation

  /** The policy is REQUESTER_SELECTS, by name or because none is named. */
  predicate Selects(ms: seq<Member>) {
    !Truthy(At(ms, "policy")) || At(ms, "policy") == Str("REQUESTER_SELECTS")
  }

  lemma PolicyTexts()
    ensures Truthy(Str("REQUESTER_SELECTS")) && Truthy(Str("MULTI_VERIFIER")) && Truthy(Str("REPUTATION_WEIGHTED"))
    ensures "MULTI_VERIFIER" != "REPUTATION_WEIGHTED" && "MULTI_VERIFIER" != "REQUESTER_SELECTS"
    ensures "REPUTATION_WEIGHTED" != "REQUESTER_SELECTS"
    ensures "MUTUAL_SELECTION" != "MULTI_VERIFIER" && "MUTUAL_SELECTION" != "REPUTATION_WEIGHTED"
    ensures "MUTUAL_SELECTION" != "REQUESTER_SELECTS" && "NETWORK_RANDOM" != "MULTI_VERIFIER"
    ensures "NETWORK_RANDOM" != "REPUTATION_WEIGHTED" && "NETWORK_RANDOM" != "REQUESTER_SELECTS"
  {
    assert "MULTI_VERIFIER"[0] == 'M' && "REPUTATION_WEIGHTED"[0] == 'R' && "REQUESTER_SELECTS"[0] == 'R';
    assert "REPUTATION_WEIGHTED"[2] == 'P' && "REQUESTER_SELECTS"[2] == 'Q' && "NETWORK_RANDOM"[0] == 'N';
    assert "MUTUAL_SELECTION"[0] == 'M' && "MUTUAL_SELECTION"[2] == 'T' && "MULTI_VERIFIER"[2] == 'L';
  }

  /** Without a required policy nothing is checked; a true value that is no dict raises. */
  lemma UnrequiredIsValid(str: Value -> string, v: Value, executor: Value)
    ensures !Truthy(v) || (v.Obj? && !Truthy(At(v.members, "required"))) ==> Validate(str, v, executor) == Valid
    ensures Truthy(v) && !v.Obj? ==> Validate(str, v, executor) == Raised
    ensures v.Obj? && Truthy(At(v.members, "required")) ==> Validate(str, v, executor) == ValidateRequired(str, v.members, executor)
  {
    if v == Obj([]) {
      NoRequiredKey();
    }
    hide ValidateRequired;
  }

  /** With REQUESTER_SELECTS one verifier has to be named, and not the executor. */
  lemma SelectsMeans(str: Value -> string, ms: seq<Member>, executor: string)
    requires Selects(ms)
    ensures var single := At(ms, "verifier_agent_id");
            ValidateRequired(str, ms, Str(executor)) ==
            if !Truthy(single) then NoVerifier else if single == Str(executor) then SelfVerification else Valid
  {
    PolicyTexts();
    EqualToText(At(ms, "verifier_agent_id"), executor);
    hide At, Equal, ValidateNamed;
  }

  /** Reserved policies are named as unsupported, and other names than the three allowed are invalid. */
  lemma OtherPoliciesMean(str: Value -> string, ms: seq<Member>, executor: Value)
    requires !Selects(ms) && At(ms, "policy") != Str("MULTI_VERIFIER") && At(ms, "policy") != Str("REPUTATION_WEIGHTED")
    ensures var policy := At(ms, "policy");
            ValidateRequired(str, ms, executor) ==
            if policy.Arr? || policy.Obj? then Raised
            else if policy == Str("MUTUAL_SELECTION") || policy == Str("NETWORK_RANDOM") then UnsupportedPolicy
            else InvalidRequest
  {
    hide At, Equal, ValidateNamed;
  }

  /**
   * MULTI_VERIFIER and REPUTATION_WEIGHTED are valid exactly when the executor is not named,
   * and the count lies between the minimum and the number of names: 2 for MULTI_VERIFIER,
   * whose count has to be given, and 1 for REPUTATION_WEIGHTED, whose count may be left out.
   */
  lemma NamedPoliciesMean(str: Value -> string, ms: seq<Member>, executor: string, names: seq<string>)
    requires NamedVerifiers(str, ms) == Some(names)
    ensures At(ms, "policy") == Str("MULTI_VERIFIER") ==>
              (ValidateRequired(str, ms, Str(executor)) == Valid <==>
               && executor !in names && Truthy(At(ms, "required_passes"))
               && IntOfValue(At(ms, "required_passes")).Some?
               && 2 <= IntOfValue(At(ms, "required_passes")).value <= |names|)
    ensures At(ms, "policy") == Str("REPUTATION_WEIGHTED") ==>
              (ValidateRequired(str, ms, Str(executor)) == Valid <==>
               && executor !in names && names != []
               && (At(ms, "required_passes").Null?
                   || (IntOfValue(At(ms, "required_passes")).Some?
                       && 1 <= IntOfValue(At(ms, "required_passes")).value <= |names|)))
    ensures At(ms, "policy") == Str("MULTI_VERIFIER") || At(ms, "policy") == Str("REPUTATION_WEIGHTED") ==>
              && (ValidateRequired(str, ms, Str(executor)) == SelfVerification <==> executor in names)
              && (ValidateRequired(str, ms, Str(executor)) == TooFewVerifiers <==>
                  executor !in names && |names| < if At(ms, "policy") == Str("MULTI_VERIFIER") then 2 else 1)
  {
    PolicyTexts();
    var policy := At(ms, "policy");
    if policy == Str("MULTI_VERIFIER") || policy == Str("REPUTATION_WEIGHTED") {
      NamedPath(str, ms, Str(executor));
    }
    hide At, ValidateRequired, NamedVerifiers;
  }

  /** Who is named: the texts of the true listed values, and the single one's unless it is a listed text. */
  lemma NamedMeans(str: Value -> string, ms: seq<Member>, names: seq<string>)
    requires NamedVerifiers(str, ms) == Some(names)
    ensures Items(At(ms, "verifiers")).Some?
    ensures var items, single := Items(At(ms, "verifiers")).value, At(ms, "verifier_agent_id");
            forall n :: n in names <==>
              || (exists i | 0 <= i < |items| :: Truthy(items[i]) && StrOf(str, items[i]) == n)
              || (Truthy(single) && StrOf(str, single) == n)
  {
  }

  // -------------------------------------------------------------- defaulting

  /**
   * Only REPUTATION_WEIGHTED policies are filled in: the names, in text, become the list, an
   * explicit count stays the int it is read as, and a missing one becomes 2, or 1 for a single
   * name. No other entry changes.
   */
  lemma DefaultingMeans(str: Value -> string, ms: seq<Member>, out: seq<Member>)
    requires ApplyAvailableQuorum(str, ms) == Some(out)
    ensures At(ms, "policy") != Str("REPUTATION_WEIGHTED") ==> out == ms
    ensures At(ms, "policy") == Str("REPUTATION_WEIGHTED") ==>
              && NamedVerifiers(str, ms).Some?
              && var names, explicit := NamedVerifiers(str, ms).value, At(ms, "required_passes");
                 && At(out, "verifiers").Arr? && |At(out, "verifiers").items| == |names|
                 && (forall i | 0 <= i < |names| :: At(out, "verifiers").items[i] == Str(names[i]))
                 && (explicit.Null? ==> At(out, "required_passes") == Int(if |names| < 2 then 1 else 2))
                 && (!explicit.Null? ==>
                       IntOfValue(explicit).Some? && At(out, "required_passes") == Int(IntOfValue(explicit).value))
                 && forall key | key != "verifiers" && key != "required_passes" :: At(out, key) == At(ms, key)
  {
    if At(ms, "policy") == Str("REPUTATION_WEIGHTED") {
      DefaultedEntries(str, ms, out);
    }
    hide ApplyAvailableQuorum, NamedVerifiers, At;
  }
}
