/**
 * When two policies give the same verdict on all receipts, and what the policy hash says
 * about it.
 */
module Verdicts {
  import opened Wrappers
  import opened Json
  import opened JsonText
  import opened Python
  import opened Quorum
  import opened Verifiers

  // ------------------------------------------------- receipts for some names

  /** Receipts from exactly these verifiers qualify those that are allowed. */
  lemma {:induction false} ReceiptsFrom(str: Value -> string, names: set<string>, t: Target) returns (receipts: seq<Receipt>)
    requires "" !in names
    ensures forall allowed: set<string> | allowed != {} :: Qualifying(str, allowed, receipts, t) == names * allowed
    ensures Qualifying(str, {}, receipts, t) == names
    decreases |names|
  {
    hide Counts;
    if names == {} {
      receipts := [];
    } else {
      var n :| n in names;
      var rest := ReceiptsFrom(str, names - {n}, t);
      var row := PassReceipt(n, t);
      receipts := rest + [row];
      forall allowed: set<string>
        ensures Qualifying(str, allowed, receipts, t) == if allowed == {} then names else names * allowed
      {
        QualifyingStep(str, allowed, rest, row, t);
        PassCounts(str, allowed, n, t);
      }
    }
  }

  lemma PassCounts(str: Value -> string, allowed: set<string>, n: string, t: Target)
    requires n != ""
    ensures VerifierOf(str, PassReceipt(n, t)) == n
    ensures Counts(str, allowed, PassReceipt(n, t), t) <==> allowed == {} || n in allowed
  {
    PassReceiptEntries(n, t);
    hide PassReceipt, About;
  }

  lemma {:induction false} PickWith(names: set<string>, x: string, n: nat) returns (picked: set<string>)
    requires x in names && 1 <= n <= |names|
    ensures picked <= names && x in picked && |picked| == n
    decreases |names|
  {
    if |names| == n {
      picked := names;
    } else {
      assert |names - {x}| >= 1;
      var y :| y in names - {x};
      picked := PickWith(names - {y}, x, n);
    }
  }

  /** A set with a quorum and a name of its own gets a quorum that the other set does not see. */
  lemma Split(str: Value -> string, a: set<string>, b: set<string>, x: string, n: nat, t: Target) returns (receipts: seq<Receipt>)
    requires "" !in a && a != {} && b != {} && x in a && x !in b && 1 <= n <= |a|
    ensures Met(n, Qualifying(str, a, receipts, t)) && !Met(n, Qualifying(str, b, receipts, t))
  {
    hide Qualifying;
    var picked := PickWith(a, x, n);
    receipts := ReceiptsFrom(str, picked, t);
    assert picked * a == picked;
    assert picked * b <= picked - {x};
    SubsetCount(picked * b, picked - {x});
  }

  lemma FewQualify(str: Value -> string, allowed: set<string>, receipts: seq<Receipt>, t: Target)
    requires allowed != {}
    ensures |Qualifying(str, allowed, receipts, t)| <= |allowed|
  {
    assert Qualifying(str, allowed, receipts, t) <= allowed;
    SubsetCount(Qualifying(str, allowed, receipts, t), allowed);
  }

  lemma Outsider(a: set<string>, b: set<string>)
    requires a != b && |a| >= |b|
    ensures exists x :: x in a && x !in b
  {
    if a <= b {
      SameIfAsMany(a, b);
    }
  }

  lemma SameIfAsMany(a: set<string>, b: set<string>)
    requires a <= b && |a| >= |b|
    ensures a == b
  {
    assert b == a + (b - a);
    assert |b| == |a| + |b - a|;
  }

  /**
   * Two sets of authorized verifiers decide alike on all receipts exactly when they are equal,
   * or neither has as many members as there must be passes.
   */
  lemma AlikeIff(str: Value -> string, a: set<string>, b: set<string>, n: nat, t: Target)
    requires a != {} && b != {} && "" !in a && "" !in b && n >= 1
    ensures (forall rs :: Met(n, Qualifying(str, a, rs, t)) == Met(n, Qualifying(str, b, rs, t))) <==>
            a == b || (|a| < n && |b| < n)
  {
    hide Qualifying;
    if |a| < n && |b| < n {
      forall rs
        ensures Met(n, Qualifying(str, a, rs, t)) == Met(n, Qualifying(str, b, rs, t))
      {
        FewQualify(str, a, rs, t);
        FewQualify(str, b, rs, t);
      }
    } else if a != b {
      if |a| >= |b| {
        Outsider(a, b);
        var x :| x in a && x !in b;
        var rs := Split(str, a, b, x, n, t);
      } else {
        Outsider(b, a);
        var x :| x in b && x !in a;
        var rs := Split(str, b, a, x, n, t);
      }
    }
  }

  // ------------------------------------------------- policies with one hash

  lemma NoneNamedTogether(str: Value -> string, xs: seq<Value>, ys: seq<Value>)
    requires Same(Arr(xs), Arr(ys))
    ensures Names(str, xs) == {} <==> Names(str, ys) == {}
  {
    NobodyNamed(str, xs);
    NobodyNamed(str, ys);
    forall i | 0 <= i < |xs|
      ensures Truthy(xs[i]) == Truthy(ys[i])
    {
      SameTruth(xs[i], ys[i]);
    }
  }

  lemma NobodyNamed(str: Value -> string, xs: seq<Value>)
    ensures Names(str, xs) == {} <==> forall i | 0 <= i < |xs| :: !Truthy(xs[i])
  {
    if i :| 0 <= i < |xs| && Truthy(xs[i]) {
      assert StrOf(str, xs[i]) in Names(str, xs);
    }
  }

  lemma NamesSpelled(str: Value -> string, xs: seq<Value>)
    requires Spells(str)
    ensures "" !in Names(str, xs)
  {
  }

  /** Policies that are both required, or both not. */
  lemma VerdictsAlikeIff(str: Value -> string, p: Policy, q: Policy, t: Target)
    requires Spells(str) && p.required == q.required && p.passes == q.passes && Same(Arr(p.verifiers), Arr(q.verifiers))
    ensures var a, b := Names(str, p.verifiers), Names(str, q.verifiers);
            (forall rs :: Met(Passes(p), Qualifying(str, a, rs, t)) == Met(Passes(q), Qualifying(str, b, rs, t))) <==>
            !p.required || a == b || (|a| < Passes(p) && |b| < Passes(p))
  {
    hide Names, Qualifying;
    var a, b := Names(str, p.verifiers), Names(str, q.verifiers);
    NamesSpelled(str, p.verifiers);
    NamesSpelled(str, q.verifiers);
    NoneNamedTogether(str, p.verifiers, q.verifiers);
    if p.required && a != {} {
      AlikeIff(str, a, b, Passes(p), t);
    }
  }

  /**
   * Policies with one hash decide alike on all receipts exactly when they are not required, or
   * they authorize the same verifiers, or neither authorizes as many as it asks for.
   */
  lemma HashFixesDecisionIff(str: Value -> string, v: Value, w: Value, ff: FloatFormat, t: Target)
    requires Spells(str) && Faithful(ff) && Fine(v) && Fine(w)
    requires PolicyHash(v, ff).Some? && PolicyHash(v, ff) == PolicyHash(w, ff)
    ensures CanonicalPolicy(v).Some? && CanonicalPolicy(w).Some?
    ensures AuthorizedVerifiers(str, v).Some? && AuthorizedVerifiers(str, w).Some?
    ensures var p := CanonicalPolicy(v).value;
            var a, b := AuthorizedVerifiers(str, v).value, AuthorizedVerifiers(str, w).value;
            (forall rs :: QuorumMet(str, v, rs, t) == QuorumMet(str, w, rs, t)) <==>
            !p.required || a == b || (|a| < Passes(p) && |b| < Passes(p))
  {
    hide WellFormed, FiniteNumbers, PolicyDict, Qualifying, Same, Names, RequiredPolicy, Required, Spells, Met, Passes;
    var p, q := CanonicalPolicy(v).value, CanonicalPolicy(w).value;
    HashMeansSamePolicy(v, w, ff, p, q);
    SamePolicyDicts(p, q);
    VerdictsAlikeIff(str, p, q, t);
    VerdictsTransfer(str, v, w, p, q, t);
  }

  lemma VerdictsTransfer(str: Value -> string, v: Value, w: Value, p: Policy, q: Policy, t: Target)
    requires CanonicalPolicy(v) == Some(p) && CanonicalPolicy(w) == Some(q)
    ensures var a, b := Names(str, p.verifiers), Names(str, q.verifiers);
            (forall rs :: QuorumMet(str, v, rs, t) == QuorumMet(str, w, rs, t)) <==>
            (forall rs :: Met(Passes(p), Qualifying(str, a, rs, t)) == Met(Passes(q), Qualifying(str, b, rs, t)))
  {
    hide CanonicalPolicy, Qualifying, Names, Met, Passes;
    var a, b := Names(str, p.verifiers), Names(str, q.verifiers);
    if forall rs :: QuorumMet(str, v, rs, t) == QuorumMet(str, w, rs, t) {
      forall rs
        ensures Met(Passes(p), Qualifying(str, a, rs, t)) == Met(Passes(q), Qualifying(str, b, rs, t))
      {
        assert QuorumMet(str, v, rs, t) == QuorumMet(str, w, rs, t);
      }
    }
    if forall rs :: Met(Passes(p), Qualifying(str, a, rs, t)) == Met(Passes(q), Qualifying(str, b, rs, t)) {
      forall rs
        ensures QuorumMet(str, v, rs, t) == QuorumMet(str, w, rs, t)
      {
        assert Met(Passes(p), Qualifying(str, a, rs, t)) == Met(Passes(q), Qualifying(str, b, rs, t));
      }
    }
  }
}
