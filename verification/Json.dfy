/**
 * JSON values as the Python code holds them: an object is a `dict`, so its members
 * have an order, and a number is an `int` or a binary64 float, two different types.
 */
module Json {
  import opened Wrappers
  import opened Text

  /**
   * A binary64 value, written exactly: an integral float by its integer, any other
   * finite float by an odd numerator over a power of two.
   */
  datatype Double =
    | Integral(i: int)
    | Fraction(numerator: int, k: nat)
    | NegativeZero
    | Infinite(negative: bool)
    | NotANumber

  datatype Member = Member(key: string, value: Value)

  datatype Value =
    | Null
    | Bool(b: bool)
    | Int(n: int)
    | Float(d: Double)
    | Str(s: string)
    | Arr(items: seq<Value>)
    | Obj(members: seq<Member>)

  const TWO_53: int := 0x20_0000_0000_0000

  function Pow2(e: nat): (p: nat)
    ensures p > 0
  {
    if e == 0 then 1 else 2 * Pow2(e - 1)
  }

  function Abs(n: int): nat {
    if n < 0 then -n else n
  }

  /** Section 3.6 of IEEE 754-2019: 53 significant bits, exponents from -1074 to 971. */
  ghost predicate IsDouble(d: Double) {
    match d
    case Integral(i) => exists m: int, e: nat :: IsScaled(i, m, e)
    case Fraction(n, k) => n % 2 == 1 && Abs(n) < TWO_53 && 1 <= k <= 1074
    case _ => true
  }

  predicate IsScaled(i: int, m: int, e: nat) {
    Abs(m) < TWO_53 && e <= 971 && i == m * Pow2(e)
  }

  ghost predicate DistinctKeys(ms: seq<Member>) {
    forall i, j | 0 <= i < j < |ms| :: ms[i].key != ms[j].key
  }

  /** What every Python value satisfies by construction: dict keys are unique, floats are binary64. */
  ghost predicate WellFormed(v: Value) {
    match v
    case Float(d) => IsDouble(d)
    case Arr(items) => forall i | 0 <= i < |items| :: WellFormed(items[i])
    case Obj(ms) => DistinctKeys(ms) && forall i | 0 <= i < |ms| :: WellFormed(ms[i].value)
    case _ => true
  }

  ghost predicate HasKey(ms: seq<Member>, key: string) {
    exists i | 0 <= i < |ms| :: ms[i].key == key
  }

  /** `dict.get`. */
  function Get(ms: seq<Member>, key: string): Option<Value> {
    if ms == [] then None
    else if ms[0].key == key then Some(ms[0].value)
    else Get(ms[1..], key)
  }

  /** `d[key] = value`: in place when the key is there, at the end otherwise. */
  function Put(ms: seq<Member>, key: string, value: Value): seq<Member> {
    if ms == [] then [Member(key, value)]
    else if ms[0].key == key then [Member(key, value)] + ms[1..]
    else [ms[0]] + Put(ms[1..], key, value)
  }

  lemma {:induction false} GetFinds(ms: seq<Member>, key: string)
    ensures Get(ms, key).Some? <==> HasKey(ms, key)
    ensures Get(ms, key).Some? ==> exists i | 0 <= i < |ms| :: ms[i] == Member(key, Get(ms, key).value)
  {
    if ms != [] && ms[0].key != key {
      GetFinds(ms[1..], key);
      assert forall i | 0 < i < |ms| :: ms[i] == ms[1..][i - 1];
      assert forall i | 0 <= i < |ms[1..]| :: ms[1..][i] == ms[i + 1];
    } else if ms != [] {
      assert ms[0] == Member(key, Get(ms, key).value);
    }
  }

  lemma GetAt(ms: seq<Member>, i: nat)
    requires DistinctKeys(ms) && i < |ms|
    ensures Get(ms, ms[i].key) == Some(ms[i].value)
  {
    GetFinds(ms, ms[i].key);
  }

  /** Equality up to key order at every depth; Python's `==` on dicts, but keeping int and float apart. */
  ghost predicate Same(a: Value, b: Value)
    decreases a
  {
    match a
    case Arr(xs) =>
      b.Arr? && |xs| == |b.items| && forall i | 0 <= i < |xs| :: Same(xs[i], b.items[i])
    case Obj(ms) =>
      b.Obj? && SameKeys(ms, b.members) &&
      forall i, j | 0 <= i < |ms| && 0 <= j < |b.members| && ms[i].key == b.members[j].key ::
        Same(ms[i].value, b.members[j].value)
    case _ => a == b
  }

  ghost predicate SameKeys(ms: seq<Member>, ns: seq<Member>) {
    && (forall i | 0 <= i < |ms| :: HasKey(ns, ms[i].key))
    && (forall j | 0 <= j < |ns| :: HasKey(ms, ns[j].key))
  }

  // -------------------------------------------------------------- sort_keys

  function Insert(m: Member, ms: seq<Member>): seq<Member> {
    if ms == [] || !Less(ms[0].key, m.key) then [m] + ms
    else [ms[0]] + Insert(m, ms[1..])
  }

  function SortMembers(ms: seq<Member>): seq<Member> {
    if ms == [] then [] else Insert(ms[0], SortMembers(ms[1..]))
  }

  /** `sort_keys=True`: every object's members in code-point order of their keys. */
  function SortKeys(v: Value): Value {
    match v
    case Arr(items) => Arr(seq(|items|, i requires 0 <= i < |items| => SortKeys(items[i])))
    case Obj(ms) => Obj(SortMembers(SortValues(ms)))
    case _ => v
  }

  function SortValues(ms: seq<Member>): (r: seq<Member>)
    ensures |r| == |ms|
    ensures forall i | 0 <= i < |ms| :: r[i] == Member(ms[i].key, SortKeys(ms[i].value))
  {
    seq(|ms|, i requires 0 <= i < |ms| => Member(ms[i].key, SortKeys(ms[i].value)))
  }

  ghost predicate Ascending(ms: seq<Member>) {
    forall i, j | 0 <= i < j < |ms| :: Less(ms[i].key, ms[j].key)
  }

  lemma {:induction false} InsertAdds(m: Member, ms: seq<Member>)
    ensures multiset(Insert(m, ms)) == multiset(ms) + multiset{m}
  {
    if ms != [] && Less(ms[0].key, m.key) {
      InsertAdds(m, ms[1..]);
      assert ms == [ms[0]] + ms[1..];
    }
  }

  lemma {:induction false} InsertAscending(m: Member, ms: seq<Member>)
    requires Ascending(ms) && !HasKey(ms, m.key)
    ensures Ascending(Insert(m, ms))
  {
    if ms == [] {
    } else if !Less(ms[0].key, m.key) {
      LessTotal(ms[0].key, m.key);
      forall j | 0 < j < |ms|
        ensures Less(m.key, ms[j].key)
      {
        LessTransitive(m.key, ms[0].key, ms[j].key);
      }
    } else {
      var tail := ms[1..];
      InsertAscending(m, tail);
      InsertAdds(m, tail);
      forall n | n in Insert(m, tail)
        ensures Less(ms[0].key, n.key)
      {
        assert n in multiset(Insert(m, tail));
        assert n == m || n in tail;
      }
    }
  }

  lemma {:induction false} SortMembersKeeps(ms: seq<Member>)
    ensures multiset(SortMembers(ms)) == multiset(ms)
  {
    if ms != [] {
      SortMembersKeeps(ms[1..]);
      InsertAdds(ms[0], SortMembers(ms[1..]));
      assert ms == [ms[0]] + ms[1..];
    }
  }

  lemma SortMembersSameElements(ms: seq<Member>)
    ensures forall m :: m in SortMembers(ms) <==> m in ms
  {
    SortMembersKeeps(ms);
    assert forall m :: m in SortMembers(ms) <==> m in multiset(SortMembers(ms));
  }

  lemma {:induction false} SortMembersAscending(ms: seq<Member>)
    requires DistinctKeys(ms)
    ensures Ascending(SortMembers(ms))
  {
    if ms != [] {
      var tail := SortMembers(ms[1..]);
      assert forall i | 0 <= i < |ms[1..]| :: ms[1..][i] == ms[i + 1];
      SortMembersAscending(ms[1..]);
      SortMembersSameElements(ms[1..]);
      forall i | 0 <= i < |tail|
        ensures tail[i].key != ms[0].key
      {
        assert tail[i] in ms[1..];
      }
      InsertAscending(ms[0], tail);
    }
  }

  /** Two ascending member lists with the same elements are the same list. */
  lemma {:induction false} AscendingUnique(ms: seq<Member>, ns: seq<Member>)
    requires Ascending(ms) && Ascending(ns)
    requires forall m :: m in ms <==> m in ns
    ensures ms == ns
    decreases |ms|
  {
    if ms == [] {
      Inhabited(ns);
    } else {
      assert ms[0] in ns;
      assert ns != [] && ns[0] in ms;
      var i :| 0 <= i < |ms| && ms[i] == ns[0];
      var j :| 0 <= j < |ns| && ns[j] == ms[0];
      if i > 0 && j > 0 {
        LessTransitive(ms[0].key, ms[i].key, ms[0].key);
      }
      LessIrreflexive(ms[0].key);
      assert ms[0] == ns[0];
      forall m
        ensures m in ms[1..] <==> m in ns[1..]
      {
        TailMembership(ms, m);
        TailMembership(ns, m);
      }
      AscendingUnique(ms[1..], ns[1..]);
      assert ms == [ms[0]] + ms[1..] && ns == [ns[0]] + ns[1..];
    }
  }

  lemma Inhabited(ms: seq<Member>)
    ensures ms != [] ==> exists m :: m in ms
  {
    if ms != [] {
      assert ms[0] in ms;
    }
  }

  lemma TailMembership(ms: seq<Member>, m: Member)
    requires Ascending(ms) && ms != []
    ensures m in ms[1..] <==> m in ms && m != ms[0]
  {
    LessIrreflexive(ms[0].key);
    assert ms == [ms[0]] + ms[1..];
  }

  // ------------------------------------------- sorting decides sameness

  /** Members agree key by key exactly when their sorted forms list the same members. */
  lemma SameElementsIff(ms: seq<Member>, ns: seq<Member>)
    requires DistinctKeys(ms) && DistinctKeys(ns)
    ensures SortMembers(ms) == SortMembers(ns) <==> forall m :: m in ms <==> m in ns
  {
    hide SortMembers;
    SortMembersAscending(ms);
    SortMembersAscending(ns);
    SortMembersSameElements(ms);
    SortMembersSameElements(ns);
    if forall m :: m in ms <==> m in ns {
      AscendingUnique(SortMembers(ms), SortMembers(ns));
    }
  }

  /** Equal up to key order is the same as equal once every object is sorted. */
  lemma {:induction false} SortKeysDecidesSame(a: Value, b: Value)
    requires WellFormed(a) && WellFormed(b)
    ensures Same(a, b) <==> SortKeys(a) == SortKeys(b)
    decreases a
  {
    match a
    case Arr(xs) =>
      if b.Arr? && |xs| == |b.items| {
        forall i | 0 <= i < |xs|
          ensures Same(xs[i], b.items[i]) <==> SortKeys(xs[i]) == SortKeys(b.items[i])
        {
          SortKeysDecidesSame(xs[i], b.items[i]);
        }
        var p, q := SortKeys(a).items, SortKeys(b).items;
        assert forall i | 0 <= i < |xs| :: p[i] == SortKeys(xs[i]) && q[i] == SortKeys(b.items[i]);
        assert p == q <==> forall i | 0 <= i < |xs| :: p[i] == q[i];
      } else if b.Arr? {
        assert |SortKeys(a).items| != |SortKeys(b).items|;
      }
    case Obj(ms) =>
      if b.Obj? {
        forall i, j | 0 <= i < |ms| && 0 <= j < |b.members| && ms[i].key == b.members[j].key
          ensures Same(ms[i].value, b.members[j].value) <==> SortKeys(ms[i].value) == SortKeys(b.members[j].value)
        {
          SortKeysDecidesSame(ms[i].value, b.members[j].value);
        }
        SameElementsIff(SortValues(ms), SortValues(b.members));
        SortValuesAgree(ms, b.members);
      }
    case _ =>
  }

  /** Sorted values list the same members exactly when keys and sorted values agree. */
  lemma SortValuesAgree(ms: seq<Member>, ns: seq<Member>)
    requires DistinctKeys(ms) && DistinctKeys(ns)
    ensures (forall m :: m in SortValues(ms) <==> m in SortValues(ns)) <==>
            SameKeys(ms, ns) &&
            forall i, j | 0 <= i < |ms| && 0 <= j < |ns| && ms[i].key == ns[j].key ::
              SortKeys(ms[i].value) == SortKeys(ns[j].value)
  {
    var p, q := SortValues(ms), SortValues(ns);
    if forall m :: m in p <==> m in q {
      SortedKeysIncluded(ms, ns);
      SortedKeysIncluded(ns, ms);
    } else if SameKeys(ms, ns) &&
              forall i, j | 0 <= i < |ms| && 0 <= j < |ns| && ms[i].key == ns[j].key ::
                SortKeys(ms[i].value) == SortKeys(ns[j].value) {
      SortedElementsIncluded(ms, ns);
      SortedElementsIncluded(ns, ms);
    }
  }

  lemma SortedKeysIncluded(ms: seq<Member>, ns: seq<Member>)
    requires DistinctKeys(ns)
    requires forall m | m in SortValues(ms) :: m in SortValues(ns)
    ensures forall i | 0 <= i < |ms| :: HasKey(ns, ms[i].key)
    ensures forall i, j | 0 <= i < |ms| && 0 <= j < |ns| && ms[i].key == ns[j].key ::
              SortKeys(ms[i].value) == SortKeys(ns[j].value)
  {
    forall i | 0 <= i < |ms|
      ensures HasKey(ns, ms[i].key)
    {
      var j := SortedPartner(ms, ns, i);
    }
    forall i, k | 0 <= i < |ms| && 0 <= k < |ns| && ms[i].key == ns[k].key
      ensures SortKeys(ms[i].value) == SortKeys(ns[k].value)
    {
      var j := SortedPartner(ms, ns, i);
    }
  }

  lemma SortedPartner(ms: seq<Member>, ns: seq<Member>, i: nat) returns (j: nat)
    requires i < |ms| && forall m | m in SortValues(ms) :: m in SortValues(ns)
    ensures j < |ns| && ns[j].key == ms[i].key && SortKeys(ns[j].value) == SortKeys(ms[i].value)
  {
    hide SortKeys;
    var q := SortValues(ns);
    assert SortValues(ms)[i] in SortValues(ms);
    j :| 0 <= j < |q| && q[j] == SortValues(ms)[i];
  }

  lemma SortedElementsIncluded(ms: seq<Member>, ns: seq<Member>)
    requires forall i | 0 <= i < |ms| :: HasKey(ns, ms[i].key)
    requires forall i, j | 0 <= i < |ms| && 0 <= j < |ns| && ms[i].key == ns[j].key ::
               SortKeys(ms[i].value) == SortKeys(ns[j].value)
    ensures forall m | m in SortValues(ms) :: m in SortValues(ns)
  {
    hide SortValues, SortKeys;
    var p, q := SortValues(ms), SortValues(ns);
    forall m | m in p
      ensures m in q
    {
      var i :| 0 <= i < |p| && p[i] == m;
      assert HasKey(ns, ms[i].key);
      var j :| 0 <= j < |ns| && ns[j].key == ms[i].key;
      assert q[j] == m;
    }
  }

  // ------------------------------------- consequences: an equivalence

  lemma SameReflexive(a: Value)
    requires WellFormed(a)
    ensures Same(a, a)
  {
    SortKeysDecidesSame(a, a);
  }

  lemma SameSymmetric(a: Value, b: Value)
    requires WellFormed(a) && WellFormed(b) && Same(a, b)
    ensures Same(b, a)
  {
    SortKeysDecidesSame(a, b);
    SortKeysDecidesSame(b, a);
  }

  /** Mapping the values leaves the key sets as they were. */
  lemma RenamedKeys(ms: seq<Member>, ns: seq<Member>, rs: seq<Member>, ts: seq<Member>)
    requires SameKeys(ms, ns) && |rs| == |ms| && |ts| == |ns|
    requires forall i | 0 <= i < |ms| :: rs[i].key == ms[i].key
    requires forall j | 0 <= j < |ns| :: ts[j].key == ns[j].key
    ensures SameKeys(rs, ts)
  {
    forall i | 0 <= i < |rs|
      ensures HasKey(ts, rs[i].key)
    {
      assert HasKey(ns, ms[i].key);
      var j :| 0 <= j < |ns| && ns[j].key == ms[i].key;
      assert ts[j].key == rs[i].key;
    }
    forall j | 0 <= j < |ts|
      ensures HasKey(rs, ts[j].key)
    {
      assert HasKey(ms, ns[j].key);
      var i :| 0 <= i < |ms| && ms[i].key == ns[j].key;
      assert rs[i].key == ts[j].key;
    }
  }

  /** What `get` finds in a reordered copy of a dict. */
  lemma GetFromSame(ms: seq<Member>, ns: seq<Member>, i: nat)
    requires WellFormed(Obj(ns)) && Same(Obj(ms), Obj(ns)) && i < |ms|
    ensures Get(ns, ms[i].key).Some?
    ensures WellFormed(Get(ns, ms[i].key).value) && Same(ms[i].value, Get(ns, ms[i].key).value)
  {
    assert HasKey(ns, ms[i].key);
    GetFinds(ns, ms[i].key);
    var j :| 0 <= j < |ns| && ns[j] == Member(ms[i].key, Get(ns, ms[i].key).value);
    assert Same(ms[i].value, ns[j].value);
  }
}
