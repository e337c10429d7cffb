/**
 * What Python does with JSON values: truth, `str`, `int`, `list`, `dict`, `==` and `in`.
 * `str` of a value that is not a string is foreign and enters as a function.
 */
module Python {
  import opened Wrappers
  import opened Text
  import opened Json
  import opened JsonText

  /** The foreign functions that a process uses: float printing, and `str` of a value that is not a string. */
  datatype World = World(ff: FloatFormat, str: Value -> string)

  predicate Truthy(v: Value) {
    match v
    case Null => false
    case Bool(b) => b
    case Int(n) => n != 0
    case Float(d) => d != Integral(0) && d != NegativeZero
    case Str(s) => s != ""
    case Arr(items) => items != []
    case Obj(ms) => ms != []
  }

  /** `d.get(key)`. */
  function At(ms: seq<Member>, key: string): Value {
    Get(ms, key).GetOr(Null)
  }

  /** `a or b`. */
  function OrElse(a: Value, b: Value): Value {
    if Truthy(a) then a else b
  }

  function StrOf(str: Value -> string, v: Value): string {
    if v.Str? then v.s else str(v)
  }

  /** `int(v)`; None is a ValueError, TypeError or OverflowError. */
  function IntOfValue(v: Value): Option<int> {
    match v
    case Bool(b) => Some(if b then 1 else 0)
    case Int(n) => Some(n)
    case Float(Integral(i)) => Some(i)
    case Float(NegativeZero) => Some(0)
    case Float(Fraction(m, k)) => Some(if m >= 0 then m / Pow2(k) else -(-m / Pow2(k)))
    case Str(s) => IntOf(s)
    case _ => None
  }

  /** The elements of `list(v or [])`; None is a TypeError. */
  function Items(v: Value): Option<seq<Value>> {
    if !Truthy(v) then Some([])
    else
      match v
      case Arr(items) => Some(items)
      case Str(s) => Some(seq(|s|, i requires 0 <= i < |s| => Str([s[i]])))
      case Obj(ms) => Some(seq(|ms|, i requires 0 <= i < |ms| => Str(ms[i].key)))
      case _ => None
  }

  function ListOf(v: Value): Option<Value> {
    match Items(v)
    case Some(items) => Some(Arr(items))
    case None => None
  }

  /** `dict(v or {})`; None is a TypeError. */
  function DictOf(v: Value): Option<Value> {
    if !Truthy(v) then Some(Obj([])) else if v.Obj? then Some(v) else None
  }

  /** `d.update(other)`. */
  function Update(ms: seq<Member>, other: seq<Member>): seq<Member>
    decreases |other|
  {
    if other == [] then ms else Update(Put(ms, other[0].key, other[0].value), other[1..])
  }

  function SetDefault(ms: seq<Member>, key: string, v: Value): seq<Member> {
    if Get(ms, key).Some? then ms else ms + [Member(key, v)]
  }

  lemma {:induction false} PutGet(ms: seq<Member>, key: string, v: Value, k: string)
    ensures Get(Put(ms, key, v), k) == if k == key then Some(v) else Get(ms, k)
  {
    if ms != [] && ms[0].key != key {
      PutGet(ms[1..], key, v, k);
    }
  }

  // ------------------------------------------------------------ `==` and `in`

  /** One form for the numbers that `==` does not tell apart: `True`, 1 and 1.0, or 0 and -0.0. */
  function Norm(v: Value): Value {
    match v
    case Bool(b) => Int(if b then 1 else 0)
    case Float(Integral(i)) => Int(i)
    case Float(NegativeZero) => Int(0)
    case Arr(items) => Arr(seq(|items|, i requires 0 <= i < |items| => Norm(items[i])))
    case Obj(ms) => Obj(seq(|ms|, i requires 0 <= i < |ms| => Member(ms[i].key, Norm(ms[i].value))))
    case _ => v
  }

  /** `a == b`. NaN counts as equal to itself, as it does in `in` for one object. */
  predicate Equal(a: Value, b: Value) {
    SortKeys(Norm(a)) == SortKeys(Norm(b))
  }

  /** `v in items`. */
  predicate Contains(items: seq<Value>, v: Value) {
    exists i | 0 <= i < |items| :: Equal(items[i], v)
  }

  lemma {:induction false} NormWellFormed(v: Value)
    requires WellFormed(v)
    ensures WellFormed(Norm(v))
  {
    match v
    case Arr(items) =>
      forall i | 0 <= i < |items|
        ensures WellFormed(Norm(items[i]))
      {
        NormWellFormed(items[i]);
      }
    case Obj(ms) =>
      forall i | 0 <= i < |ms|
        ensures WellFormed(Norm(ms[i].value))
      {
        NormWellFormed(ms[i].value);
      }
    case _ =>
  }

  lemma {:induction false} NormRespectsSame(a: Value, b: Value)
    requires Same(a, b)
    ensures Same(Norm(a), Norm(b))
    decreases a
  {
    match a
    case Arr(xs) =>
      forall i | 0 <= i < |xs|
        ensures Same(Norm(xs[i]), Norm(b.items[i]))
      {
        NormRespectsSame(xs[i], b.items[i]);
      }
    case Obj(ms) =>
      var ns := b.members;
      var rs, ts := Norm(a).members, Norm(b).members;
      forall i, j | 0 <= i < |ms| && 0 <= j < |ns| && ms[i].key == ns[j].key
        ensures Same(Norm(ms[i].value), Norm(ns[j].value))
      {
        NormRespectsSame(ms[i].value, ns[j].value);
      }
      RenamedKeys(ms, ns, rs, ts);
    case _ =>
  }

  /** Key order does not matter to `==`. */
  lemma EqualRespectsSame(a: Value, b: Value, c: Value, d: Value)
    requires WellFormed(a) && WellFormed(b) && WellFormed(c) && WellFormed(d) && Same(a, b) && Same(c, d)
    ensures Equal(a, c) <==> Equal(b, d)
  {
    NormWellFormed(a);
    NormWellFormed(b);
    NormWellFormed(c);
    NormWellFormed(d);
    NormRespectsSame(a, b);
    NormRespectsSame(c, d);
    SortKeysDecidesSame(Norm(a), Norm(b));
    SortKeysDecidesSame(Norm(c), Norm(d));
  }

  /** A string equals nothing but itself. */
  lemma EqualToText(a: Value, s: string)
    ensures Equal(a, Str(s)) <==> a == Str(s)
  {
  }

  /** What is false: None and whatever equals False, and what is empty. */
  lemma FalseValues(v: Value)
    ensures !Truthy(v) <==> v == Null || Equal(v, Bool(false)) || v == Str("") || v == Arr([]) || v == Obj([])
  {
  }

  /** `int` of a float drops what is after the point: it is the next integer toward zero. */
  lemma IntTruncates(m: int, k: nat)
    ensures IntOfValue(Float(Fraction(m, k))).Some?
    ensures var n := IntOfValue(Float(Fraction(m, k))).value;
            && Abs(n) * Pow2(k) <= Abs(m) < (Abs(n) + 1) * Pow2(k)
            && (n > 0 ==> m > 0) && (n < 0 ==> m < 0)
  {
    var p := Pow2(k);
    var q := Abs(m) / p;
    assert IntOfValue(Float(Fraction(m, k))) == Some(if m >= 0 then q else -q);
    hide Pow2, IntOfValue;
    Quotient(Abs(m), p);
    var n := if m >= 0 then q else -q;
    assert Abs(n) == q;
    if m == 0 {
      assert q == 0;
    }
  }

  lemma Quotient(a: nat, p: nat)
    requires p > 0
    ensures 0 <= a / p && a / p * p <= a < (a / p + 1) * p
  {
  }

  /**
   * `==` on all pairs: booleans, ints and floats by their number, texts by their characters,
   * lists item by item, dicts by their keys and the values under them, and nothing else.
   */
  lemma EqualMeans(a: Value, b: Value)
    requires WellFormed(a) && WellFormed(b)
    ensures a.Null? ==> (Equal(a, b) <==> b.Null?)
    ensures a.Str? ==> (Equal(a, b) <==> b == a)
    ensures (a.Int? || a.Bool?) && (b.Int? || b.Bool?) ==> (Equal(a, b) <==> IntOfValue(a) == IntOfValue(b))
    ensures (a.Int? || a.Bool?) && b.Float? ==>
              (Equal(a, b) <==> (b.d.Integral? || b.d.NegativeZero?) && IntOfValue(a) == IntOfValue(b))
    ensures a.Float? && b.Float? ==> (Equal(a, b) <==> a == b || (Zero(a.d) && Zero(b.d)))
    ensures (a.Int? || a.Bool? || a.Float?) && !(b.Int? || b.Bool? || b.Float?) ==> !Equal(a, b)
    ensures a.Arr? ==> (Equal(a, b) <==> b.Arr? && |a.items| == |b.items| &&
                                         forall i | 0 <= i < |a.items| :: Equal(a.items[i], b.items[i]))
    ensures a.Obj? ==> (Equal(a, b) <==> b.Obj? && EqualDicts(a.members, b.members))
  {
    EqualAtoms(a, b);
    if a.Arr? && b.Arr? {
      EqualLists(a.items, b.items);
    }
    if a.Obj? && b.Obj? {
      EqualByKeys(a.members, b.members);
    }
    hide Equal, WellFormed, IntOfValue;
  }

  predicate Zero(d: Double) {
    d == Integral(0) || d == NegativeZero
  }

  lemma EqualAtoms(a: Value, b: Value)
    ensures a.Null? ==> (Equal(a, b) <==> b.Null?)
    ensures a.Str? ==> (Equal(a, b) <==> b == a)
    ensures (a.Int? || a.Bool?) && (b.Int? || b.Bool?) ==> (Equal(a, b) <==> IntOfValue(a) == IntOfValue(b))
    ensures (a.Int? || a.Bool?) && b.Float? ==>
              (Equal(a, b) <==> (b.d.Integral? || b.d.NegativeZero?) && IntOfValue(a) == IntOfValue(b))
    ensures a.Float? && b.Float? ==> (Equal(a, b) <==> a == b || (Zero(a.d) && Zero(b.d)))
    ensures (a.Int? || a.Bool? || a.Float?) && !(b.Int? || b.Bool? || b.Float?) ==> !Equal(a, b)
    ensures a.Arr? && !b.Arr? ==> !Equal(a, b)
    ensures a.Obj? && !b.Obj? ==> !Equal(a, b)
  {
  }

  lemma EqualLists(xs: seq<Value>, ys: seq<Value>)
    ensures Equal(Arr(xs), Arr(ys)) <==> |xs| == |ys| && forall i | 0 <= i < |xs| :: Equal(xs[i], ys[i])
  {
    var rs, ts := SortKeys(Norm(Arr(xs))).items, SortKeys(Norm(Arr(ys))).items;
    assert |rs| == |xs| && |ts| == |ys|;
    assert forall i | 0 <= i < |xs| :: rs[i] == SortKeys(Norm(xs[i]));
    assert forall i | 0 <= i < |ys| :: ts[i] == SortKeys(Norm(ys[i]));
    hide SortKeys, Norm;
    if |xs| == |ys| && forall i | 0 <= i < |xs| :: Equal(xs[i], ys[i]) {
      assert rs == ts;
    }
  }

  /** The same keys, and equal values under each. */
  ghost predicate EqualDicts(ms: seq<Member>, ns: seq<Member>) {
    && (forall key :: HasKey(ms, key) <==> HasKey(ns, key))
    && forall i, j | 0 <= i < |ms| && 0 <= j < |ns| && ms[i].key == ns[j].key :: Equal(ms[i].value, ns[j].value)
  }

  lemma EqualByKeys(ms: seq<Member>, ns: seq<Member>)
    requires WellFormed(Obj(ms)) && WellFormed(Obj(ns))
    ensures Equal(Obj(ms), Obj(ns)) <==> EqualDicts(ms, ns)
  {
    var rs, ts := Norm(Obj(ms)).members, Norm(Obj(ns)).members;
    NormWellFormed(Obj(ms));
    NormWellFormed(Obj(ns));
    SortKeysDecidesSame(Norm(Obj(ms)), Norm(Obj(ns)));
    assert Equal(Obj(ms), Obj(ns)) <==> Same(Obj(rs), Obj(ts));
    hide SortKeys, Equal;
    forall i, j | 0 <= i < |ms| && 0 <= j < |ns|
      ensures Equal(ms[i].value, ns[j].value) <==> Same(rs[i].value, ts[j].value)
    {
      EqualIsSame(ms[i].value, ns[j].value);
    }
    NormKeys(ms, rs);
    NormKeys(ns, ts);
    hide Norm;
    if Same(Obj(rs), Obj(ts)) {
      forall key
        ensures HasKey(ms, key) <==> HasKey(ns, key)
      {
        SameHasKey(rs, ts, key);
      }
    }
    if EqualDicts(ms, ns) {
      DictsSame(ms, ns, rs, ts);
    }
  }

  lemma EqualIsSame(a: Value, b: Value)
    requires WellFormed(a) && WellFormed(b)
    ensures Equal(a, b) <==> Same(Norm(a), Norm(b))
  {
    NormWellFormed(a);
    NormWellFormed(b);
    SortKeysDecidesSame(Norm(a), Norm(b));
  }

  lemma NormKeys(ms: seq<Member>, rs: seq<Member>)
    requires rs == Norm(Obj(ms)).members
    ensures |rs| == |ms| && (forall i | 0 <= i < |ms| :: rs[i].key == ms[i].key)
    ensures forall key :: HasKey(rs, key) <==> HasKey(ms, key)
  {
    assert forall i | 0 <= i < |ms| :: rs[i].key == ms[i].key;
  }

  lemma DictsSame(ms: seq<Member>, ns: seq<Member>, rs: seq<Member>, ts: seq<Member>)
    requires |rs| == |ms| && (forall i | 0 <= i < |ms| :: rs[i].key == ms[i].key)
    requires |ts| == |ns| && (forall i | 0 <= i < |ns| :: ts[i].key == ns[i].key)
    requires forall key :: HasKey(rs, key) <==> HasKey(ts, key)
    requires forall i, j | 0 <= i < |ms| && 0 <= j < |ns| && ms[i].key == ns[j].key :: Same(rs[i].value, ts[j].value)
    ensures Same(Obj(rs), Obj(ts))
  {
    forall i | 0 <= i < |rs|
      ensures HasKey(ts, rs[i].key)
    {
      assert HasKey(rs, rs[i].key);
    }
    forall i | 0 <= i < |ts|
      ensures HasKey(rs, ts[i].key)
    {
      assert HasKey(ts, ts[i].key);
    }
  }

  // ------------------------------------------- what key order leaves alone

  lemma SameHasKey(ms: seq<Member>, ns: seq<Member>, key: string)
    requires Same(Obj(ms), Obj(ns))
    ensures HasKey(ms, key) <==> HasKey(ns, key)
  {
    assert forall i | 0 <= i < |ms| :: HasKey(ns, ms[i].key);
    assert forall i | 0 <= i < |ns| :: HasKey(ms, ns[i].key);
  }

  lemma AtSame(ms: seq<Member>, ns: seq<Member>, key: string)
    requires WellFormed(Obj(ms)) && WellFormed(Obj(ns)) && Same(Obj(ms), Obj(ns))
    ensures WellFormed(At(ms, key)) && WellFormed(At(ns, key)) && Same(At(ms, key), At(ns, key))
  {
    GetFinds(ms, key);
    GetFinds(ns, key);
    SameHasKey(ms, ns, key);
    if HasKey(ms, key) {
      var i :| 0 <= i < |ms| && ms[i] == Member(key, Get(ms, key).value);
      GetFromSame(ms, ns, i);
    }
  }

  lemma SameTruth(a: Value, b: Value)
    requires Same(a, b)
    ensures Truthy(a) == Truthy(b)
  {
    if a.Obj? {
      var ms, ns := a.members, b.members;
      if ms != [] {
        SameHasKey(ms, ns, ms[0].key);
      }
      if ns != [] {
        SameHasKey(ms, ns, ns[0].key);
      }
    }
  }

  lemma SameInt(a: Value, b: Value)
    requires Same(a, b)
    ensures IntOfValue(a) == IntOfValue(b)
    ensures Items(a).Some? == Items(b).Some?
  {
    SameTruth(a, b);
  }
}
