/**
 * One message hop: a protobuf Struct turns every int into the nearest binary64 value and
 * loses key order; `restore_json_numbers` turns small integral floats back into ints.
 */
module Transport {
  import opened Wrappers
  import opened Json
  import opened JsonText

  // ------------------------------------------- int to nearest binary64

  /** How many low bits of `a` lie beyond the 53 of the significand. */
  function Excess(a: nat): (e: nat)
    ensures a < TWO_53 * Pow2(e)
    ensures e > 0 ==> TWO_53 * Pow2(e) <= 2 * a
  {
    if a < TWO_53 then 0 else 1 + Excess(a / 2)
  }

  /** Nearest multiple of `u` to `a`, counted in units; a tie goes to the even count. */
  function NearestCount(a: nat, u: nat): nat
    requires u > 0
  {
    var q, r := a / u, a % u;
    if 2 * r < u || (2 * r == u && q % 2 == 0) then q else q + 1
  }

  /**
   * `float(n)`, half to even at 53 significant bits. None is Python's OverflowError: the
   * rounded value would need an exponent above 971, where a count of 2^53 units carries into
   * the next exponent.
   */
  function ToDouble(n: int): Option<Double> {
    var e := Excess(Abs(n));
    var count := NearestCount(Abs(n), Pow2(e));
    if e > 971 || (e == 971 && count == TWO_53) then None
    else Some(Integral(if n < 0 then -(count * Pow2(e)) else count * Pow2(e)))
  }

  lemma {:induction false} Pow2Adds(a: nat, b: nat)
    ensures Pow2(a + b) == Pow2(a) * Pow2(b)
  {
    if a > 0 {
      Pow2Adds(a - 1, b);
      assert Pow2(a + b) == 2 * Pow2(a - 1 + b);
      Associate(2, Pow2(a - 1), Pow2(b));
    }
  }

  lemma {:induction false} Pow2Monotone(a: nat, b: nat)
    requires a <= b
    ensures Pow2(a) <= Pow2(b)
    decreases b
  {
    if a < b {
      Pow2Monotone(a, b - 1);
    }
  }

  lemma ExactBelow53(n: int)
    requires Abs(n) < TWO_53
    ensures ToDouble(n) == Some(Integral(n))
  {
    assert Excess(Abs(n)) == 0 && Pow2(0) == 1;
  }

  // Arithmetic of products, one step each.

  lemma ProductMonotone(a: nat, b: nat, c: nat, d: nat)
    requires a <= b && c <= d
    ensures a * c <= b * d
  {
    assert a * c <= b * c;
    assert b * c <= b * d;
  }

  lemma Distribute(a: int, b: int, u: int)
    ensures (b - a) * u == b * u - a * u
  {
  }

  lemma AtLeastOnce(x: int, u: nat)
    requires x >= 1
    ensures x * u >= u
  {
  }

  lemma ProductLess(a: int, b: int, u: nat)
    requires u > 0
    ensures a * u < b * u ==> a < b
    ensures a < b ==> a * u + u <= b * u
  {
    Distribute(a, b, u);
    Distribute(b, a, u);
    if a < b {
      AtLeastOnce(b - a, u);
    } else if a > b {
      AtLeastOnce(a - b, u);
    }
  }

  lemma Negated(m: int, u: int)
    ensures (-m) * u == -(m * u)
  {
  }

  lemma AbsProduct(m: int, p: nat)
    ensures Abs(m * p) == Abs(m) * p
  {
    Negated(m, p);
    if m < 0 {
      assert (-m) * p >= 0;
    }
  }

  lemma Divide(a: nat, u: nat) returns (q: nat, r: nat)
    requires u > 0
    ensures q == a / u && r == a % u && a == q * u + r && r < u
  {
    q, r := a / u, a % u;
  }

  /** The rounded value is at most half a unit away. */
  lemma NearestCountIsClose(a: nat, u: nat)
    requires u > 0
    ensures 2 * Abs(a - NearestCount(a, u) * u) <= u
  {
    var q, r := Divide(a, u);
    assert (q + 1) * u == q * u + u;
  }

  /** No multiple of the unit is closer. */
  lemma NearestMultiple(a: int, m: int, u: nat, q: int)
    requires u > 0 && 2 * Abs(a - m * u) <= u
    ensures Abs(a - m * u) <= Abs(a - q * u)
  {
    ProductLess(m, q, u);
    ProductLess(q, m, u);
  }

  /** The count of units keeps to 53 bits and, past 2^53, uses all of them. */
  lemma CountRange(a: nat)
    ensures NearestCount(a, Pow2(Excess(a))) <= TWO_53
    ensures Excess(a) > 0 ==> TWO_53 <= 2 * NearestCount(a, Pow2(Excess(a)))
  {
    var e := Excess(a);
    var u := Pow2(e);
    var q, r := Divide(a, u);
    assert q * u < TWO_53 * u;
    ProductLess(q, TWO_53, u);
    if e > 0 {
      assert (q + 1) * u == q * u + u;
      assert TWO_53 / 2 * u < (q + 1) * u;
      ProductLess(TWO_53 / 2, q + 1, u);
    }
  }

  lemma RoundsToDouble(n: int)
    requires ToDouble(n).Some?
    ensures IsDouble(ToDouble(n).value)
  {
    var e := Excess(Abs(n));
    var u := Pow2(e);
    var m := NearestCount(Abs(n), u);
    CountRange(Abs(n));
    Negated(m, u);
    if m < TWO_53 {
      assert IsScaled(m * u, m, e);
      assert IsScaled(-(m * u), -m, e);
    } else {
      var half := TWO_53 / 2;
      assert Pow2(e + 1) == 2 * u;
      Negated(half, Pow2(e + 1));
      assert IsScaled(m * u, half, e + 1);
      assert IsScaled(-(m * u), -half, e + 1);
    }
  }

  /** The integer `r` is at least as close to `n` as the double `d`. */
  ghost predicate AtLeastAsClose(n: int, r: int, d: Double) {
    match d
    case Integral(j) => Abs(n - r) <= Abs(n - j)
    case Fraction(m, k) => Abs(n - r) * Pow2(k) <= Abs(n * Pow2(k) - m)
    case NegativeZero => Abs(n - r) <= Abs(n)
    case _ => true
  }

  /** `float(n)` is a binary64 value nearest to `n`. */
  lemma ToDoubleIsNearest(n: int, d: Double)
    requires ToDouble(n).Some? && IsDouble(d)
    ensures IsDouble(ToDouble(n).value)
    ensures AtLeastAsClose(n, ToDouble(n).value.i, d)
  {
    RoundsToDouble(n);
    if Abs(n) < TWO_53 {
      ExactBelow53(n);
      ExactIsNearest(n, d);
    } else {
      hide Pow2, NearestCount, Excess, IsScaled;
      var u := Pow2(Excess(Abs(n)));
      var count := NearestCount(Abs(n), u);
      NearestCountIsClose(Abs(n), u);
      Negated(count, u);
      var m: int := if n < 0 then -(count as int) else count;
      EdgeDistance(n, m, u);
      match d
      case Integral(j) => IntegralNoCloser(n, m, j);
      case Fraction(fm, k) => FractionIsFar(n, m * u, fm, k);
      case _ =>
    }
  }

  lemma ExactIsNearest(n: int, d: Double)
    ensures AtLeastAsClose(n, n, d)
  {
    if d.Fraction? {
      assert 0 * Pow2(d.k) == 0;
    }
  }

  /** The smallest 53-bit multiple of the unit lies between zero and `n`, so `n` rounds beyond it. */
  lemma EdgeDistance(n: int, m: int, u: nat)
    requires u > 0 && TWO_53 / 2 * u <= Abs(n) && 2 * Abs(n - m * u) <= u
    ensures Abs(n - m * u) <= Abs(n) - TWO_53 / 2 * u <= Abs(n) - TWO_53 / 2
  {
    var half := TWO_53 / 2;
    Negated(half, u);
    NearestMultiple(n, m, u, if n < 0 then -half else half);
  }

  lemma IntegralNoCloser(n: int, m: int, j: int)
    requires Abs(n) >= TWO_53 && 2 * Abs(n - m * Pow2(Excess(Abs(n)))) <= Pow2(Excess(Abs(n)))
    requires IsDouble(Integral(j))
    ensures Abs(n - m * Pow2(Excess(Abs(n)))) <= Abs(n - j)
  {
    var e := Excess(Abs(n));
    var jm: int, je: nat :| IsScaled(j, jm, je);
    if je >= e {
      Pow2Adds(je - e, e);
      Associate(jm, Pow2(je - e), Pow2(e));
      NearestMultiple(n, m, Pow2(e), jm * Pow2(je - e));
    } else {
      Pow2Monotone(je, e - 1);
      AbsProduct(jm, Pow2(je));
      ProductMonotone(Abs(jm), TWO_53, Pow2(je), Pow2(e - 1));
      EdgeDistance(n, m, Pow2(e));
      assert Abs(j) <= TWO_53 / 2 * Pow2(e);
    }
  }

  lemma Associate(a: int, b: int, c: int)
    ensures a * (b * c) == (a * b) * c
  {
  }

  /** A non-integral double is below 2^52, so it is no rival once `n` is at least 2^53. */
  lemma FractionIsFar(n: int, r: int, m: int, k: nat)
    requires k >= 1 && Abs(m) < TWO_53 && Abs(n - r) <= Abs(n) - TWO_53 / 2
    ensures Abs(n - r) * Pow2(k) <= Abs(n * Pow2(k) - m)
  {
    var p := Pow2(k);
    assert p == 2 * Pow2(k - 1);
    hide Pow2;
    AbsProduct(n, p);
    ProductMonotone(Abs(n - r) + TWO_53 / 2, Abs(n), p, p);
    Distribute(-(TWO_53 / 2), Abs(n - r), p);
    Negated(TWO_53 / 2, p);
    assert TWO_53 / 2 * p >= TWO_53;
  }

  // ---------------------------------------------------- the two conversions

  /** Values that `ParseDict` accepts: no NaN, no infinity, no int beyond the largest double. */
  predicate Transportable(v: Value) {
    match v
    case Int(n) => ToDouble(n).Some?
    case Float(d) => IsFinite(d)
    case Arr(items) => forall i | 0 <= i < |items| :: Transportable(items[i])
    case Obj(ms) => forall i | 0 <= i < |ms| :: Transportable(ms[i].value)
    case _ => true
  }

  /** The numbers of a protobuf Struct: every int becomes a float. */
  function ToStruct(v: Value): Value
    requires Transportable(v)
  {
    match v
    case Int(n) => Float(ToDouble(n).value)
    case Arr(items) => Arr(seq(|items|, i requires 0 <= i < |items| => ToStruct(items[i])))
    case Obj(ms) =>
      Obj(seq(|ms|, i requires 0 <= i < |ms| => Member(ms[i].key, ToStruct(ms[i].value))))
    case _ => v
  }

  /** `restore_json_numbers`. */
  function Restore(v: Value): Value {
    match v
    case Float(Integral(i)) => if Abs(i) < TWO_53 then Int(i) else v
    case Float(NegativeZero) => Int(0)
    case Arr(items) => Arr(seq(|items|, i requires 0 <= i < |items| => Restore(items[i])))
    case Obj(ms) =>
      Obj(seq(|ms|, i requires 0 <= i < |ms| => Member(ms[i].key, Restore(ms[i].value))))
    case _ => v
  }

  /** No int with |n| >= 2^53 and no integral float with |f| < 2^53. */
  predicate NumberSafe(v: Value) {
    match v
    case Int(n) => Abs(n) < TWO_53
    case Float(Integral(i)) => Abs(i) >= TWO_53
    case Float(NegativeZero) => false
    case Arr(items) => forall i | 0 <= i < |items| :: NumberSafe(items[i])
    case Obj(ms) => forall i | 0 <= i < |ms| :: NumberSafe(ms[i].value)
    case _ => true
  }

  /** `received` is what may come out of a hop that carries `sent`: any key order on the wire. */
  ghost predicate Hop(sent: Value, received: Value) {
    && WellFormed(sent)
    && Transportable(sent)
    && exists wire :: WellFormed(wire) && Same(ToStruct(sent), wire) && received == Restore(wire)
  }

  // ------------------------------------------------------------- the proofs

  lemma {:induction false} ToStructWellFormed(v: Value)
    requires WellFormed(v) && Transportable(v)
    ensures WellFormed(ToStruct(v))
  {
    match v
    case Int(n) => RoundsToDouble(n);
    case Arr(items) =>
      forall i | 0 <= i < |items|
        ensures WellFormed(ToStruct(items[i]))
      {
        ToStructWellFormed(items[i]);
      }
    case Obj(ms) =>
      forall i | 0 <= i < |ms|
        ensures WellFormed(ToStruct(ms[i].value))
      {
        ToStructWellFormed(ms[i].value);
      }
    case _ =>
  }

  lemma {:induction false} RestoreWellFormed(v: Value)
    requires WellFormed(v)
    ensures WellFormed(Restore(v))
  {
    match v
    case Arr(items) =>
      forall i | 0 <= i < |items|
        ensures WellFormed(Restore(items[i]))
      {
        RestoreWellFormed(items[i]);
      }
    case Obj(ms) =>
      forall i | 0 <= i < |ms|
        ensures WellFormed(Restore(ms[i].value))
      {
        RestoreWellFormed(ms[i].value);
      }
    case _ =>
  }

  /** Restoring does not look at key order. */
  lemma {:induction false} RestoreRespectsSame(a: Value, b: Value)
    requires Same(a, b)
    ensures Same(Restore(a), Restore(b))
    decreases a
  {
    match a
    case Arr(xs) =>
      forall i | 0 <= i < |xs|
        ensures Same(Restore(xs[i]), Restore(b.items[i]))
      {
        RestoreRespectsSame(xs[i], b.items[i]);
      }
    case Obj(ms) =>
      var ns := b.members;
      var rs, ts := Restore(a).members, Restore(b).members;
      forall i, j | 0 <= i < |ms| && 0 <= j < |ns| && ms[i].key == ns[j].key
        ensures Same(Restore(ms[i].value), Restore(ns[j].value))
      {
        RestoreRespectsSame(ms[i].value, ns[j].value);
      }
      RenamedKeys(ms, ns, rs, ts);
    case _ =>
  }

  /** Conversion and restoration give the value back exactly when its numbers are safe. */
  lemma {:induction false} RestoreUndoesStruct(v: Value)
    requires WellFormed(v) && Transportable(v)
    ensures Same(v, Restore(ToStruct(v))) <==> NumberSafe(v)
  {
    match v
    case Int(n) =>
      if Abs(n) < TWO_53 {
        ExactBelow53(n);
      } else {
        LargeStaysLarge(n);
      }
    case Arr(items) =>
      forall i | 0 <= i < |items|
        ensures Same(items[i], Restore(ToStruct(items[i]))) <==> NumberSafe(items[i])
      {
        RestoreUndoesStruct(items[i]);
      }
      ItemsRestored(items);
    case Obj(ms) =>
      forall i | 0 <= i < |ms|
        ensures Same(ms[i].value, Restore(ToStruct(ms[i].value))) <==> NumberSafe(ms[i].value)
      {
        RestoreUndoesStruct(ms[i].value);
      }
      MembersRestored(ms);
    case _ =>
  }

  lemma ItemsRestored(items: seq<Value>)
    requires Transportable(Arr(items))
    requires forall i | 0 <= i < |items| :: Same(items[i], Restore(ToStruct(items[i]))) <==> NumberSafe(items[i])
    ensures Same(Arr(items), Restore(ToStruct(Arr(items)))) <==> NumberSafe(Arr(items))
  {
    var rs := Restore(ToStruct(Arr(items))).items;
    assert |rs| == |items| && forall i | 0 <= i < |items| :: rs[i] == Restore(ToStruct(items[i]));
  }

  lemma MembersRestored(ms: seq<Member>)
    requires WellFormed(Obj(ms)) && Transportable(Obj(ms))
    requires forall i | 0 <= i < |ms| :: Same(ms[i].value, Restore(ToStruct(ms[i].value))) <==> NumberSafe(ms[i].value)
    ensures Same(Obj(ms), Restore(ToStruct(Obj(ms)))) <==> NumberSafe(Obj(ms))
  {
    RestoredMembers(ms);
    assert forall i | 0 <= i < |ms| :: HasKey(ms, ms[i].key);
    RenamedKeys(ms, ms, ms, Restore(ToStruct(Obj(ms))).members);
  }

  lemma RestoredMembers(ms: seq<Member>)
    requires Transportable(Obj(ms))
    ensures var rs := Restore(ToStruct(Obj(ms))).members;
            && |rs| == |ms|
            && forall i | 0 <= i < |ms| :: rs[i] == Member(ms[i].key, Restore(ToStruct(ms[i].value)))
  {
  }

  lemma LargeStaysLarge(n: int)
    requires ToDouble(n).Some? && Abs(n) >= TWO_53
    ensures Abs(ToDouble(n).value.i) >= TWO_53
  {
    var e := Excess(Abs(n));
    CountRange(Abs(n));
    assert e > 0 && Pow2(e) == 2 * Pow2(e - 1);
    ProductMonotone(TWO_53 / 2, NearestCount(Abs(n), Pow2(e)), 2, Pow2(e));
  }

  /** Only floats, and only finite ones: what a Struct can hold. */
  predicate StructNumbers(v: Value) {
    match v
    case Int(_) => false
    case Float(d) => IsFinite(d)
    case Arr(items) => forall i | 0 <= i < |items| :: StructNumbers(items[i])
    case Obj(ms) => forall i | 0 <= i < |ms| :: StructNumbers(ms[i].value)
    case _ => true
  }

  lemma {:induction false} ToStructNumbers(v: Value)
    requires Transportable(v)
    ensures StructNumbers(ToStruct(v))
  {
    match v
    case Arr(items) =>
      forall i | 0 <= i < |items|
        ensures StructNumbers(ToStruct(items[i]))
      {
        ToStructNumbers(items[i]);
      }
    case Obj(ms) =>
      forall i | 0 <= i < |ms|
        ensures StructNumbers(ToStruct(ms[i].value))
      {
        ToStructNumbers(ms[i].value);
      }
    case _ =>
  }

  lemma {:induction false} SameStructNumbers(a: Value, b: Value)
    requires Same(a, b) && StructNumbers(a)
    ensures StructNumbers(b)
    decreases a
  {
    match a
    case Arr(xs) =>
      forall i | 0 <= i < |xs|
        ensures StructNumbers(b.items[i])
      {
        SameStructNumbers(xs[i], b.items[i]);
      }
    case Obj(ms) =>
      forall j | 0 <= j < |b.members|
        ensures StructNumbers(b.members[j].value)
      {
        assert HasKey(ms, b.members[j].key);
        var i :| 0 <= i < |ms| && ms[i].key == b.members[j].key;
        SameStructNumbers(ms[i].value, b.members[j].value);
      }
    case _ =>
  }

  lemma {:induction false} RestoredIsSafe(v: Value)
    requires StructNumbers(v)
    ensures NumberSafe(Restore(v)) && FiniteNumbers(Restore(v)) && Transportable(Restore(v))
  {
    match v
    case Float(Integral(i)) =>
      if Abs(i) < TWO_53 {
        ExactBelow53(i);
      }
    case Float(NegativeZero) => ExactBelow53(0);
    case Arr(items) =>
      forall i | 0 <= i < |items|
        ensures NumberSafe(Restore(items[i])) && FiniteNumbers(Restore(items[i])) && Transportable(Restore(items[i]))
      {
        RestoredIsSafe(items[i]);
      }
    case Obj(ms) =>
      forall i | 0 <= i < |ms|
        ensures NumberSafe(Restore(ms[i].value)) && FiniteNumbers(Restore(ms[i].value))
             && Transportable(Restore(ms[i].value))
      {
        RestoredIsSafe(ms[i].value);
      }
    case _ =>
  }

  /** A hop delivers the value it was given, up to key order, exactly when its numbers are safe. */
  lemma HopDelivers(sent: Value, received: Value)
    requires Hop(sent, received)
    ensures WellFormed(received)
    ensures Same(sent, received) <==> NumberSafe(sent)
  {
    var wire :| WellFormed(wire) && Same(ToStruct(sent), wire) && received == Restore(wire);
    var plain := Restore(ToStruct(sent));
    ToStructWellFormed(sent);
    RestoreWellFormed(ToStruct(sent));
    RestoreWellFormed(wire);
    RestoreRespectsSame(ToStruct(sent), wire);
    RestoreUndoesStruct(sent);
    SortKeysDecidesSame(plain, received);
    SortKeysDecidesSame(sent, plain);
    SortKeysDecidesSame(sent, received);
  }

  /** Whatever was sent, what arrives is number-safe, so a further hop delivers it unchanged. */
  lemma HopCleans(sent: Value, received: Value)
    requires Hop(sent, received)
    ensures WellFormed(received) && NumberSafe(received) && FiniteNumbers(received) && Transportable(received)
  {
    var wire :| WellFormed(wire) && Same(ToStruct(sent), wire) && received == Restore(wire);
    ToStructNumbers(sent);
    SameStructNumbers(ToStruct(sent), wire);
    RestoredIsSafe(wire);
    RestoreWellFormed(wire);
  }

  lemma {:induction false} TransportableIsFinite(v: Value)
    requires Transportable(v)
    ensures FiniteNumbers(v)
  {
    match v
    case Arr(items) =>
      forall i | 0 <= i < |items|
        ensures FiniteNumbers(items[i])
      {
        TransportableIsFinite(items[i]);
      }
    case Obj(ms) =>
      forall i | 0 <= i < |ms|
        ensures FiniteNumbers(ms[i].value)
      {
        TransportableIsFinite(ms[i].value);
      }
    case _ =>
  }

  /** The canonical bytes survive a hop exactly when the numbers are safe. */
  lemma CanonicalBytesSurvive(sent: Value, received: Value, ff: FloatFormat)
    requires Faithful(ff) && Hop(sent, received)
    ensures CanonicalJson(sent, ff) == CanonicalJson(received, ff) <==> NumberSafe(sent)
  {
    HopDelivers(sent, received);
    HopCleans(sent, received);
    TransportableIsFinite(sent);
    CanonicalForm(sent, received, ff);
  }
}
