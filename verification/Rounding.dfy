/** Where `float(n)` overflows, and which of two nearest values it takes. */
module Rounding {
  import opened Wrappers
  import opened Json
  import opened Transport

  /** Halfway between two values, the one with an even significand is taken. */
  lemma TiesToEven(n: int)
    requires ToDouble(n).Some?
    ensures var u := Pow2(Excess(Abs(n)));
            2 * Abs(n - ToDouble(n).value.i) == u ==> exists m: int :: ToDouble(n).value.i == 2 * m * u
  {
    var a, u := Abs(n), Pow2(Excess(Abs(n)));
    var count := NearestCount(a, u);
    hide Pow2, Excess, NearestCount;
    Negated(count, u);
    if 2 * Abs(n - ToDouble(n).value.i) == u {
      TieIsEven(a, u);
      var half: int := count / 2;
      Negated(2 * half, u);
      var m := if n < 0 then -half else half;
      assert ToDouble(n).value.i == 2 * m * u;
    }
  }

  lemma TieIsEven(a: nat, u: nat)
    requires u > 0 && 2 * Abs(a - NearestCount(a, u) * u) == u
    ensures NearestCount(a, u) % 2 == 0
  {
    var q, r := Divide(a, u);
    assert (q + 1) * u == q * u + u;
    EvenCount(a, u);
  }

  lemma EvenCount(a: nat, u: nat)
    requires u > 0
    ensures 2 * (a % u) == u ==> NearestCount(a, u) % 2 == 0
  {
  }

  /** The largest double is 2^1024 - 2^971; from the middle between it and 2^1024 on, `float` raises. */
  lemma OverflowsFrom(n: int)
    ensures ToDouble(n).None? <==> Abs(n) >= Pow2(1024) - Pow2(970)
  {
    hide Pow2, ToDouble;
    Overflow(n, 970);
  }

  lemma Overflow(n: int, k: nat)
    requires k == 970
    ensures ToDouble(n).None? <==> Abs(n) >= Pow2(k + 54) - Pow2(k)
  {
    var a, e := Abs(n), Excess(Abs(n));
    var h := Pow2(k);
    NoneMeans(n);
    hide Excess, ToDouble, NearestCount, Pow2;
    Pow2Adds(54, k);
    Pow2Of54();
    Doubled(k);
    if e <= k {
      Pow2Monotone(e, k);
      FarBelow(a, Pow2(e), h);
    } else if e > k + 1 {
      Pow2Monotone(k + 2, e);
      FarAbove(a, Pow2(e), h);
    } else {
      CarriesFrom(a, h);
    }
  }

  lemma NoneMeans(n: int)
    ensures var e := Excess(Abs(n));
            ToDouble(n).None? <==> e > 971 || (e == 971 && NearestCount(Abs(n), Pow2(e)) == TWO_53)
  {
  }

  lemma FarBelow(a: nat, u: nat, h: nat)
    requires a < TWO_53 * u && u <= h
    ensures a < 2 * TWO_53 * h - h
  {
  }

  lemma FarAbove(a: nat, u: nat, h: nat)
    requires TWO_53 * u <= 2 * a && 4 * h <= u
    ensures a >= 2 * TWO_53 * h - h
  {
  }

  lemma Doubled(k: nat)
    ensures Pow2(k + 1) == 2 * Pow2(k) && Pow2(k + 2) == 4 * Pow2(k)
  {
  }

  lemma Pow2Of54()
    ensures Pow2(54) == 2 * TWO_53
  {
    Pow2Of27();
    Pow2Adds(27, 27);
    hide Pow2;
  }

  lemma Pow2Of27()
    ensures Pow2(27) == 0x800_0000
  {
    assert Pow2(3) == 8 && Pow2(9) == 64 * Pow2(3) && Pow2(18) == 512 * Pow2(9) && Pow2(27) == 512 * Pow2(18);
  }

  /** The count of units reaches 2^53 from half a unit below it on. */
  lemma CarriesFrom(a: nat, h: nat)
    requires h > 0 && a < TWO_53 * (2 * h)
    ensures NearestCount(a, 2 * h) == TWO_53 <==> a >= 2 * TWO_53 * h - h
  {
    var q, r := Divide(a, 2 * h);
    ProductLess(q, TWO_53, 2 * h);
    if q < TWO_53 - 1 {
      ProductLess(q, TWO_53 - 1, 2 * h);
      assert (TWO_53 - 1) * (2 * h) == TWO_53 * (2 * h) - 2 * h;
    }
  }
}
