/** Text helpers: code-point order of strings, decimal and hexadecimal digits. */
module Text {
  import opened Wrappers

  /** Python's `<` on `str`: lexicographic by code point. */
  predicate Less(a: string, b: string)
    decreases |a|
  {
    if b == "" then false
    else if a == "" then true
    else a[0] < b[0] || (a[0] == b[0] && Less(a[1..], b[1..]))
  }

  lemma {:induction false} LessIrreflexive(a: string)
    ensures !Less(a, a)
    decreases |a|
  {
    if a != "" {
      LessIrreflexive(a[1..]);
    }
  }

  lemma {:induction false} LessTransitive(a: string, b: string, c: string)
    requires Less(a, b) && Less(b, c)
    ensures Less(a, c)
    decreases |a|
  {
    if a != "" && a[0] == b[0] && b[0] == c[0] {
      LessTransitive(a[1..], b[1..], c[1..]);
    }
  }

  lemma {:induction false} LessTotal(a: string, b: string)
    ensures Less(a, b) || Less(b, a) || a == b
    decreases |a|
  {
    if a == "" || b == "" {
    } else if a[0] == b[0] {
      LessTotal(a[1..], b[1..]);
      assert a == [a[0]] + a[1..] && b == [b[0]] + b[1..];
    }
  }

  lemma SamePrefixSameStart(a: string, b: string, i: nat)
    requires 0 < i <= |a| && i <= |b| && a[..i] == b[..i]
    ensures a[0] == b[0]
  {
    assert a[0] == a[..i][0] == b[..i][0] == b[0];
  }

  /** At the first difference the code point is smaller, or the text has ended. */
  lemma {:induction false} LessMeans(a: string, b: string)
    ensures Less(a, b) <==>
            exists i :: 0 <= i <= |a| && i < |b| && a[..i] == b[..i] && (i == |a| || a[i] < b[i])
    decreases |a|
  {
    if a != "" && b != "" && a[0] == b[0] {
      LessMeans(a[1..], b[1..]);
      if Less(a, b) {
        var i :| 0 <= i <= |a| - 1 && i < |b| - 1 && a[1..][..i] == b[1..][..i] && (i == |a| - 1 || a[1..][i] < b[1..][i]);
        assert a[..i + 1] == [a[0]] + a[1..][..i] && b[..i + 1] == [b[0]] + b[1..][..i];
      }
      if i :| 0 <= i <= |a| && i < |b| && a[..i] == b[..i] && (i == |a| || a[i] < b[i]) {
        assert a[1..][..i - 1] == a[..i][1..] && b[1..][..i - 1] == b[..i][1..];
        assert i - 1 == |a[1..]| || a[1..][i - 1] < b[1..][i - 1];
      }
    } else if Less(a, b) {
      assert a[..0] == b[..0];
    } else {
      forall i | 0 <= i <= |a| && i < |b| && a[..i] == b[..i]
        ensures i < |a| && a[i] >= b[i]
      {
        if i > 0 {
          SamePrefixSameStart(a, b, i);
        }
      }
    }
  }

  // ---------------------------------------------------------------- decimal

  predicate IsDigit(c: char) {
    '0' <= c <= '9'
  }

  function DigitChar(d: nat): (c: char)
    requires d < 10
    ensures IsDigit(c) && DigitValue(c) == d
  {
    '0' + d as char
  }

  function DigitValue(c: char): (d: nat)
    requires IsDigit(c)
    ensures d < 10
  {
    (c - '0') as nat
  }

  function NatText(n: nat): (s: string)
    ensures s != "" && forall i | 0 <= i < |s| :: IsDigit(s[i])
  {
    if n < 10 then [DigitChar(n)] else NatText(n / 10) + [DigitChar(n % 10)]
  }

  predicate AllDigits(s: string) {
    forall i | 0 <= i < |s| :: IsDigit(s[i])
  }

  function NatValue(s: string): nat
    requires AllDigits(s)
  {
    if s == "" then 0 else NatValue(s[..|s| - 1]) * 10 + DigitValue(s[|s| - 1])
  }

  lemma {:induction false} NatTextValue(n: nat)
    ensures NatValue(NatText(n)) == n
  {
    var s := NatText(n);
    if n < 10 {
      assert s[..0] == "";
    } else {
      NatTextValue(n / 10);
      assert s[..|s| - 1] == NatText(n / 10);
    }
  }

  /** `int.__repr__`. */
  function IntText(n: int): (s: string)
    ensures s != ""
  {
    if n < 0 then "-" + NatText(-n) else NatText(n)
  }

  /** Reads the text that `IntText` writes; anything else that is not a sign and digits is refused. */
  function IntValue(s: string): Option<int> {
    if s == "" then None
    else if s[0] == '-' then
      if |s| > 1 && AllDigits(s[1..]) then Some(-(NatValue(s[1..]) as int)) else None
    else if AllDigits(s) then Some(NatValue(s) as int)
    else None
  }

  lemma IntTextValue(n: int)
    ensures IntValue(IntText(n)) == Some(n)
  {
    hide NatText, NatValue;
    if n < 0 {
      assert IntText(n)[1..] == NatText(-n);
      NatTextValue(-n);
    } else {
      NatTextValue(n);
      assert IsDigit(NatText(n)[0]);
    }
  }

  // ------------------------------------------------- `str.strip` and `int`

  /** `str.isspace`, which `strip` and `int` use. */
  predicate IsSpace(c: char) {
    var n := c as int;
    9 <= n <= 13 || 28 <= n <= 32 || n == 0x85 || n == 0xA0 || n == 0x1680 || 0x2000 <= n <= 0x200A
    || n == 0x2028 || n == 0x2029 || n == 0x202F || n == 0x205F || n == 0x3000
  }

  function StripLeft(s: string): (r: string)
    ensures |r| <= |s| && forall c | c in r :: c in s
  {
    if s != "" && IsSpace(s[0]) then StripLeft(s[1..]) else s
  }

  function StripRight(s: string): (r: string)
    ensures |r| <= |s| && forall c | c in r :: c in s
  {
    if s != "" && IsSpace(s[|s| - 1]) then StripRight(s[..|s| - 1]) else s
  }

  function Strip(s: string): (r: string)
    ensures forall c | c in r :: c in s
  {
    StripRight(StripLeft(s))
  }

  /** Digits with single underscores between them. */
  predicate IntBody(s: string) {
    s != "" && IsDigit(s[0]) &&
    (|s| == 1 || IntBody(if s[1] == '_' then s[2..] else s[1..]))
  }

  function Digits(s: string): (d: string)
    ensures AllDigits(d)
  {
    if s == "" then "" else if IsDigit(s[0]) then [s[0]] + Digits(s[1..]) else Digits(s[1..])
  }

  /** `int(text)`; None is a ValueError. Digits are the ASCII ones. */
  function IntOf(text: string): Option<int> {
    var s := Strip(text);
    var signed := s != "" && (s[0] == '-' || s[0] == '+');
    var body := if signed then s[1..] else s;
    if !IntBody(body) then None
    else Some(if signed && s[0] == '-' then -(NatValue(Digits(body)) as int) else NatValue(Digits(body)) as int)
  }

  predicate AllSpaces(s: string) {
    forall i | 0 <= i < |s| :: IsSpace(s[i])
  }

  lemma {:induction false} StripLeftPadded(left: string, s: string)
    requires AllSpaces(left) && (s == "" || !IsSpace(s[0]))
    ensures StripLeft(left + s) == s
  {
    if left == "" {
      assert left + s == s;
    } else {
      StripLeftPadded(left[1..], s);
      assert (left + s)[1..] == left[1..] + s && (left + s)[0] == left[0];
    }
  }

  lemma {:induction false} StripRightPadded(s: string, right: string)
    requires AllSpaces(right) && (s == "" || !IsSpace(s[|s| - 1]))
    ensures StripRight(s + right) == s
  {
    if right == "" {
      assert s + right == s;
    } else {
      var n := |right| - 1;
      StripRightPadded(s, right[..n]);
      assert (s + right)[..|s + right| - 1] == s + right[..n] && (s + right)[|s + right| - 1] == right[n];
    }
  }

  /** Exactly the white space around a text is taken off. */
  lemma StripMeans(left: string, s: string, right: string)
    requires AllSpaces(left) && AllSpaces(right)
    requires s == "" || (!IsSpace(s[0]) && !IsSpace(s[|s| - 1]))
    ensures Strip(left + s + right) == s
  {
    if s == "" {
      assert left + s + right == (left + right) + "";
      StripLeftPadded(left + right, "");
      StripRightPadded("", "");
    } else {
      assert left + s + right == left + (s + right);
      StripLeftPadded(left, s + right);
      StripRightPadded(s, right);
    }
  }

  /** What `int` reads after the sign: digits, with single underscores between them. */
  lemma {:induction false} IntBodyMeans(s: string)
    ensures IntBody(s) <==>
            && s != "" && IsDigit(s[0]) && IsDigit(s[|s| - 1])
            && (forall i | 0 <= i < |s| :: IsDigit(s[i]) || s[i] == '_')
            && (forall i | 0 <= i < |s| - 1 :: IsDigit(s[i]) || IsDigit(s[i + 1]))
  {
    if |s| > 1 && IsDigit(s[0]) {
      var k := if s[1] == '_' then 2 else 1;
      var t := s[k..];
      IntBodyMeans(t);
      assert forall i | 0 <= i < |t| :: t[i] == s[i + k];
      if IntBody(t) {
        forall i | 0 <= i < |s| - 1
          ensures IsDigit(s[i]) || IsDigit(s[i + 1])
        {
          if i >= k {
            assert IsDigit(t[i - k]) || IsDigit(t[i - k + 1]);
          }
        }
        forall i | 0 <= i < |s|
          ensures IsDigit(s[i]) || s[i] == '_'
        {
          if i >= k {
            assert IsDigit(t[i - k]) || t[i - k] == '_';
          }
        }
      }
      if IsDigit(s[|s| - 1]) && (forall i | 0 <= i < |s| :: IsDigit(s[i]) || s[i] == '_') &&
         (forall i | 0 <= i < |s| - 1 :: IsDigit(s[i]) || IsDigit(s[i + 1])) {
        if k == 2 {
          assert IsDigit(s[1]) || IsDigit(s[2]);
        }
        assert t[|t| - 1] == s[|s| - 1];
        forall i | 0 <= i < |t| - 1
          ensures IsDigit(t[i]) || IsDigit(t[i + 1])
        {
          assert IsDigit(s[i + k]) || IsDigit(s[i + k + 1]);
        }
      }
    }
  }

  lemma {:induction false} DigitsJoin(a: string, b: string)
    ensures Digits(a + b) == Digits(a) + Digits(b) && Digits(a + "_" + b) == Digits(a) + Digits(b)
  {
    if a == "" {
      assert a + b == b && (a + "_" + b)[1..] == b;
    } else {
      assert (a + b)[1..] == a[1..] + b && (a + "_" + b)[1..] == a[1..] + "_" + b;
      DigitsJoin(a[1..], b);
    }
  }

  /**
   * `int` of a text: white space around it, one sign, and digits of which underscores may
   * stand between any two; the value is that of the digits alone.
   */
  lemma IntOfMeans(left: string, sign: string, body: string, right: string)
    requires AllSpaces(left) && AllSpaces(right) && (sign == "" || sign == "+" || sign == "-") && IntBody(body)
    ensures IntOf(left + sign + body + right) ==
            Some(if sign == "-" then -(NatValue(Digits(body)) as int) else NatValue(Digits(body)) as int)
  {
    hide Strip, IntBody, Digits, NatValue;
    IntBodyMeans(body);
    var s := sign + body;
    assert left + sign + body + right == left + s + right;
    assert !IsSpace(s[0]) && !IsSpace(s[|s| - 1]);
    StripMeans(left, s, right);
    if sign == "" {
      assert s == body && s[0] != '-' && s[0] != '+';
    } else {
      assert s[1..] == body && s[0] == sign[0];
    }
  }

  predicate NoSpaces(s: string) {
    forall c | c in s :: !IsSpace(c)
  }

  lemma StripNoSpaces(s: string)
    requires NoSpaces(s)
    ensures Strip(s) == s
  {
  }

  lemma {:induction false} DigitsAreBody(s: string)
    requires s != "" && AllDigits(s)
    ensures IntBody(s) && Digits(s) == s
  {
    if |s| > 1 {
      DigitsAreBody(s[1..]);
    } else {
      assert s[1..] == "";
    }
    assert s == [s[0]] + s[1..];
  }

  /** What `str` writes of a number, `int` reads. */
  lemma NumberReads(n: nat)
    ensures IntOf(NatText(n)) == Some(n) && '.' !in NatText(n) && NoSpaces(NatText(n))
  {
    var s := NatText(n);
    assert forall c | c in s :: IsDigit(c);
    StripNoSpaces(s);
    DigitsAreBody(s);
    NatTextValue(n);
    assert IsDigit(s[0]);
  }

  lemma MinusStrips(digits: string)
    requires AllDigits(digits)
    ensures Strip("-" + digits) == "-" + digits
  {
    var s := "-" + digits;
    assert forall i | 0 <= i < |s| :: IsDigit(s[i]) || s[i] == '-';
    StripNoSpaces(s);
  }

  lemma SignedReads(digits: string)
    requires digits != "" && AllDigits(digits)
    ensures IntOf("-" + digits) == Some(-(NatValue(digits) as int))
  {
    hide NatValue, Strip, IntBody, Digits;
    assert ("-" + digits)[1..] == digits;
    MinusStrips(digits);
    DigitsAreBody(digits);
  }

  /** What `str` writes of an int, `int` reads. */
  lemma IntReads(n: int)
    ensures IntOf(IntText(n)) == Some(n) && '.' !in IntText(n)
    ensures forall c | c in IntText(n) :: IsDigit(c) || c == '-'
  {
    hide IntOf, NatText;
    IntTextDigits(n);
    if n < 0 {
      NatTextValue(-n);
      SignedReads(NatText(-n));
    } else {
      NumberReads(n);
    }
  }

  lemma IntTextDigits(n: int)
    ensures forall c | c in IntText(n) :: IsDigit(c) || c == '-'
  {
    assert forall c | c in NatText(if n < 0 then -n else n) :: IsDigit(c);
  }

  // ------------------------------------------------------------ hexadecimal

  function HexChar(d: nat): (c: char)
    requires d < 16
    ensures HexDigit(c) == Some(d) && c != '.'
  {
    if d < 10 then '0' + d as char else 'a' + (d - 10) as char
  }

  function HexDigit(c: char): (d: Option<nat>)
    ensures d.Some? ==> d.value < 16
  {
    if '0' <= c <= '9' then Some((c - '0') as nat)
    else if 'a' <= c <= 'f' then Some((c - 'a') as nat + 10)
    else if 'A' <= c <= 'F' then Some((c - 'A') as nat + 10)
    else None
  }

  type Byte = n: nat | n < 256

  /** `bytes.hex()`. */
  function Hex(bytes: seq<Byte>): (s: string)
    ensures |s| == 2 * |bytes| && forall i | 0 <= i < |s| :: s[i] != '.'
  {
    if bytes == [] then ""
    else [HexChar(bytes[0] / 16), HexChar(bytes[0] % 16)] + Hex(bytes[1..])
  }

  lemma {:induction false} HexInjective(a: seq<Byte>, b: seq<Byte>)
    requires Hex(a) == Hex(b)
    ensures a == b
    decreases |a|
  {
    if a == [] {
      assert b == [];
    } else {
      assert b != [];
      var s := Hex(a);
      assert s[0] == HexChar(a[0] / 16) && s[0] == HexChar(b[0] / 16);
      assert s[1] == HexChar(a[0] % 16) && s[1] == HexChar(b[0] % 16);
      assert a[0] == b[0];
      assert s[2..] == Hex(a[1..]) && s[2..] == Hex(b[1..]);
      HexInjective(a[1..], b[1..]);
      assert a == [a[0]] + a[1..] && b == [b[0]] + b[1..];
    }
  }
}
