/** UTF-8 as in section 3 of RFC 3629: the last step of `canonical_json`. */
module Utf8 {
  import opened Wrappers
  import opened Text

  function EncodeChar(c: char): (bytes: seq<Byte>)
    ensures 1 <= |bytes| <= 4
  {
    var n := c as nat;
    if n < 0x80 then [n]
    else if n < 0x800 then [0xC0 + n / 64, 0x80 + n % 64]
    else if n < 0x10000 then [0xE0 + n / 4096, 0x80 + n / 64 % 64, 0x80 + n % 64]
    else [0xF0 + n / 262144, 0x80 + n / 4096 % 64, 0x80 + n / 64 % 64, 0x80 + n % 64]
  }

  function Encode(s: string): seq<Byte> {
    if s == "" then [] else EncodeChar(s[0]) + Encode(s[1..])
  }

  /** Number of bytes that a lead byte announces; None for a byte that leads nothing. */
  function SequenceLength(lead: Byte): (n: Option<nat>)
    ensures n.Some? ==> 1 <= n.value <= 4
  {
    if lead < 0x80 then Some(1)
    else if lead < 0xC0 then None
    else if lead < 0xE0 then Some(2)
    else if lead < 0xF0 then Some(3)
    else if lead < 0xF8 then Some(4)
    else None
  }

  /** The least code point that needs so many bytes. */
  function Least(length: nat): nat {
    if length <= 1 then 0 else if length == 2 then 0x80 else if length == 3 then 0x800 else 0x10000
  }

  /** All bytes but the first are continuation bytes, and the code point is a scalar that needs them all. */
  predicate WellFormedSequence(b: seq<Byte>)
    requires 1 <= |b| <= 4
  {
    && (forall i | 1 <= i < |b| :: 0x80 <= b[i] < 0xC0)
    && IsScalar(CodePoint(b)) && CodePoint(b) >= Least(|b|)
  }

  /** The code point that a complete byte sequence stands for. */
  function CodePoint(b: seq<Byte>): int
    requires 1 <= |b| <= 4
  {
    var n := seq(|b|, i requires 0 <= i < |b| => b[i] as int);
    if |b| == 1 then n[0]
    else if |b| == 2 then (n[0] - 0xC0) * 64 + (n[1] - 0x80)
    else if |b| == 3 then (n[0] - 0xE0) * 4096 + (n[1] - 0x80) * 64 + (n[2] - 0x80)
    else (n[0] - 0xF0) * 262144 + (n[1] - 0x80) * 4096 + (n[2] - 0x80) * 64 + (n[3] - 0x80)
  }

  predicate IsScalar(n: int) {
    0 <= n < 0xD800 || 0xE000 <= n < 0x110000
  }

  function Decode(bytes: seq<Byte>): Option<string>
    decreases |bytes|
  {
    if bytes == [] then Some("")
    else
      match SequenceLength(bytes[0])
      case None => None
      case Some(k) =>
        if |bytes| < k || !WellFormedSequence(bytes[..k]) then None
        else
          var n := CodePoint(bytes[..k]);
          match Decode(bytes[k..])
          case None => None
          case Some(rest) => Some([n as char] + rest)
  }

  /** Splitting a code point into groups of six bits loses nothing. */
  lemma SixBitGroups(n: nat)
    ensures n / 64 * 64 + n % 64 == n
    ensures n / 4096 == n / 64 / 64
    ensures n / 262144 == n / 4096 / 64
    ensures n / 4096 * 4096 + n / 64 % 64 * 64 + n % 64 == n
    ensures n / 262144 * 262144 + n / 4096 % 64 * 4096 + n / 64 % 64 * 64 + n % 64 == n
  {
    var q, r := n / 64, n / 4096;
    assert q == q / 64 * 64 + q % 64;
    assert r == r / 64 * 64 + r % 64;
  }

  lemma CharRoundTrip(c: char)
    ensures SequenceLength(EncodeChar(c)[0]) == Some(|EncodeChar(c)|)
    ensures CodePoint(EncodeChar(c)) == c as int && WellFormedSequence(EncodeChar(c))
  {
    SixBitGroups(c as nat);
  }

  /** Decoding inverts encoding on every string of Unicode scalar values. */
  lemma {:induction false} RoundTrip(s: string)
    ensures Decode(Encode(s)) == Some(s)
    decreases |s|
  {
    if s != "" {
      var head, tail := EncodeChar(s[0]), Encode(s[1..]);
      CharRoundTrip(s[0]);
      RoundTrip(s[1..]);
      assert (head + tail)[..|head|] == head && (head + tail)[|head|..] == tail;
      assert s == [s[0]] + s[1..];
    }
  }
}
