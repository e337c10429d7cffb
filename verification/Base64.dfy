/**
 * Base64 as in section 4 of RFC 4648. Reading is lenient, as in Python: characters outside
 * the alphabet are skipped, and reading stops at the padding that completes a group.
 */
module Base64 {
  import opened Wrappers
  import opened Text

  function Letter(n: nat): (c: char)
    requires n < 64
    ensures Sextet(c) == Some(n) && c != '=' && c < 128 as char
  {
    if n < 26 then 'A' + n as char
    else if n < 52 then 'a' + (n - 26) as char
    else if n < 62 then '0' + (n - 52) as char
    else if n == 62 then '+'
    else '/'
  }

  function Sextet(c: char): (n: Option<nat>)
    ensures n.Some? ==> n.value < 64
  {
    if 'A' <= c <= 'Z' then Some((c - 'A') as nat)
    else if 'a' <= c <= 'z' then Some((c - 'a') as nat + 26)
    else if '0' <= c <= '9' then Some((c - '0') as nat + 52)
    else if c == '+' then Some(62)
    else if c == '/' then Some(63)
    else None
  }

  function Encode(bytes: seq<Byte>): string {
    if |bytes| == 0 then ""
    else if |bytes| == 1 then [Letter(bytes[0] / 4), Letter(bytes[0] % 4 * 16), '=', '=']
    else if |bytes| == 2 then
      [Letter(bytes[0] / 4), Letter(bytes[0] % 4 * 16 + bytes[1] / 16), Letter(bytes[1] % 16 * 4), '=']
    else
      [Letter(bytes[0] / 4), Letter(bytes[0] % 4 * 16 + bytes[1] / 16),
       Letter(bytes[1] % 16 * 4 + bytes[2] / 64), Letter(bytes[2] % 64)] + Encode(bytes[3..])
  }

  /** How far a group of four letters has come, the bits left over from it, and the padding seen. */
  datatype Group = Group(place: nat, bits: nat, pads: nat) {
    predicate Valid() {
      && place < 4
      && bits < (if place == 0 then 1 else if place == 1 then 64 else if place == 2 then 16 else 4)
    }
  }

  const START: Group := Group(0, 0, 0)

  /** The byte that a letter completes, if it does, and the group after it. */
  function Step(g: Group, n: nat): (r: (seq<Byte>, Group))
    requires g.Valid() && n < 64
    ensures r.1.Valid()
  {
    match g.place
    case 0 => ([], Group(1, n, 0))
    case 1 => ([g.bits * 4 + n / 16], Group(2, n % 16, 0))
    case 2 => ([g.bits * 16 + n / 4], Group(3, n % 4, 0))
    case _ => ([g.bits * 64 + n], START)
  }

  function Read(text: string, g: Group): Option<seq<Byte>>
    requires g.Valid()
  {
    if text == "" then if g.place == 0 then Some([]) else None
    else if text[0] == '=' then
      if g.place >= 2 && g.place + g.pads + 1 >= 4 then Some([])
      else Read(text[1..], if g.place >= 2 then g.(pads := g.pads + 1) else g)
    else
      match Sextet(text[0])
      case None => Read(text[1..], g)
      case Some(n) =>
        var (out, next) := Step(g, n);
        match Read(text[1..], next)
        case None => None
        case Some(rest) => Some(out + rest)
  }

  /** `b64decode`; None is a ValueError. */
  function Decode(text: string): Option<seq<Byte>> {
    if forall i | 0 <= i < |text| :: text[i] < 128 as char then Read(text, START) else None
  }

  // ------------------------------------------------------------ round trip

  lemma ReadTail(n: nat, rest: string, g: Group)
    requires n < 64 && g.Valid()
    ensures Read([Letter(n)] + rest, g) ==
            match Read(rest, Step(g, n).1)
            case None => None
            case Some(bytes) => Some(Step(g, n).0 + bytes)
  {
    assert ([Letter(n)] + rest)[1..] == rest;
  }

  /** The letters of a group give back its bytes, two, one and no bits being left over. */
  lemma GroupSteps(a: Byte, b: Byte, c: Byte)
    ensures Step(START, a / 4) == ([], Group(1, a / 4, 0))
    ensures Step(Group(1, a / 4, 0), a % 4 * 16 + b / 16) == ([a], Group(2, b / 16, 0))
    ensures Step(Group(2, b / 16, 0), b % 16 * 4 + c / 64) == ([b], Group(3, c / 64, 0))
    ensures Step(Group(3, c / 64, 0), c % 64) == ([c], START)
  {
    assert a == a / 4 * 4 + a % 4;
    assert b == b / 16 * 16 + b % 16;
  }

  lemma Padding(b: nat, c: nat)
    requires b < 16 && c < 4
    ensures Read("==", Group(2, b, 0)) == Some([])
    ensures Read("=", Group(3, c, 0)) == Some([])
  {
    assert "=="[1..] == "=";
  }

  lemma {:induction false} EncodedIsAscii(bytes: seq<Byte>)
    ensures forall i | 0 <= i < |Encode(bytes)| :: Encode(bytes)[i] < 128 as char
  {
    if |bytes| > 2 {
      EncodedIsAscii(bytes[3..]);
    }
  }

  lemma {:induction false} ReadEncoded(bytes: seq<Byte>)
    ensures Read(Encode(bytes), START) == Some(bytes)
  {
    hide Read, Letter;
    if |bytes| == 0 {
      ReadNothing();
    } else if |bytes| == 1 {
      ReadSingle(bytes[0]);
      assert bytes == [bytes[0]];
    } else if |bytes| == 2 {
      ReadPair(bytes[0], bytes[1]);
      assert bytes == [bytes[0], bytes[1]];
    } else {
      ReadEncoded(bytes[3..]);
      ReadTriple(bytes[0], bytes[1], bytes[2], Encode(bytes[3..]), bytes[3..]);
      assert bytes == [bytes[0], bytes[1], bytes[2]] + bytes[3..];
    }
  }

  lemma ReadNothing()
    ensures Read("", START) == Some([])
  {
  }

  lemma ReadSingle(a: Byte)
    ensures Read([Letter(a / 4), Letter(a % 4 * 16), '=', '='], START) == Some([a])
  {
    hide Read, Letter, Step;
    GroupSteps(a, 0, 0);
    Padding(0, 0);
    var s1 := [Letter(a % 4 * 16)] + "==";
    ReadTail(a % 4 * 16, "==", Group(1, a / 4, 0));
    ReadTail(a / 4, s1, START);
    assert [Letter(a / 4), Letter(a % 4 * 16), '=', '='] == [Letter(a / 4)] + s1;
    assert [] + ([a] + []) == [a];
  }

  lemma ReadPair(a: Byte, b: Byte)
    ensures Read([Letter(a / 4), Letter(a % 4 * 16 + b / 16), Letter(b % 16 * 4), '='], START) == Some([a, b])
  {
    hide Read, Letter, Step;
    GroupSteps(a, b, 0);
    Padding(0, 0);
    var s2 := [Letter(b % 16 * 4)] + "=";
    var s1 := [Letter(a % 4 * 16 + b / 16)] + s2;
    ReadTail(b % 16 * 4, "=", Group(2, b / 16, 0));
    ReadTail(a % 4 * 16 + b / 16, s2, Group(1, a / 4, 0));
    ReadTail(a / 4, s1, START);
    assert [Letter(a / 4), Letter(a % 4 * 16 + b / 16), Letter(b % 16 * 4), '='] == [Letter(a / 4)] + s1;
    assert [] + ([a] + ([b] + [])) == [a, b];
  }

  lemma ReadTriple(a: Byte, b: Byte, c: Byte, rest: string, bytes: seq<Byte>)
    requires Read(rest, START) == Some(bytes)
    ensures Read([Letter(a / 4), Letter(a % 4 * 16 + b / 16), Letter(b % 16 * 4 + c / 64), Letter(c % 64)] + rest, START) ==
            Some([a, b, c] + bytes)
  {
    hide Read, Letter, Step;
    var s3 := [Letter(c % 64)] + rest;
    var s2 := [Letter(b % 16 * 4 + c / 64)] + s3;
    var s1 := [Letter(a % 4 * 16 + b / 16)] + s2;
    GroupSteps(a, b, c);
    ReadTail(c % 64, rest, Group(3, c / 64, 0));
    ReadTail(b % 16 * 4 + c / 64, s3, Group(2, b / 16, 0));
    ReadTail(a % 4 * 16 + b / 16, s2, Group(1, a / 4, 0));
    ReadTail(a / 4, s1, START);
    assert [Letter(a / 4), Letter(a % 4 * 16 + b / 16), Letter(b % 16 * 4 + c / 64), Letter(c % 64)] + rest ==
           [Letter(a / 4)] + s1;
    assert [] + ([a] + ([b] + ([c] + bytes))) == [a, b, c] + bytes;
  }

  /** Every byte string survives encoding. */
  lemma RoundTrip(bytes: seq<Byte>)
    ensures Decode(Encode(bytes)) == Some(bytes)
  {
    ReadEncoded(bytes);
    EncodedIsAscii(bytes);
  }

  // ---------------------------------------------------- what is tolerated

  lemma {:induction false} ReadSkips(s: string, c: char, t: string, g: Group)
    requires g.Valid() && Sextet(c).None? && c != '='
    ensures Read(s + [c] + t, g) == Read(s + t, g)
    decreases |s|
  {
    if s == "" {
      assert ("" + [c] + t)[1..] == t && "" + t == t;
    } else {
      var rest := s[1..];
      assert (s + [c] + t)[1..] == rest + [c] + t && (s + t)[1..] == rest + t;
      if s[0] == '=' {
        ReadSkips(rest, c, t, if g.place >= 2 then g.(pads := g.pads + 1) else g);
      } else if Sextet(s[0]).None? {
        ReadSkips(rest, c, t, g);
      } else {
        ReadSkips(rest, c, t, Step(g, Sextet(s[0]).value).1);
      }
    }
  }

  /** A line break, or any other ASCII character outside the alphabet, changes nothing; one beyond ASCII is refused. */
  lemma StrayCharacters(s: string, c: char, t: string)
    requires Sextet(c).None? && c != '='
    ensures Decode(s + [c] + t) == if c < 128 as char then Decode(s + t) else None
  {
    ReadSkips(s, c, t, START);
    var long, short := s + [c] + t, s + t;
    assert long[|s|] == c;
    forall i | 0 <= i < |short|
      ensures short[i] == long[if i < |s| then i else i + 1]
    {
    }
    forall i | 0 <= i < |long| && i != |s|
      ensures long[i] == short[if i < |s| then i else i - 1]
    {
    }
  }

  /** Padding may not be left out. */
  lemma UnpaddedIsRefused(bytes: seq<Byte>)
    requires |bytes| % 3 != 0
    ensures var pads := 3 - |bytes| % 3;
            |Encode(bytes)| >= pads && Decode(Encode(bytes)[..|Encode(bytes)| - pads]) == None
  {
    EncodedGroups(bytes);
    UnpaddedRead(bytes);
  }

  lemma {:induction false} UnpaddedRead(bytes: seq<Byte>)
    requires |bytes| % 3 != 0
    ensures var pads := 3 - |bytes| % 3;
            |Encode(bytes)| >= pads && Read(Encode(bytes)[..|Encode(bytes)| - pads], START) == None
  {
    hide Read, Letter, Step, Encode;
    EncodedLetters(bytes);
    if |bytes| == 1 {
      UnpaddedSingle(bytes[0]);
    } else if |bytes| == 2 {
      UnpaddedPair(bytes[0], bytes[1]);
    } else {
      var pads := 3 - |bytes| % 3;
      var a, b, c := bytes[0], bytes[1], bytes[2];
      var tail := Encode(bytes[3..]);
      UnpaddedRead(bytes[3..]);
      var rest := tail[..|tail| - pads];
      assert Encode(bytes)[..|Encode(bytes)| - pads] == Encode(bytes)[..4] + rest;
      FourRead(a, b, c, rest);
    }
  }

  lemma UnpaddedSingle(a: Byte)
    ensures Read([Letter(a / 4), Letter(a % 4 * 16)], START) == None
  {
    hide Read, Letter, Step;
    GroupSteps(a, 0, 0);
    EmptyGroupOnly(Group(2, 0, 0));
    ReadTail(a % 4 * 16, "", Group(1, a / 4, 0));
    ReadTail(a / 4, [Letter(a % 4 * 16)], START);
    assert [Letter(a % 4 * 16)] == [Letter(a % 4 * 16)] + "";
    assert [Letter(a / 4), Letter(a % 4 * 16)] == [Letter(a / 4)] + [Letter(a % 4 * 16)];
  }

  lemma UnpaddedPair(a: Byte, b: Byte)
    ensures Read([Letter(a / 4), Letter(a % 4 * 16 + b / 16), Letter(b % 16 * 4)], START) == None
  {
    hide Read, Letter, Step;
    GroupSteps(a, b, 0);
    EmptyGroupOnly(Group(3, 0, 0));
    var s2 := [Letter(b % 16 * 4)];
    var s1 := [Letter(a % 4 * 16 + b / 16)] + s2;
    ReadTail(b % 16 * 4, "", Group(2, b / 16, 0));
    ReadTail(a % 4 * 16 + b / 16, s2, Group(1, a / 4, 0));
    ReadTail(a / 4, s1, START);
    assert s2 == s2 + "";
    assert [Letter(a / 4), Letter(a % 4 * 16 + b / 16), Letter(b % 16 * 4)] == [Letter(a / 4)] + s1;
  }

  lemma EmptyGroupOnly(g: Group)
    requires g.Valid() && g.place != 0
    ensures Read("", g) == None
  {
  }

  lemma FourRead(a: Byte, b: Byte, c: Byte, rest: string)
    requires Read(rest, START) == None
    ensures Read([Letter(a / 4), Letter(a % 4 * 16 + b / 16), Letter(b % 16 * 4 + c / 64), Letter(c % 64)] + rest, START) == None
  {
    hide Read, Letter, Step;
    var s3 := [Letter(c % 64)] + rest;
    var s2 := [Letter(b % 16 * 4 + c / 64)] + s3;
    var s1 := [Letter(a % 4 * 16 + b / 16)] + s2;
    GroupSteps(a, b, c);
    ReadTail(c % 64, rest, Group(3, c / 64, 0));
    ReadTail(b % 16 * 4 + c / 64, s3, Group(2, b / 16, 0));
    ReadTail(a % 4 * 16 + b / 16, s2, Group(1, a / 4, 0));
    ReadTail(a / 4, s1, START);
    assert [Letter(a / 4), Letter(a % 4 * 16 + b / 16), Letter(b % 16 * 4 + c / 64), Letter(c % 64)] + rest ==
           [Letter(a / 4)] + s1;
  }

  // ------------------------------------------------------- what is written

  /** The letters are those of table 1 of RFC 4648, and no other character has a value. */
  lemma LettersAreTheAlphabet(n: nat, c: char)
    requires n < 64
    ensures Letter(0) == 'A' && Letter(25) == 'Z' && Letter(26) == 'a' && Letter(51) == 'z'
    ensures Letter(52) == '0' && Letter(61) == '9' && Letter(62) == '+' && Letter(63) == '/'
    ensures n != 25 && n != 51 && n < 61 ==> Letter(n + 1) as nat == Letter(n) as nat + 1
    ensures Sextet(c).Some? ==> c == Letter(Sextet(c).value)
  {
  }

  /** The number that three bytes make, 256 to a digit. */
  function GroupValue(a: nat, b: nat, c: nat): nat {
    a * 65536 + b * 256 + c
  }

  /**
   * Each group of three bytes is written as the four letters whose values, 64 to a digit, make
   * the number that the bytes make, 256 to a digit; one or two bytes at the end are filled up
   * with zero bits and padding. So the text has four characters for every three bytes begun.
   */
  lemma {:induction false} EncodedGroups(bytes: seq<Byte>)
    ensures |Encode(bytes)| == (|bytes| + 2) / 3 * 4
    ensures |bytes| >= 3 ==>
              var e := Encode(bytes);
              && Sextets(e[..4]).Some?
              && Sextets(e[..4]).value == GroupValue(bytes[0], bytes[1], bytes[2])
              && e[4..] == Encode(bytes[3..])
    ensures |bytes| == 2 ==>
              Sextets(Encode(bytes)[..3]) == Some(GroupValue(0, bytes[0], bytes[1]) * 4) && Encode(bytes)[3..] == "="
    ensures |bytes| == 1 ==> Sextets(Encode(bytes)[..2]) == Some(GroupValue(0, 0, bytes[0]) * 16) && Encode(bytes)[2..] == "=="
  {
    hide Encode, Sextets;
    EncodedLetters(bytes);
    if |bytes| > 2 {
      EncodedGroups(bytes[3..]);
      SextetsOfThree(bytes[0], bytes[1], bytes[2]);
    } else if |bytes| == 2 {
      SextetsOfTwo(bytes[0], bytes[1]);
    } else if |bytes| == 1 {
      SextetsOfOne(bytes[0] / 4, bytes[0] % 4 * 16);
    }
  }

  lemma EncodedLetters(bytes: seq<Byte>)
    ensures bytes == [] ==> Encode(bytes) == ""
    ensures |bytes| == 1 ==>
              |Encode(bytes)| == 4 && Encode(bytes)[2..] == "==" &&
              Encode(bytes)[..2] == [Letter(bytes[0] / 4), Letter(bytes[0] % 4 * 16)]
    ensures |bytes| == 2 ==>
              |Encode(bytes)| == 4 && Encode(bytes)[3..] == "=" &&
              Encode(bytes)[..3] == [Letter(bytes[0] / 4), Letter(bytes[0] % 4 * 16 + bytes[1] / 16), Letter(bytes[1] % 16 * 4)]
    ensures |bytes| >= 3 ==>
              |Encode(bytes)| >= 4 && Encode(bytes)[4..] == Encode(bytes[3..]) &&
              Encode(bytes)[..4] == [Letter(bytes[0] / 4), Letter(bytes[0] % 4 * 16 + bytes[1] / 16),
                                     Letter(bytes[1] % 16 * 4 + bytes[2] / 64), Letter(bytes[2] % 64)]
  {
    hide Letter;
  }

  /** The number that some letters make, 64 to a digit. */
  function Sextets(text: string): Option<nat> {
    if text == "" then Some(0)
    else
      match (Sextets(text[..|text| - 1]), Sextet(text[|text| - 1]))
      case (Some(high), Some(low)) => Some(high * 64 + low)
      case _ => None
  }

  lemma SextetsOfOne(m: nat, n: nat)
    requires m < 64 && n < 64
    ensures Sextets([Letter(m), Letter(n)]) == Some(m * 64 + n)
  {
    hide Letter, Sextet;
    assert [Letter(m)][..0] == "";
    assert Sextets([Letter(m)]) == Some(m);
    assert [Letter(m), Letter(n)][..1] == [Letter(m)];
  }

  lemma SextetsOfTwo(a: Byte, b: Byte)
    ensures Sextets([Letter(a / 4), Letter(a % 4 * 16 + b / 16), Letter(b % 16 * 4)]) == Some(GroupValue(0, a, b) * 4)
  {
    hide Letter, Sextet;
    var front := [Letter(a / 4), Letter(a % 4 * 16 + b / 16)];
    SextetsOfOne(a / 4, a % 4 * 16 + b / 16);
    assert [Letter(a / 4), Letter(a % 4 * 16 + b / 16), Letter(b % 16 * 4)][..2] == front;
  }

  lemma SextetsOfThree(a: Byte, b: Byte, c: Byte)
    ensures Sextets([Letter(a / 4), Letter(a % 4 * 16 + b / 16), Letter(b % 16 * 4 + c / 64), Letter(c % 64)]) ==
            Some(GroupValue(a, b, c))
  {
    hide Letter, Sextet;
    var third := b % 16 * 4 + c / 64;
    var pair := [Letter(a / 4), Letter(a % 4 * 16 + b / 16)];
    var front := pair + [Letter(third)];
    SextetsOfOne(a / 4, a % 4 * 16 + b / 16);
    assert front[..2] == pair;
    assert [Letter(a / 4), Letter(a % 4 * 16 + b / 16), Letter(third), Letter(c % 64)][..3] == front;
  }
}
