/**
 * `canonical_json`: a compact printer over sorted keys, UTF-8 encoded. A parser inverts the
 * printer, so the bytes determine the value up to key order. It reads the grammar of
 * sections 2 to 7 of RFC 8259 but for insignificant whitespace and `\u` escapes of surrogates,
 * neither of which the printer writes.
 *
 * `float.__repr__` and `float()` are foreign: they enter as a `FloatFormat`.
 */
module JsonText {
  import opened Wrappers
  import opened Text
  import opened Json
  import Utf8

  datatype FloatFormat = FloatFormat(text: Double -> string, read: string -> Option<Double>)

  predicate IsNumberChar(c: char) {
    IsDigit(c) || c == '-' || c == '+' || c == '.' || c == 'e' || c == 'E'
  }

  predicate NumberChars(s: string) {
    forall i | 0 <= i < |s| :: IsNumberChar(s[i])
  }

  function DigitRun(s: string): (n: nat)
    ensures n <= |s|
  {
    if s == "" || !IsDigit(s[0]) then 0 else 1 + DigitRun(s[1..])
  }

  predicate ExponentPart(s: string) {
    && |s| >= 2 && (s[0] == 'e' || s[0] == 'E')
    && var digits := if s[1] == '+' || s[1] == '-' then s[2..] else s[1..];
       digits != "" && AllDigits(digits)
  }

  /** What may follow the int of a number: a fraction, an exponent, both or neither. */
  predicate AfterInt(s: string) {
    || s == "" || ExponentPart(s)
    || (s[0] == '.' &&
        var n := DigitRun(s[1..]);
        n >= 1 && (s[1 + n..] == "" || ExponentPart(s[1 + n..])))
  }

  /** Section 6 of RFC 8259: an int without superfluous zeros, then fraction and exponent. */
  predicate JsonNumber(s: string) {
    var t := if s != "" && s[0] == '-' then s[1..] else s;
    var n := DigitRun(t);
    n >= 1 && (t[0] == '0' ==> n == 1) && AfterInt(t[n..])
  }

  predicate IsFinite(d: Double) {
    !d.Infinite? && !d.NotANumber?
  }

  /** Python's promise: `float(repr(x)) == x`, and `repr(x)` is a JSON number that never reads as an int. */
  ghost predicate Faithful(ff: FloatFormat) {
    forall d | IsDouble(d) && IsFinite(d) ::
      && NumberChars(ff.text(d)) && JsonNumber(ff.text(d))
      && IntValue(ff.text(d)) == None
      && ff.read(ff.text(d)) == Some(d)
  }

  /** `allow_nan=False` refuses a value that holds NaN or an infinity anywhere. */
  predicate FiniteNumbers(v: Value) {
    match v
    case Float(d) => IsFinite(d)
    case Arr(items) => forall i | 0 <= i < |items| :: FiniteNumbers(items[i])
    case Obj(ms) => forall i | 0 <= i < |ms| :: FiniteNumbers(ms[i].value)
    case _ => true
  }

  // ---------------------------------------------------------------- printer

  const QUOTE: char := '\"'
  const BACKSLASH: char := '\\'
  const BACKSPACE: char := 8 as char
  const FORM_FEED: char := 12 as char

  /** `json.encoder.ESCAPE_DCT`, the `ensure_ascii=False` table. */
  function EscapeChar(c: char): (t: string)
    ensures t != ""
  {
    if c == QUOTE then [BACKSLASH, QUOTE]
    else if c == BACKSLASH then [BACKSLASH, BACKSLASH]
    else if c == '\n' then [BACKSLASH, 'n']
    else if c == '\r' then [BACKSLASH, 'r']
    else if c == '\t' then [BACKSLASH, 't']
    else if c == FORM_FEED then [BACKSLASH, 'f']
    else if c == BACKSPACE then [BACKSLASH, 'b']
    else if c < ' ' then [BACKSLASH, 'u', '0', '0', HexChar(c as nat / 16), HexChar(c as nat % 16)]
    else [c]
  }

  function Escape(s: string): string {
    if s == "" then "" else EscapeChar(s[0]) + Escape(s[1..])
  }

  function Quote(s: string): string {
    [QUOTE] + Escape(s) + [QUOTE]
  }

  /** `json.dumps` with separators `,` and `:`, members in the order given. */
  function Emit(v: Value, ff: FloatFormat): string {
    match v
    case Null => "null"
    case Bool(b) => if b then "true" else "false"
    case Int(n) => IntText(n)
    case Float(d) => ff.text(d)
    case Str(s) => Quote(s)
    case Arr(items) => if items == [] then "[]" else "[" + EmitItems(items, ff) + "]"
    case Obj(ms) => if ms == [] then "{}" else "{" + EmitMembers(ms, ff) + "}"
  }

  function EmitItems(items: seq<Value>, ff: FloatFormat): string
    requires items != []
  {
    if |items| == 1 then Emit(items[0], ff)
    else Emit(items[0], ff) + "," + EmitItems(items[1..], ff)
  }

  function EmitMembers(ms: seq<Member>, ff: FloatFormat): string
    requires ms != []
  {
    var first := Quote(ms[0].key) + ":" + Emit(ms[0].value, ff);
    if |ms| == 1 then first else first + "," + EmitMembers(ms[1..], ff)
  }

  datatype JsonError = OutOfRangeFloat

  function CanonicalJson(v: Value, ff: FloatFormat): Result<seq<Byte>, JsonError> {
    if FiniteNumbers(v) then Success(Utf8.Encode(Emit(SortKeys(v), ff)))
    else Failure(OutOfRangeFloat)
  }

  // ----------------------------------------------------------------- parser

  function ParseEscape(s: string): (r: Option<(char, string)>)
    requires s != "" && s[0] == BACKSLASH
    ensures r.Some? ==> |r.value.1| < |s|
  {
    if |s| < 2 then None
    else if s[1] == QUOTE || s[1] == BACKSLASH || s[1] == '/' then Some((s[1], s[2..]))
    else if s[1] == 'n' then Some(('\n', s[2..]))
    else if s[1] == 'r' then Some(('\r', s[2..]))
    else if s[1] == 't' then Some(('\t', s[2..]))
    else if s[1] == 'f' then Some((FORM_FEED, s[2..]))
    else if s[1] == 'b' then Some((BACKSPACE, s[2..]))
    else if s[1] == 'u' && |s| >= 6 then
      match (HexDigit(s[2]), HexDigit(s[3]), HexDigit(s[4]), HexDigit(s[5]))
      case (Some(a), Some(b), Some(c), Some(d)) =>
        var n := ((a * 16 + b) * 16 + c) * 16 + d;
        if Utf8.IsScalar(n) then Some((n as char, s[6..])) else None
      case _ => None
    else None
  }

  /** Reads string content up to the closing quote. */
  function ParseChars(s: string): (r: Option<(string, string)>)
    ensures r.Some? ==> |r.value.1| < |s|
    decreases |s|
  {
    if s == "" then None
    else if s[0] == QUOTE then Some(("", s[1..]))
    else if s[0] == BACKSLASH then
      match ParseEscape(s)
      case None => None
      case Some((c, rest)) => Prepend(c, ParseChars(rest))
    else if s[0] < ' ' then None
    else Prepend(s[0], ParseChars(s[1..]))
  }

  function Prepend(c: char, r: Option<(string, string)>): (p: Option<(string, string)>)
    ensures p.Some? <==> r.Some?
    ensures p.Some? ==> p.value.1 == r.value.1
  {
    match r
    case None => None
    case Some((text, rest)) => Some(([c] + text, rest))
  }

  /** Length of the longest prefix made of number characters. */
  function NumberLength(s: string): (n: nat)
    ensures n <= |s|
  {
    if s == "" || !IsNumberChar(s[0]) then 0 else 1 + NumberLength(s[1..])
  }

  function ParseNumber(s: string, ff: FloatFormat): (r: Option<(Value, string)>)
    ensures r.Some? ==> |r.value.1| < |s|
  {
    var n := NumberLength(s);
    if !JsonNumber(s[..n]) then None
    else
      match IntValue(s[..n])
      case Some(i) => Some((Int(i), s[n..]))
      case None =>
        match ff.read(s[..n])
        case Some(d) => Some((Float(d), s[n..]))
        case None => None
  }

  function ParseLiteral(s: string, word: string, v: Value): (r: Option<(Value, string)>)
    requires word != ""
    ensures r.Some? ==> |r.value.1| < |s|
  {
    if word <= s then Some((v, s[|word|..])) else None
  }

  function ParseValue(s: string, ff: FloatFormat): (r: Option<(Value, string)>)
    ensures r.Some? ==> |r.value.1| < |s|
    decreases |s|, 1
  {
    if s == "" then None
    else if s[0] == 'n' then ParseLiteral(s, "null", Null)
    else if s[0] == 't' then ParseLiteral(s, "true", Bool(true))
    else if s[0] == 'f' then ParseLiteral(s, "false", Bool(false))
    else if s[0] == QUOTE then
      match ParseChars(s[1..])
      case None => None
      case Some((text, rest)) => Some((Str(text), rest))
    else if s[0] == '[' then
      if |s| > 1 && s[1] == ']' then Some((Arr([]), s[2..]))
      else
        match ParseItems(s[1..], ff)
        case None => None
        case Some((items, rest)) => Some((Arr(items), rest))
    else if s[0] == '{' then
      if |s| > 1 && s[1] == '}' then Some((Obj([]), s[2..]))
      else
        match ParseMembers(s[1..], ff)
        case None => None
        case Some((ms, rest)) => Some((Obj(ms), rest))
    else ParseNumber(s, ff)
  }

  /** One or more items, up to and including the closing bracket. */
  function ParseItems(s: string, ff: FloatFormat): (r: Option<(seq<Value>, string)>)
    ensures r.Some? ==> |r.value.1| < |s|
    decreases |s|, 2
  {
    match ParseValue(s, ff)
    case None => None
    case Some((v, rest)) =>
      if rest == "" then None
      else if rest[0] == ']' then Some(([v], rest[1..]))
      else if rest[0] == ',' then
        match ParseItems(rest[1..], ff)
        case None => None
        case Some((vs, end)) => Some(([v] + vs, end))
      else None
  }

  function ParseMember(s: string, ff: FloatFormat): (r: Option<(Member, string)>)
    ensures r.Some? ==> |r.value.1| < |s|
    decreases |s|, 2
  {
    if s == "" || s[0] != QUOTE then None
    else
      match ParseChars(s[1..])
      case None => None
      case Some((key, rest)) =>
        if rest == "" || rest[0] != ':' then None
        else
          match ParseValue(rest[1..], ff)
          case None => None
          case Some((v, end)) => Some((Member(key, v), end))
  }

  /** One or more members, up to and including the closing brace. */
  function ParseMembers(s: string, ff: FloatFormat): (r: Option<(seq<Member>, string)>)
    ensures r.Some? ==> |r.value.1| < |s|
    decreases |s|, 3
  {
    match ParseMember(s, ff)
    case None => None
    case Some((m, rest)) =>
      if rest == "" then None
      else if rest[0] == '}' then Some(([m], rest[1..]))
      else if rest[0] == ',' then
        match ParseMembers(rest[1..], ff)
        case None => None
        case Some((ms, end)) => Some(([m] + ms, end))
      else None
  }

  /** A whole document: one value and nothing after it. */
  function Parse(s: string, ff: FloatFormat): Option<Value> {
    match ParseValue(s, ff)
    case Some((v, "")) => Some(v)
    case _ => None
  }

  // ------------------------------------------- the parser inverts the printer

  lemma EscapeCharParses(c: char, rest: string)
    ensures ParseChars(EscapeChar(c) + rest) == Prepend(c, ParseChars(rest))
  {
    var t := EscapeChar(c) + rest;
    if |EscapeChar(c)| == 1 {
      assert t[1..] == rest;
    } else {
      assert t[|EscapeChar(c)|..] == rest;
      assert ParseEscape(t) == Some((c, rest));
    }
  }

  lemma {:induction false} EscapeParses(s: string, rest: string)
    ensures ParseChars(Escape(s) + [QUOTE] + rest) == Some((s, rest))
    decreases |s|
  {
    if s == "" {
      assert Escape(s) + [QUOTE] + rest == [QUOTE] + rest;
    } else {
      var tail := Escape(s[1..]) + [QUOTE] + rest;
      EscapeParses(s[1..], rest);
      EscapeCharParses(s[0], tail);
      assert Escape(s) + [QUOTE] + rest == EscapeChar(s[0]) + tail;
      assert s == [s[0]] + s[1..];
    }
  }

  /** What may follow a printed value inside a document. */
  predicate Ends(rest: string) {
    rest == "" || rest[0] == ',' || rest[0] == ']' || rest[0] == '}'
  }

  lemma {:induction false} NumberLengthIs(t: string, rest: string)
    requires NumberChars(t) && Ends(rest)
    ensures NumberLength(t + rest) == |t|
    decreases |t|
  {
    if t == "" {
      assert t + rest == rest;
    } else {
      assert (t + rest)[1..] == t[1..] + rest;
      NumberLengthIs(t[1..], rest);
    }
  }

  lemma {:induction false} DigitRunIs(s: string, rest: string)
    requires AllDigits(s) && (rest == "" || !IsDigit(rest[0]))
    ensures DigitRun(s + rest) == |s|
    decreases |s|
  {
    if s == "" {
      assert s + rest == rest;
    } else {
      assert (s + rest)[1..] == s[1..] + rest;
      DigitRunIs(s[1..], rest);
    }
  }

  lemma {:induction false} NoSuperfluousZero(n: nat)
    ensures NatText(n)[0] == '0' ==> n == 0
    ensures n == 0 ==> NatText(n) == "0"
  {
    if n >= 10 {
      NoSuperfluousZero(n / 10);
    }
  }

  /** A printed int starts a JSON number; on its own it is one. */
  lemma IntTextStarts(n: int, rest: string)
    requires AfterInt(rest) && (rest == "" || !IsDigit(rest[0]))
    ensures JsonNumber(IntText(n) + rest)
  {
    hide NatText, DigitRun, AfterInt;
    var digits := NatText(Abs(n));
    NoSuperfluousZero(Abs(n));
    DigitRunIs(digits, rest);
    assert IsDigit(digits[0]) && (digits + rest)[0] == digits[0];
    assert (digits + rest)[|digits|..] == rest;
    if n < 0 {
      assert IntText(n) + rest == "-" + (digits + rest);
      assert ("-" + (digits + rest))[1..] == digits + rest;
    } else {
      assert IntText(n) + rest == digits + rest;
    }
  }

  lemma IntTextShape(n: int)
    ensures NumberChars(IntText(n)) && JsonNumber(IntText(n))
  {
    IntTextStarts(n, "");
    assert IntText(n) + "" == IntText(n);
  }

  lemma NumberParses(t: string, rest: string, ff: FloatFormat)
    requires NumberChars(t) && t != "" && Ends(rest)
    ensures ParseValue(t + rest, ff) == ParseNumber(t + rest, ff)
    ensures NumberLength(t + rest) == |t| && (t + rest)[..|t|] == t && (t + rest)[|t|..] == rest
  {
    NumberLengthIs(t, rest);
    hide ParseNumber, NumberLength;
    assert (t + rest)[0] == t[0] && IsNumberChar(t[0]);
  }

  /** A printed value starts with none of the characters that could close or separate. */
  lemma EmitStarts(v: Value, ff: FloatFormat)
    requires Faithful(ff) && WellFormed(v) && FiniteNumbers(v)
    ensures Emit(v, ff) != "" && !Ends(Emit(v, ff))
  {
    match v
    case Int(n) => IntTextShape(n);
    case _ =>
  }

  lemma WordParses(word: string, v: Value, rest: string)
    requires word != ""
    ensures ParseLiteral(word + rest, word, v) == Some((v, rest))
  {
    assert (word + rest)[|word|..] == rest;
  }

  lemma EmitScalarParses(v: Value, rest: string, ff: FloatFormat)
    requires Faithful(ff) && WellFormed(v) && FiniteNumbers(v) && Ends(rest)
    requires !v.Arr? && !v.Obj?
    ensures ParseValue(Emit(v, ff) + rest, ff) == Some((v, rest))
  {
    var t := Emit(v, ff) + rest;
    match v
    case Null => WordParses("null", v, rest);
    case Bool(b) => WordParses(if b then "true" else "false", v, rest);
    case Int(n) =>
      IntTextShape(n);
      IntTextValue(n);
      NumberParses(IntText(n), rest, ff);
    case Float(d) =>
      NumberParses(ff.text(d), rest, ff);
    case Str(s) =>
      assert t[1..] == Escape(s) + [QUOTE] + rest;
      EscapeParses(s, rest);
  }

  /** Printing and then parsing gives back the value, members in the printed order. */
  lemma {:induction false} EmitParses(v: Value, rest: string, ff: FloatFormat)
    requires Faithful(ff) && WellFormed(v) && FiniteNumbers(v) && Ends(rest)
    ensures ParseValue(Emit(v, ff) + rest, ff) == Some((v, rest))
    decreases v, 0
  {
    if v.Arr? && v.items != [] {
      EmitItemsParse(v.items, rest, ff);
      EmitStarts(v.items[0], ff);
      BracketParses(v, rest, ff);
    } else if v.Obj? && v.members != [] {
      EmitMembersParse(v.members, rest, ff);
      BraceParses(v, rest, ff);
    } else if v.Arr? || v.Obj? {
      assert (Emit(v, ff) + rest)[2..] == rest;
    } else {
      EmitScalarParses(v, rest, ff);
    }
  }

  lemma BracketParses(v: Value, rest: string, ff: FloatFormat)
    requires v.Arr? && v.items != [] && Emit(v.items[0], ff) != "" && !Ends(Emit(v.items[0], ff))
    requires ParseItems(EmitItems(v.items, ff) + "]" + rest, ff) == Some((v.items, rest))
    ensures ParseValue(Emit(v, ff) + rest, ff) == Some((v, rest))
  {
    var t := Emit(v, ff) + rest;
    assert t[1..] == EmitItems(v.items, ff) + "]" + rest;
    assert t[1] == Emit(v.items[0], ff)[0];
  }

  lemma MembersStartQuoted(ms: seq<Member>, ff: FloatFormat)
    requires ms != []
    ensures EmitMembers(ms, ff) != "" && EmitMembers(ms, ff)[0] == QUOTE
  {
  }

  lemma BraceOpens(s: string, ff: FloatFormat)
    requires |s| > 1 && s[0] == '{' && s[1] == QUOTE && ParseMembers(s[1..], ff).Some?
    ensures ParseValue(s, ff) == Some((Obj(ParseMembers(s[1..], ff).value.0), ParseMembers(s[1..], ff).value.1))
  {
  }

  lemma BraceParses(v: Value, rest: string, ff: FloatFormat)
    requires v.Obj? && v.members != []
    requires ParseMembers(EmitMembers(v.members, ff) + "}" + rest, ff) == Some((v.members, rest))
    ensures ParseValue(Emit(v, ff) + rest, ff) == Some((v, rest))
  {
    var t := Emit(v, ff) + rest;
    MembersStartQuoted(v.members, ff);
    hide Quote, EmitMembers, ParseMembers, ParseValue;
    assert t[1..] == EmitMembers(v.members, ff) + "}" + rest;
    assert t[1] == QUOTE;
    BraceOpens(t, ff);
  }

  lemma {:induction false} EmitItemsParse(items: seq<Value>, rest: string, ff: FloatFormat)
    requires Faithful(ff) && items != []
    requires forall i | 0 <= i < |items| :: WellFormed(items[i]) && FiniteNumbers(items[i])
    ensures ParseItems(EmitItems(items, ff) + "]" + rest, ff) == Some((items, rest))
    decreases items, 1
  {
    var t := EmitItems(items, ff) + "]" + rest;
    if |items| == 1 {
      assert t == Emit(items[0], ff) + ("]" + rest);
      EmitParses(items[0], "]" + rest, ff);
      assert ("]" + rest)[1..] == rest;
      assert items == [items[0]];
    } else {
      var more := EmitItems(items[1..], ff) + "]" + rest;
      assert t == Emit(items[0], ff) + ("," + more);
      EmitParses(items[0], "," + more, ff);
      EmitItemsParse(items[1..], rest, ff);
      assert ("," + more)[1..] == more;
      assert items == [items[0]] + items[1..];
    }
  }

  lemma {:induction false} EmitMemberParses(m: Member, rest: string, ff: FloatFormat)
    requires Faithful(ff) && WellFormed(m.value) && FiniteNumbers(m.value) && Ends(rest)
    ensures ParseMember(Quote(m.key) + ":" + Emit(m.value, ff) + rest, ff) == Some((m, rest))
    decreases m, 1
  {
    hide Emit, ParseValue, ParseChars, Escape;
    var t := Quote(m.key) + ":" + Emit(m.value, ff) + rest;
    var value := Emit(m.value, ff) + rest;
    assert t[1..] == Escape(m.key) + [QUOTE] + (":" + value);
    EscapeParses(m.key, ":" + value);
    assert (":" + value)[1..] == value;
    EmitParses(m.value, rest, ff);
  }

  lemma {:induction false} EmitMembersParse(ms: seq<Member>, rest: string, ff: FloatFormat)
    requires Faithful(ff) && ms != []
    requires forall i | 0 <= i < |ms| :: WellFormed(ms[i].value) && FiniteNumbers(ms[i].value)
    ensures ParseMembers(EmitMembers(ms, ff) + "}" + rest, ff) == Some((ms, rest))
    decreases ms, 2
  {
    hide Emit, ParseMember, Quote;
    var t := EmitMembers(ms, ff) + "}" + rest;
    var first := Quote(ms[0].key) + ":" + Emit(ms[0].value, ff);
    if |ms| == 1 {
      assert t == first + ("}" + rest);
      EmitMemberParses(ms[0], "}" + rest, ff);
      assert ("}" + rest)[1..] == rest;
      assert ms == [ms[0]];
    } else {
      var more := EmitMembers(ms[1..], ff) + "}" + rest;
      assert t == first + ("," + more);
      EmitMemberParses(ms[0], "," + more, ff);
      EmitMembersParse(ms[1..], rest, ff);
      assert ("," + more)[1..] == more;
      assert ms == [ms[0]] + ms[1..];
    }
  }

  // ------------------------------------------------------ the canonical form

  lemma {:induction false} SortKeysKeepsShape(v: Value)
    requires WellFormed(v) && FiniteNumbers(v)
    ensures WellFormed(SortKeys(v)) && FiniteNumbers(SortKeys(v))
  {
    match v
    case Arr(items) =>
      forall i | 0 <= i < |items|
        ensures WellFormed(SortKeys(items[i])) && FiniteNumbers(SortKeys(items[i]))
      {
        SortKeysKeepsShape(items[i]);
      }
    case Obj(ms) =>
      var vs := SortValues(ms);
      forall i | 0 <= i < |ms|
        ensures WellFormed(vs[i].value) && FiniteNumbers(vs[i].value)
      {
        SortKeysKeepsShape(ms[i].value);
      }
      SortMembersAscending(vs);
      SortMembersSameElements(vs);
      var r := SortMembers(vs);
      forall i, j | 0 <= i < j < |r|
        ensures r[i].key != r[j].key
      {
        LessIrreflexive(r[i].key);
      }
      forall i | 0 <= i < |r|
        ensures WellFormed(r[i].value) && FiniteNumbers(r[i].value)
      {
        assert r[i] in vs;
      }
    case _ =>
  }

  /** Reading the canonical bytes back gives the value with its keys sorted. */
  lemma CanonicalRoundTrip(v: Value, ff: FloatFormat)
    requires Faithful(ff) && WellFormed(v) && FiniteNumbers(v)
    ensures CanonicalJson(v, ff).Success?
    ensures Utf8.Decode(CanonicalJson(v, ff).value).Some?
    ensures Parse(Utf8.Decode(CanonicalJson(v, ff).value).value, ff) == Some(SortKeys(v))
  {
    var t := Emit(SortKeys(v), ff);
    SortKeysKeepsShape(v);
    Utf8.RoundTrip(t);
    EmitParses(SortKeys(v), "", ff);
    assert t + "" == t;
  }

  /** Same bytes exactly when the values are equal up to key order. */
  lemma CanonicalForm(a: Value, b: Value, ff: FloatFormat)
    requires Faithful(ff) && WellFormed(a) && WellFormed(b) && FiniteNumbers(a) && FiniteNumbers(b)
    ensures CanonicalJson(a, ff) == CanonicalJson(b, ff) <==> Same(a, b)
  {
    SortKeysDecidesSame(a, b);
    CanonicalRoundTrip(a, ff);
    CanonicalRoundTrip(b, ff);
  }

  /** The refusal of NaN does not depend on key order either. */
  lemma {:induction false} SameFiniteNumbers(a: Value, b: Value)
    requires Same(a, b)
    ensures FiniteNumbers(a) <==> FiniteNumbers(b)
    decreases a
  {
    match a
    case Arr(xs) =>
      forall i | 0 <= i < |xs|
        ensures FiniteNumbers(xs[i]) <==> FiniteNumbers(b.items[i])
      {
        SameFiniteNumbers(xs[i], b.items[i]);
      }
    case Obj(ms) =>
      var ns := b.members;
      forall i, j | 0 <= i < |ms| && 0 <= j < |ns| && ms[i].key == ns[j].key
        ensures FiniteNumbers(ms[i].value) <==> FiniteNumbers(ns[j].value)
      {
        SameFiniteNumbers(ms[i].value, ns[j].value);
      }
      assert forall i | 0 <= i < |ms| :: HasKey(ns, ms[i].key);
      assert forall j | 0 <= j < |ns| :: HasKey(ms, ns[j].key);
    case _ =>
  }

  /** Whatever the float printer, values equal up to key order have the same canonical form. */
  lemma SameGivesSameBytes(a: Value, b: Value, ff: FloatFormat)
    requires WellFormed(a) && WellFormed(b) && Same(a, b)
    ensures CanonicalJson(a, ff) == CanonicalJson(b, ff)
  {
    SortKeysDecidesSame(a, b);
    SameFiniteNumbers(a, b);
  }

  // ------------------------------------------ faithful formats do exist

  function SampleText(d: Double): string {
    match d
    case Integral(i) => IntText(i) + ".0"
    case Fraction(m, k) => IntText(m) + "e" + IntText(k)
    case _ => "-0.0"
  }

  lemma IntTextInjective(a: int, b: int)
    requires IntText(a) == IntText(b)
    ensures a == b
  {
    IntTextValue(a);
    IntTextValue(b);
  }

  lemma IntTextChars(n: int)
    ensures forall i | 0 <= i < |IntText(n)| :: IsDigit(IntText(n)[i]) || IntText(n)[i] == '-'
  {
  }

  /** Around one occurrence of a character that neither side holds, both sides can be told apart. */
  lemma SplitUnique(a: string, b: string, c: string, d: string, mark: char)
    requires a + [mark] + b == c + [mark] + d
    requires mark !in a && mark !in c
    ensures a == c && b == d
  {
    var s := a + [mark] + b;
    assert s[|a|] == mark && s[|c|] == mark;
    assert forall i | 0 <= i < |a| :: s[i] == a[i];
    assert forall i | 0 <= i < |c| :: s[i] == c[i];
    assert |a| == |c|;
    assert a == s[..|a|] == c;
    assert b == s[|a| + 1..] == d;
  }

  lemma SampleTextInjective(d: Double, e: Double)
    requires IsFinite(d) && IsFinite(e) && SampleText(d) == SampleText(e)
    ensures d == e
  {
    FractionsHaveE(d);
    FractionsHaveE(e);
    match (d, e)
    case (Integral(i), Integral(j)) =>
      assert SampleText(d)[..|SampleText(d)| - 2] == IntText(i);
      assert SampleText(e)[..|SampleText(e)| - 2] == IntText(j);
      IntTextInjective(i, j);
    case (Fraction(m, k), Fraction(n, l)) =>
      IntTextChars(m);
      IntTextChars(n);
      SplitUnique(IntText(m), IntText(k), IntText(n), IntText(l), 'e');
      IntTextInjective(m, n);
      IntTextInjective(k, l);
    case (Integral(i), _) => IntegralIsNotNegativeZero(i);
    case (_, Integral(j)) => IntegralIsNotNegativeZero(j);
    case _ =>
  }

  lemma IntegralIsNotNegativeZero(i: int)
    ensures SampleText(Integral(i)) != SampleText(NegativeZero)
  {
    if i < 0 {
      NoSuperfluousZero(-i);
      assert SampleText(Integral(i))[1] == NatText(-i)[0];
    } else {
      assert IsDigit(NatText(i)[0]);
      assert SampleText(Integral(i))[0] == NatText(i)[0];
    }
  }

  lemma FractionsHaveE(d: Double)
    ensures 'e' in SampleText(d) <==> d.Fraction?
  {
    match d
    case Integral(i) => IntTextChars(i);
    case Fraction(m, k) => assert SampleText(d)[|IntText(m)|] == 'e';
    case _ =>
  }

  lemma NotAnInt(s: string, i: nat)
    requires 1 <= i < |s| && !IsDigit(s[i])
    ensures IntValue(s) == None
  {
    assert s[1..][i - 1] == s[i];
  }

  lemma SampleTextIsNumber(d: Double)
    ensures NumberChars(SampleText(d)) && JsonNumber(SampleText(d)) && IntValue(SampleText(d)) == None
  {
    hide JsonNumber, IntValue, IntText;
    match d
    case Integral(i) =>
      IntTextChars(i);
      AfterPoint();
      IntTextStarts(i, ".0");
      NotAnInt(SampleText(d), |IntText(i)|);
    case Fraction(m, k) =>
      IntTextChars(m);
      IntTextChars(k);
      AfterE(k);
      IntTextStarts(m, "e" + IntText(k));
      assert IntText(m) + ("e" + IntText(k)) == SampleText(d);
      NotAnInt(SampleText(d), |IntText(m)|);
    case _ =>
      NegativeZeroIsNumber();
      NotAnInt("-0.0", 2);
  }

  lemma AfterE(k: nat)
    ensures AfterInt("e" + IntText(k))
  {
    assert ("e" + IntText(k))[1..] == IntText(k);
    assert IsDigit(IntText(k)[0]);
  }

  lemma NegativeZeroIsNumber()
    ensures NumberChars("-0.0") && JsonNumber("-0.0")
  {
    AfterPoint();
    assert "-0.0"[1..] == "0" + ".0";
    DigitRunIs("0", ".0");
    assert "-0.0"[1..][1..] == ".0";
  }

  lemma AfterPoint()
    ensures AfterInt(".0")
  {
    assert ".0"[1..] == "0" + "";
    DigitRunIs("0", "");
    assert ".0"[2..] == "";
  }

  /** So what is proved of every faithful format is not proved of nothing. */
  lemma FaithfulFormatExists()
    ensures exists ff :: Faithful(ff)
  {
    var ff := FloatFormat(
      SampleText,
      s => if exists d :: IsFinite(d) && SampleText(d) == s
           then (var d :| IsFinite(d) && SampleText(d) == s; Some(d)) else None);
    forall d | IsDouble(d) && IsFinite(d)
      ensures NumberChars(ff.text(d)) && JsonNumber(ff.text(d)) && IntValue(ff.text(d)) == None
      ensures ff.read(ff.text(d)) == Some(d)
    {
      SampleTextIsNumber(d);
      forall e | IsFinite(e) && SampleText(e) == SampleText(d)
        ensures e == d
      {
        SampleTextInjective(d, e);
      }
    }
    assert Faithful(ff);
  }
}
