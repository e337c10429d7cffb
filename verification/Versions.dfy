/**
 * `capability.parse_version` and `version_matches`: a small constraint language over version
 * triples.
 */
module Versions {
  import opened Wrappers
  import opened Text

  datatype Version = Version(major: int, minor: int, patch: int)

  /** Tuple order. */
  predicate AtMost(a: Version, b: Version) {
    a.major < b.major || (a.major == b.major && (a.minor < b.minor || (a.minor == b.minor && a.patch <= b.patch)))
  }

  // --------------------------------------------------------------- texts

  function StripV(s: string): string {
    if s != "" && (s[0] == 'v' || s[0] == 'V') then StripV(s[1..]) else s
  }

  /** `s.split(sep)`: always at least one part, none of which holds the separator. */
  function Split(s: string, sep: char): (parts: seq<string>)
    ensures |parts| >= 1
    ensures forall p | p in parts :: sep !in p
  {
    if s == "" then [""]
    else
      var rest := Split(s[1..], sep);
      assert rest[0] in rest;
      if s[0] == sep then [""] + rest else [[s[0]] + rest[0]] + rest[1..]
  }

  // ------------------------------------------------------------- versions

  function ZeroX(s: string): (r: string)
    ensures |r| == |s|
  {
    seq(|s|, i requires 0 <= i < |s| => if s[i] == 'x' then '0' else s[i])
  }

  function VersionParts(text: string): seq<string> {
    Split(ZeroX(StripV(Strip(text))), '.')
  }

  function Component(parts: seq<string>, i: nat): int {
    if i < |parts| then IntOf(parts[i]).GetOr(0) else 0
  }

  function ParseVersion(text: string): Version {
    var parts := VersionParts(text);
    Version(Component(parts, 0), Component(parts, 1), Component(parts, 2))
  }

  /** `parse_version`: two loops, one over at most three parts and one that pads. */
  method ParseVersionLoop(text: string) returns (v: Version)
    ensures v == ParseVersion(text)
  {
    var parts := VersionParts(text);
    var nums: seq<int> := [];
    var i := 0;
    while i < |parts| && i < 3
      invariant 0 <= i <= 3 && i <= |parts| && |nums| == i
      invariant forall j | 0 <= j < i :: nums[j] == Component(parts, j)
    {
      nums := nums + [IntOf(parts[i]).GetOr(0)];
      i := i + 1;
    }
    while |nums| < 3
      invariant |nums| <= 3 && |nums| >= i && (i < 3 ==> i == |parts|)
      invariant forall j | 0 <= j < |nums| :: nums[j] == Component(parts, j)
    {
      nums := nums + [0];
    }
    return Version(nums[0], nums[1], nums[2]);
  }

  // ----------------------------------------------------------- constraints

  predicate EndsWithX(s: string) {
    |s| >= 2 && s[|s| - 2..] == ".x"
  }

  predicate StartsWith(s: string, prefix: string) {
    prefix <= s
  }

  function Commas(s: string): nat {
    if s == "" then 0 else (if s[0] == ',' then 1 else 0) + Commas(s[1..])
  }

  lemma {:induction false} CommasCount(s: string)
    ensures Commas(s) == 0 <==> ',' !in s
  {
    if s != "" {
      CommasCount(s[1..]);
      assert s == [s[0]] + s[1..];
    }
  }

  predicate MatchesAll(constraint: string) {
    constraint == "" || constraint == "*" || constraint == "any"
  }

  /** One comparison: no comma, not ending in ".x". */
  predicate Compares(v: Version, c: string) {
    if StartsWith(c, ">=") then AtMost(ParseVersion(c[2..]), v)
    else if StartsWith(c, "<=") then AtMost(v, ParseVersion(c[2..]))
    else if StartsWith(c, ">") then !AtMost(v, ParseVersion(c[1..]))
    else if StartsWith(c, "<") then !AtMost(ParseVersion(c[1..]), v)
    else v == ParseVersion(c)
  }

  /** The text before the first dot. */
  function Head(c: string): string {
    Split(c, '.')[0]
  }

  /** What a constraint that ends in ".x" asks for; None is the ValueError of a bad major. */
  function Wildcard(v: Version, head: string): Option<bool> {
    match IntOf(head)
    case None => None
    case Some(major) => Some(v.major == major)
  }

  /** `version_matches` with a string constraint; None is the ValueError of a bad ".x" major. */
  function Matches(available: string, constraint: string): Option<bool>
    decreases Commas(constraint), 0
  {
    if MatchesAll(constraint) then Some(true)
    else
      var c := Strip(constraint);
      if EndsWithX(c) then
        Wildcard(ParseVersion(available), Head(c))
      else if ',' in c then
        CommasCount(constraint);
        AllMatch(available, Split(c, ','))
      else Some(Compares(ParseVersion(available), c))
  }

  /** `all(...)`: stops at the first part that does not match, and raises only if it gets there. */
  function AllMatch(available: string, parts: seq<string>): Option<bool>
    requires forall p | p in parts :: ',' !in p
    decreases 0, 1 + |parts|
  {
    if parts == [] then Some(true)
    else
      CommasCount(parts[0]);
      Both(Matches(available, parts[0]), AllMatch(available, parts[1..]))
  }

  /** Short-circuit conjunction of answers that may raise. */
  function Both(a: Option<bool>, b: Option<bool>): Option<bool> {
    if a == Some(true) then b else a
  }

  /** `version_matches`: no constraint matches everything. */
  function VersionMatches(available: string, constraint: Option<string>): Option<bool> {
    match constraint
    case None => Some(true)
    case Some(c) => Matches(available, c)
  }

  // ------------------------------------------------------------ main results

  /**
   * A constraint denotes an interval of versions: if `a` and `c` match and `b` lies between
   * them, `b` matches too.
   */
  lemma {:induction false} ConstraintIsInterval(a: string, b: string, c: string, constraint: string)
    requires AtMost(ParseVersion(a), ParseVersion(b)) && AtMost(ParseVersion(b), ParseVersion(c))
    requires Matches(a, constraint) == Some(true) && Matches(c, constraint) == Some(true)
    ensures Matches(b, constraint) == Some(true)
    decreases Commas(constraint), 0
  {
    hide ParseVersion, Compares, AtMost;
    var k := Strip(constraint);
    if MatchesAll(constraint) {
    } else if EndsWithX(k) {
      MajorBetween(ParseVersion(a), ParseVersion(b), ParseVersion(c));
    } else if ',' in k {
      CommasCount(constraint);
      PartsAreIntervals(a, b, c, Split(k, ','));
    } else {
      ComparesConvex(ParseVersion(a), ParseVersion(b), ParseVersion(c), k);
    }
  }

  lemma MajorBetween(a: Version, b: Version, c: Version)
    requires AtMost(a, b) && AtMost(b, c)
    ensures a.major <= b.major <= c.major
  {
  }

  lemma ComparesConvex(a: Version, b: Version, c: Version, k: string)
    requires AtMost(a, b) && AtMost(b, c) && Compares(a, k) && Compares(c, k)
    ensures Compares(b, k)
  {
    hide ParseVersion;
  }

  lemma {:induction false} PartsAreIntervals(a: string, b: string, c: string, parts: seq<string>)
    requires forall p | p in parts :: ',' !in p
    requires AtMost(ParseVersion(a), ParseVersion(b)) && AtMost(ParseVersion(b), ParseVersion(c))
    requires AllMatch(a, parts) == Some(true) && AllMatch(c, parts) == Some(true)
    ensures AllMatch(b, parts) == Some(true)
    decreases 0, 1 + |parts|
  {
    if parts != [] {
      CommasCount(parts[0]);
      ConstraintIsInterval(a, b, c, parts[0]);
      PartsAreIntervals(a, b, c, parts[1..]);
    }
  }

  /** A version text that is not read as anything else. */
  predicate Plain(t: string) {
    && NoSpaces(t) && ',' !in t && !EndsWithX(t) && !MatchesAll(t)
    && (t == "" || (t[0] != '<' && t[0] != '>'))
  }

  lemma ReadAsComparison(available: string, c: string)
    requires NoSpaces(c) && ',' !in c && !EndsWithX(c) && !MatchesAll(c)
    ensures Matches(available, c) == Some(Compares(ParseVersion(available), c))
  {
    hide Strip, ParseVersion, Compares;
    StripNoSpaces(c);
  }

  predicate IsOperator(c: char) {
    c == '<' || c == '>' || c == '='
  }

  lemma PrefixedIsComparison(t: string, operator: string)
    requires Plain(t) && operator != "" && forall i | 0 <= i < |operator| :: IsOperator(operator[i])
    ensures NoSpaces(operator + t) && ',' !in operator + t
    ensures !EndsWithX(operator + t) && !MatchesAll(operator + t)
  {
    var c := operator + t;
    assert IsOperator(c[0]);
    forall x | x in c
      ensures !IsSpace(x) && x != ','
    {
      var i :| 0 <= i < |c| && c[i] == x;
      if i < |operator| {
        assert IsOperator(x);
      } else {
        assert t[i - |operator|] == x;
      }
    }
    PrefixedEnd(t, operator);
  }

  lemma PrefixedEnd(t: string, operator: string)
    requires !EndsWithX(t) && forall i | 0 <= i < |operator| :: IsOperator(operator[i])
    ensures !EndsWithX(operator + t)
  {
    var c := operator + t;
    if |t| >= 2 {
      assert c[|c| - 2..] == t[|t| - 2..];
    } else if |c| >= 2 {
      assert IsOperator(c[|c| - 2]);
      assert c[|c| - 2..][0] != ".x"[0];
    }
  }

  /** What each operator compares, on the version that the rest of the text denotes. */
  lemma Operators(v: Version, t: string)
    requires Plain(t) && (t == "" || t[0] != '=')
    ensures Compares(v, t) == (v == ParseVersion(t))
    ensures Compares(v, ">=" + t) == AtMost(ParseVersion(t), v)
    ensures Compares(v, "<=" + t) == AtMost(v, ParseVersion(t))
    ensures Compares(v, ">" + t) == !AtMost(v, ParseVersion(t))
    ensures Compares(v, "<" + t) == !AtMost(ParseVersion(t), v)
  {
    hide ParseVersion, AtMost, Plain;
    Prefixes(t);
  }

  lemma Prefixes(t: string)
    requires Plain(t) && (t == "" || t[0] != '=')
    ensures !StartsWith(t, ">=") && !StartsWith(t, "<=") && !StartsWith(t, ">") && !StartsWith(t, "<")
    ensures StartsWith(">=" + t, ">=") && (">=" + t)[2..] == t
    ensures !StartsWith("<=" + t, ">=") && StartsWith("<=" + t, "<=") && ("<=" + t)[2..] == t
    ensures !StartsWith(">" + t, ">=") && !StartsWith(">" + t, "<=") && StartsWith(">" + t, ">") && (">" + t)[1..] == t
    ensures !StartsWith("<" + t, ">=") && !StartsWith("<" + t, "<=") && !StartsWith("<" + t, ">")
    ensures StartsWith("<" + t, "<") && ("<" + t)[1..] == t
  {
    if t != "" {
      assert (">" + t)[1] == t[0] && ("<" + t)[1] == t[0];
    }
  }

  lemma PrefixedAnswer(available: string, t: string, operator: string)
    requires Plain(t) && (operator == ">=" || operator == "<=" || operator == ">" || operator == "<")
    ensures Matches(available, operator + t) == Some(Compares(ParseVersion(available), operator + t))
  {
    assert forall i | 0 <= i < |operator| :: IsOperator(operator[i]);
    hide Matches, Compares, ParseVersion, Plain, NoSpaces, EndsWithX, MatchesAll;
    PrefixedIsComparison(t, operator);
    ReadAsComparison(available, operator + t);
  }

  lemma OperatorAnswers(available: string, t: string)
    requires Plain(t) && (t == "" || t[0] != '=')
    ensures Matches(available, t) == Some(ParseVersion(available) == ParseVersion(t))
    ensures Matches(available, ">=" + t) == Some(AtMost(ParseVersion(t), ParseVersion(available)))
    ensures Matches(available, "<=" + t) == Some(AtMost(ParseVersion(available), ParseVersion(t)))
    ensures Matches(available, ">" + t) == Some(!AtMost(ParseVersion(available), ParseVersion(t)))
    ensures Matches(available, "<" + t) == Some(!AtMost(ParseVersion(t), ParseVersion(available)))
  {
    PlainIsComparison(t);
    hide ParseVersion, AtMost, Matches, Compares, Plain, NoSpaces, EndsWithX, MatchesAll;
    Operators(ParseVersion(available), t);
    ReadAsComparison(available, t);
    PrefixedAnswer(available, t, ">=");
    PrefixedAnswer(available, t, "<=");
    PrefixedAnswer(available, t, ">");
    PrefixedAnswer(available, t, "<");
  }

  lemma PlainIsComparison(t: string)
    requires Plain(t)
    ensures NoSpaces(t) && ',' !in t && !EndsWithX(t) && !MatchesAll(t)
  {
  }

  /**
   * What the operators mean to each other: exactly one of `<t`, `t` and `>t` matches, `>=` and
   * `<=` add equality, `>=t` is closed upward and `<=t` downward.
   */
  lemma OperatorsPartition(a: string, b: string, t: string)
    requires Plain(t) && (t == "" || t[0] != '=')
    ensures Matches(a, t).Some? && Matches(a, "<" + t).Some? && Matches(a, ">" + t).Some?
    ensures Matches(a, "<" + t).value ==> !Matches(a, t).value && !Matches(a, ">" + t).value
    ensures Matches(a, ">" + t).value ==> !Matches(a, t).value
    ensures Matches(a, "<" + t).value || Matches(a, t).value || Matches(a, ">" + t).value
    ensures Matches(a, ">=" + t) == Some(Matches(a, ">" + t).value || Matches(a, t).value)
    ensures Matches(a, "<=" + t) == Some(Matches(a, "<" + t).value || Matches(a, t).value)
    ensures Matches(t, t) == Some(true)
    ensures AtMost(ParseVersion(a), ParseVersion(b)) && Matches(a, ">=" + t) == Some(true) ==> Matches(b, ">=" + t) == Some(true)
    ensures AtMost(ParseVersion(a), ParseVersion(b)) && Matches(b, "<=" + t) == Some(true) ==> Matches(a, "<=" + t) == Some(true)
  {
    OperatorAnswers(a, t);
    OperatorAnswers(b, t);
    OperatorAnswers(t, t);
    hide Matches, ParseVersion;
  }

  lemma Regroup(x: string, rest: seq<string>, more: seq<string>)
    requires rest != []
    ensures [x] + (rest + more) == ([x] + rest) + more
    ensures (rest + more)[0] == rest[0]
    ensures [x] + (rest + more)[1..] == ([x] + rest[1..]) + more
  {
  }

  lemma {:induction false} SplitJoined(s: string, t: string, sep: char)
    ensures Split(s + [sep] + t, sep) == Split(s, sep) + Split(t, sep)
  {
    var joined := s + [sep] + t;
    if s == "" {
      assert joined == [sep] + t;
      assert joined[1..] == t;
    } else {
      var tail := s[1..];
      SplitJoined(tail, t, sep);
      assert joined[1..] == tail + [sep] + t && joined[0] == s[0];
      var rest, more := Split(tail, sep), Split(t, sep);
      assert Split(joined[1..], sep) == rest + more;
      Regroup(if s[0] == sep then "" else [s[0]] + rest[0], rest, more);
    }
  }

  lemma {:induction false} SplitWithout(s: string, sep: char)
    requires sep !in s
    ensures Split(s, sep) == [s]
  {
    if s != "" {
      SplitWithout(s[1..], sep);
      assert s == [s[0]] + s[1..];
    }
  }

  lemma {:induction false} AllMatchAppend(available: string, parts: seq<string>, more: seq<string>)
    requires forall p | p in parts + more :: ',' !in p
    ensures (forall p | p in parts :: ',' !in p) && (forall p | p in more :: ',' !in p)
    ensures AllMatch(available, parts + more) == Both(AllMatch(available, parts), AllMatch(available, more))
  {
    assert forall p | p in parts :: p in parts + more;
    assert forall p | p in more :: p in parts + more;
    if parts == [] {
      assert parts + more == more;
    } else {
      assert (parts + more)[1..] == parts[1..] + more;
      AllMatchAppend(available, parts[1..], more);
    }
  }

  /** Splitting at commas by hand, where the code would not take the ".x" branch first. */
  lemma SplitAgrees(available: string, c: string)
    requires NoSpaces(c) && !(EndsWithX(c) && ',' in c)
    ensures AllMatch(available, Split(c, ',')) == Matches(available, c)
  {
    StripNoSpaces(c);
    if ',' !in c {
      SplitWithout(c, ',');
      assert AllMatch(available, [c][1..]) == Some(true);
      assert AllMatch(available, [c]) == Both(Matches(available, c), Some(true));
    }
  }

  lemma NothingToStrip(s: string)
    requires NoSpaces(s) && s != "" && s[0] != 'v' && s[0] != 'V' && 'x' !in s
    ensures Strip(s) == s && StripV(s) == s && ZeroX(s) == s
    ensures Strip("v" + s) == "v" + s && StripV("v" + s) == s
  {
    StripNoSpaces(s);
    assert forall c | c in "v" + s :: c == 'v' || c in s;
    StripNoSpaces("v" + s);
    assert ("v" + s)[1..] == s;
    assert forall i | 0 <= i < |s| :: s[i] in s;
  }

  /** A version written out in decimal. */
  function VersionText(v: Version): string {
    IntText(v.major) + "." + (IntText(v.minor) + "." + IntText(v.patch))
  }

  /** `parse_version` reads it back, with or without a leading `v`. */
  lemma VersionReads(v: Version)
    ensures ParseVersion(VersionText(v)) == v && ParseVersion("v" + VersionText(v)) == v
  {
    hide IntOf, Split, StripV, ZeroX, Strip, IsSpace;
    var a, b, c := IntText(v.major), IntText(v.minor), IntText(v.patch);
    var text := a + "." + (b + "." + c);
    IntReads(v.major);
    IntReads(v.minor);
    IntReads(v.patch);
    VersionChars(a, b, c);
    hide IntText, NoSpaces;
    NothingToStrip(text);
    SplitJoined(a, b + "." + c, '.');
    SplitJoined(b, c, '.');
    SplitWithout(a, '.');
    SplitWithout(b, '.');
    SplitWithout(c, '.');
    assert Split(text, '.') == [a, b, c];
  }

  predicate IntChar(c: char) {
    IsDigit(c) || c == '-'
  }

  lemma VersionChars(a: string, b: string, c: string)
    requires a != "" && (forall x | x in a + b + c :: IntChar(x))
    ensures var text := a + "." + (b + "." + c);
            NoSpaces(text) && 'x' !in text && text != "" && text[0] != 'v' && text[0] != 'V'
  {
    var text := a + "." + (b + "." + c);
    assert forall x | x in a :: x in a + b + c;
    assert forall x | x in b :: x in a + b + c;
    assert forall x | x in c :: x in a + b + c;
    assert forall x | x in text :: IntChar(x) || x == '.';
    assert text[0] == a[0] && a[0] in a;
  }

  lemma MajorOf150()
    ensures ParseVersion("1.5.0").major == 1
  {
    var text := "1.5.0";
    StripNoSpaces(text);
    assert StripV(text) == text;
    assert ZeroX(text) == "1" + "." + "5.0";
    SplitJoined("1", "5.0", '.');
    SplitWithout("1", '.');
    OneDigit('1');
  }

  lemma OneDigit(c: char)
    requires IsDigit(c)
    ensures IntOf([c]) == Some(DigitValue(c))
  {
    StripNoSpaces([c]);
    assert Digits([c]) == [c] by { assert [c][1..] == ""; }
    assert [c][..0] == "";
    assert NatValue([c]) == DigitValue(c);
  }

  /** What any constraint without spaces that ends in ".x" means: its text before the first dot. */
  lemma WildcardMajor(available: string, constraint: string, head: string, tail: string)
    requires NoSpaces(constraint) && EndsWithX(constraint) && '.' !in head && constraint == head + "." + tail
    ensures Matches(available, constraint) ==
            Wildcard(ParseVersion(available), head)
  {
    StripNoSpaces(constraint);
    SplitJoined(head, tail, '.');
    SplitWithout(head, '.');
  }

  // ----------------------------------------------------- what texts denote

  /** No constraint, and the three texts that stand for none, match every version text. */
  lemma UnconstrainedMatches(available: string, constraint: Option<string>)
    requires constraint == None || constraint == Some("") || constraint == Some("*") || constraint == Some("any")
    ensures VersionMatches(available, constraint) == Some(true)
  {
  }

  /**
   * A version text is read part by part, after white space and any leading letters v: an `x`
   * is read as 0, and so is a part that is missing or no number; parts after the third are
   * not read.
   */
  lemma PartsRead(left: string, text: string, right: string, parts: seq<string>)
    requires AllSpaces(left) && AllSpaces(right)
    requires text == "" || (!IsSpace(text[0]) && !IsSpace(text[|text| - 1]) && text[0] != 'v' && text[0] != 'V')
    requires parts == Split(ZeroX(text), '.')
    ensures var v := ParseVersion(left + text + right);
            && (|parts| > 0 && IntOf(parts[0]).Some? ==> v.major == IntOf(parts[0]).value)
            && (|parts| > 1 && IntOf(parts[1]).Some? ==> v.minor == IntOf(parts[1]).value)
            && (|parts| > 2 && IntOf(parts[2]).Some? ==> v.patch == IntOf(parts[2]).value)
            && (IntOf(parts[0]).None? ==> v.major == 0)
            && (|parts| <= 1 || IntOf(parts[1]).None? ==> v.minor == 0)
            && (|parts| <= 2 || IntOf(parts[2]).None? ==> v.patch == 0)
  {
    StripMeans(left, text, right);
    assert StripV(text) == text;
    hide Strip, IntOf, Split, ZeroX, AllSpaces;
  }

  /** A leading v or V changes nothing. */
  lemma LeadingV(text: string)
    requires text == "" || !IsSpace(text[|text| - 1])
    requires text == "" || !IsSpace(text[0])
    ensures ParseVersion("v" + text) == ParseVersion(text) && ParseVersion("V" + text) == ParseVersion(text)
  {
    StripMeans("", text, "");
    assert "" + text + "" == text;
    forall s | s == "v" + text || s == "V" + text
      ensures Strip(s) == s && StripV(s) == StripV(text)
    {
      StripMeans("", s, "");
      assert "" + s + "" == s && s[1..] == text;
    }
    hide Strip, StripV, Split, IntOf;
  }

  /** White space around a constraint is not part of it. */
  lemma SpacesIgnored(available: string, left: string, c: string, right: string)
    requires AllSpaces(left) && AllSpaces(right)
    requires c != "" && !IsSpace(c[0]) && !IsSpace(c[|c| - 1]) && !MatchesAll(c)
    ensures Matches(available, left + c + right) == Matches(available, c)
  {
    StripMeans(left, c, right);
    StripMeans("", c, "");
    assert "" + c + "" == c;
    NeverAll(left, c, right);
    hide Strip, Compares, Split, IsSpace, MatchesAll, AllSpaces;
  }

  lemma NeverAll(left: string, c: string, right: string)
    requires AllSpaces(left) && AllSpaces(right)
    requires c != "" && !IsSpace(c[0]) && !IsSpace(c[|c| - 1]) && !MatchesAll(c)
    ensures !MatchesAll(left + c + right)
  {
    var s := left + c + right;
    if left == "" && right == "" {
      assert s == c;
    } else if left != "" {
      assert IsSpace(s[0]) && !IsSpace('*') && !IsSpace('a');
    } else {
      assert s[|s| - 1] == right[|right| - 1];
      assert IsSpace(s[|s| - 1]) && !IsSpace('*') && !IsSpace('y');
    }
  }

  /** Except that "any" with a space around it is read as the version 0.0.0. */
  lemma PaddedAnyIsAVersion(available: string)
    ensures Matches(available, " any") == Some(ParseVersion(available) == Version(0, 0, 0))
  {
    hide Strip, ParseVersion;
    AnyIsZero();
    StripMeans(" ", "any", "");
    assert " any" == " " + "any" + "";
    assert " any"[0] == ' ';
  }

  lemma AnyIsZero()
    ensures ParseVersion("any") == Version(0, 0, 0)
  {
    StripNoSpaces("any");
    assert StripV("any") == "any" && ZeroX("any") == "any";
    SplitWithout("any", '.');
    hide Split, StripV, ZeroX, Strip;
  }
}
