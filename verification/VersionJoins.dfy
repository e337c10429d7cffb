/**
 * Version constraints joined by a comma: what the joined text means, and when that is the
 * intersection of the two constraints.
 */
module VersionJoins {
  import opened Wrappers
  import opened Text
  import opened Versions
  import opened VersionMeanings

  // ------------------------------------------------- the meaning of a join

  lemma JoinedEnd(c: string, d: string)
    ensures EndsWithX(c + "," + d) <==> EndsWithX(d)
    ensures !MatchesAll(c + "," + d)
  {
    var joined := c + "," + d;
    assert joined[|c|] == ',';
    assert |d| >= 2 ==> joined[|joined| - 2..] == d[|d| - 2..];
    assert |d| == 1 ==> joined[|joined| - 2..][0] == ',';
    assert |d| == 0 && |joined| >= 2 ==> joined[|joined| - 2..][1] == ',';
  }

  lemma {:induction false} HeadIsPrefix(s: string)
    ensures Head(s) <= s
    ensures '.' !in s ==> Head(s) == s
  {
    if s != "" {
      HeadIsPrefix(s[1..]);
      assert s == [s[0]] + s[1..];
    }
  }

  /** The first dot of a joined text is the first dot of `c`, if `c` has one. */
  lemma {:induction false} HeadOfJoined(c: string, rest: string)
    ensures '.' in c ==> Head(c + rest) == Head(c)
    ensures '.' !in c ==> Head(c + rest) == c + Head(rest)
  {
    if c == "" {
      assert c + rest == rest;
    } else {
      HeadOfJoined(c[1..], rest);
      assert c == [c[0]] + c[1..];
      assert (c + rest)[1..] == c[1..] + rest;
    }
  }

  lemma {:induction false} IntBodyChars(s: string)
    requires IntBody(s)
    ensures forall c | c in s :: IsDigit(c) || c == '_'
  {
    if |s| > 1 {
      var rest := if s[1] == '_' then s[2..] else s[1..];
      IntBodyChars(rest);
      assert s == (if s[1] == '_' then s[..2] else s[..1]) + rest;
    }
  }

  /** An int text holds nothing but digits, underscores and a sign in front. */
  lemma NoIntWith(s: string, i: nat)
    requires NoSpaces(s) && i < |s| && !IsDigit(s[i]) && s[i] != '_' && (i == 0 ==> s[i] != '-' && s[i] != '+')
    ensures IntOf(s) == None
  {
    StripNoSpaces(s);
    var signed := s[0] == '-' || s[0] == '+';
    var body := if signed then s[1..] else s;
    assert s[i] in body by {
      assert signed ==> body[i - 1] == s[i];
    }
    if IntBody(body) {
      IntBodyChars(body);
    }
  }

  /**
   * What two constraints without spaces mean when a comma joins them. If the text ends in
   * ".x" it is one wildcard, on the text before the first dot of the whole; without a dot in
   * `c` that text holds the comma, and the code raises. Otherwise the parts of both are taken
   * one by one.
   */
  lemma JoinedMeans(available: string, c: string, d: string)
    requires NoSpaces(c) && NoSpaces(d)
    ensures Matches(available, c + "," + d) ==
            if EndsWithX(d) then (if '.' in c then Wildcard(ParseVersion(available), Head(c)) else None)
            else Both(AllMatch(available, Split(c, ',')), Matches(available, d))
  {
    hide ParseVersion;
    var joined := c + "," + d;
    assert joined[|c|] == ',';
    StripNoSpaces(joined);
    JoinedEnd(c, d);
    if EndsWithX(d) {
      WildcardOfJoined(available, c, d);
    } else {
      SplitJoined(c, d, ',');
      AllMatchAppend(available, Split(c, ','), Split(d, ','));
      SplitAgrees(available, d);
    }
  }

  lemma WildcardOfJoined(available: string, c: string, d: string)
    requires NoSpaces(c) && NoSpaces(d)
    ensures Wildcard(ParseVersion(available), Head(c + "," + d)) ==
            if '.' in c then Wildcard(ParseVersion(available), Head(c)) else None
  {
    hide ParseVersion;
    HeadOfJoined(c, "," + d);
    assert c + ("," + d) == c + "," + d;
    if '.' !in c {
      HeadOfJoined("", d);
      CommaHead(d);
      HeadIsPrefix(d);
      NoIntWith(c + ("," + Head(d)), |c|);
    }
  }

  lemma CommaHead(d: string)
    ensures Head("," + d) == "," + Head(d)
  {
    assert ("," + d)[1..] == d;
  }

  // ---------------------------------------------- when it is an intersection

  lemma WildcardMeans(available: string, c: string)
    requires NoSpaces(c) && EndsWithX(c)
    ensures Matches(available, c) == Wildcard(ParseVersion(available), Head(c))
    ensures Means(c) == WildcardMeaning(Head(c)) && !MatchesAll(c)
  {
    hide ParseVersion, Wildcard, Head, Strip;
    StripNoSpaces(c);
    assert |c| == 3 ==> c[2] == c[1..][1];
  }

  /** On this version the join is the intersection. */
  predicate Intersects(available: string, c: string, d: string) {
    Matches(available, c + "," + d) == Both(Matches(available, c), Matches(available, d))
  }

  /** The meaning of the joined text, by what it is read as. */
  function JoinMeaning(c: string, d: string): Meaning {
    if EndsWithX(d) then (if '.' in c then WildcardMeaning(Head(c)) else Meaning(FULL, true))
    else Then(ListMeans(Split(c, ',')), Means(d))
  }

  lemma JoinedAnswers(available: string, c: string, d: string)
    requires NoSpaces(c) && NoSpaces(d)
    ensures Matches(available, c + "," + d) == Answer(ParseVersion(available), JoinMeaning(c, d))
    ensures Both(Matches(available, c), Matches(available, d)) == Answer(ParseVersion(available), Then(Means(c), Means(d)))
  {
    hide Matches, AllMatch, ParseVersion, Split, NoSpaces, Head, Means, ListMeans, Wildcard, WildcardMeaning;
    JoinedMeans(available, c, d);
    WildcardAnswers(ParseVersion(available), Head(c));
    ListAnswers(available, Split(c, ','));
    ConstraintMeans(available, c);
    ConstraintMeans(available, d);
    ThenIsBoth(ParseVersion(available), ListMeans(Split(c, ',')), Means(d));
    ThenIsBoth(ParseVersion(available), Means(c), Means(d));
    FullAnswers(ParseVersion(available));
  }

  lemma FullAnswers(v: Version)
    ensures Answer(v, Meaning(FULL, true)) == None
  {
  }

  /**
   * On one version: the join is the intersection exactly when the version is inside both or
   * neither of the two windows, and, if inside, both raise or neither does.
   */
  lemma JoinedIsIntersectionIff(available: string, c: string, d: string)
    requires NoSpaces(c) && NoSpaces(d)
    ensures var v, joined, apart := ParseVersion(available), JoinMeaning(c, d), Then(Means(c), Means(d));
            Intersects(available, c, d) <==>
            && (In(v, joined.window) <==> In(v, apart.window))
            && (In(v, joined.window) ==> joined.raises == apart.raises)
  {
    hide Matches, ParseVersion, NoSpaces, Means, JoinMeaning, Then, In;
    JoinedAnswers(available, c, d);
  }

  /** The first part that does not match everything is a wildcard that cannot be read. */
  predicate RaisesAtOnce(parts: seq<string>) {
    parts != [] &&
    if MatchesAll(parts[0]) then RaisesAtOnce(parts[1..]) else EndsWithX(parts[0]) && IntOf(Head(parts[0])).None?
  }

  /** The part holds of every version of the major: it matches everything, is that wildcard, or a bound at another major. */
  predicate AcceptsMajor(p: string, major: int) {
    || MatchesAll(p)
    || (if EndsWithX(p) then IntOf(Head(p)) == Some(major)
        else if StartsWith(p, ">=") then ParseVersion(p[2..]).major < major
        else if StartsWith(p, "<=") then ParseVersion(p[2..]).major > major
        else if StartsWith(p, ">") then ParseVersion(p[1..]).major < major
        else if StartsWith(p, "<") then ParseVersion(p[1..]).major > major
        else false)
  }

  /** The int that the joined text starts with, up to its first dot. */
  function FirstMajor(c: string): Option<int> {
    if '.' in c then IntOf(Head(c)) else None
  }

  /**
   * Within `d`, the bounds of the parts and those of the wildcard: `kept` is what the wildcard
   * leaves of `d`. Parts that raise do so just there, where `d` raises too, or nowhere, and
   * nothing is kept; parts that do not leave of `d` what is kept.
   */
  predicate BoundsAgree(own: Meaning, d: Meaning, kept: Window) {
    if own.raises then (own.window == kept && d.raises) || (Empty(own.window) && Empty(kept))
    else Meet(own.window, d.window) == kept || (Empty(Meet(own.window, d.window)) && Empty(kept))
  }

  /** When a join of texts is always the intersection. */
  predicate JoinsCleanly(c: string, d: string) {
    var parts := Split(c, ',');
    if EndsWithX(d) then
      if EndsWithX(c) then IntOf(Head(c)).None? || IntOf(Head(d)) == IntOf(Head(c))
      else
        match FirstMajor(c)
        case None => RaisesAtOnce(parts) || ((forall i | 0 <= i < |parts| :: MatchesAll(parts[i])) && IntOf(Head(d)).None?)
        case Some(major) => IntOf(Head(d)) == Some(major) && forall i | 0 <= i < |parts| :: AcceptsMajor(parts[i], major)
    else if EndsWithX(c) && ',' in c then
      match IntOf(Head(c))
      case None => RaisesAtOnce(parts)
      case Some(major) => BoundsAgree(ListMeans(parts), Means(d), Meet(MajorWindow(major), Means(d).window))
    else true
  }

  /**
   * When a comma always intersects, for all constraints without spaces.
   *
   * Both end in ".x": the first wildcard cannot be read, or both have one major.
   *
   * Only the second does, so that the whole is read as one wildcard: if no int stands before
   * the first dot, then the first part of `c` that does not match everything raises anyway, or
   * all match everything and `d` raises; if an int does, `d` has that major and all parts of
   * `c` accept all of it.
   *
   * Only the first does, and it is a list, so that alone it is read as one wildcard: if that
   * cannot be read, its first part that does not match everything cannot either; otherwise
   * within `d` the bounds of its parts and those of the wildcard come to the same.
   *
   * In all other cases it always does.
   */
  lemma JoinedAlwaysIff(c: string, d: string)
    requires NoSpaces(c) && NoSpaces(d)
    ensures (forall a :: Intersects(a, c, d)) <==> JoinsCleanly(c, d)
  {
    hide Intersects, JoinMeaning, Means, Equivalent, ParseVersion, Then, NoSpaces, JoinsCleanly, VersionText;
    var joined, apart := JoinMeaning(c, d), Then(Means(c), Means(d));
    CleanlyIff(c, d);
    if Equivalent(joined, apart) {
      forall a
        ensures Intersects(a, c, d)
      {
        IntersectsIff(a, c, d);
        EquivalentAnswers(joined, apart, ParseVersion(a));
      }
    } else {
      var v := Told(joined, apart);
      VersionReads(v);
      IntersectsIff(VersionText(v), c, d);
      assert !Intersects(VersionText(v), c, d);
    }
  }

  lemma IntersectsIff(available: string, c: string, d: string)
    requires NoSpaces(c) && NoSpaces(d)
    ensures Intersects(available, c, d) <==>
            Answer(ParseVersion(available), JoinMeaning(c, d)) == Answer(ParseVersion(available), Then(Means(c), Means(d)))
  {
    hide Matches, ParseVersion, NoSpaces, Means, JoinMeaning, Then, Answer;
    JoinedAnswers(available, c, d);
  }

  // ------------------------------------------------- windows against texts

  lemma MeetFull(w: Window, u: Window)
    ensures Meet(w, FULL) == w && Meet(FULL, w) == w
    ensures Meet(w, u) == FULL <==> w == FULL && u == FULL
  {
  }

  /** One part: its meaning, whatever it is. */
  lemma PartMeans(p: string)
    requires NoSpaces(p) && ',' !in p
    ensures MatchesAll(p) ==> Means(p) == Meaning(FULL, false)
    ensures !MatchesAll(p) && EndsWithX(p) ==> Means(p) == WildcardMeaning(Head(p))
    ensures !MatchesAll(p) && !EndsWithX(p) ==> Means(p) == Meaning(ComparisonWindow(p), false) && Means(p).window != FULL
  {
    hide ParseVersion, Head, IntOf, MatchesAll, EndsWithX;
    StripNoSpaces(p);
  }

  lemma PartCovers(p: string, major: int)
    requires NoSpaces(p) && ',' !in p
    ensures Covers(Means(p), major) <==> AcceptsMajor(p, major)
  {
    hide ParseVersion, Head, IntOf, MatchesAll, EndsWithX, Means, StartsWith;
    PartMeans(p);
  }

  /** Every version of the major is answered True. */
  predicate Covers(m: Meaning, major: int) {
    !m.raises && Leq(m.window.lo, BeforeMajor(major)) && Leq(BeforeMajor(major + 1), m.window.hi)
  }

  lemma CoversBoth(a: Meaning, b: Meaning, major: int)
    ensures Covers(Then(a, b), major) <==> Covers(a, major) && Covers(b, major)
  {
    LeqOrder(a.window.lo, b.window.lo, BeforeMajor(major));
    LeqOrder(b.window.lo, a.window.lo, BeforeMajor(major));
    LeqOrder(BeforeMajor(major + 1), a.window.hi, b.window.hi);
    LeqOrder(BeforeMajor(major + 1), b.window.hi, a.window.hi);
  }

  ghost predicate Parts(parts: seq<string>) {
    forall i | 0 <= i < |parts| :: ',' !in parts[i] && NoSpaces(parts[i])
  }

  lemma {:induction false} ListCovers(parts: seq<string>, major: int)
    requires Parts(parts)
    ensures forall p | p in parts :: ',' !in p
    ensures Covers(ListMeans(parts), major) <==> forall i | 0 <= i < |parts| :: AcceptsMajor(parts[i], major)
    decreases |parts|
  {
    hide Means, AcceptsMajor, Then, Covers, NoSpaces;
    if parts == [] {
      EmptyCovers(major);
    } else {
      var rest := parts[1..];
      assert forall i | 0 <= i < |rest| :: rest[i] == parts[i + 1];
      PartCovers(parts[0], major);
      ListCovers(rest, major);
      CoversBoth(Means(parts[0]), ListMeans(rest), major);
      assert forall i | 0 < i < |parts| :: parts[i] == rest[i - 1];
    }
  }

  lemma EmptyCovers(major: int)
    ensures Covers(Meaning(FULL, false), major)
  {
  }

  /** A list is full exactly when all its parts match everything or it raises at once, and then it raises in the second case only. */
  lemma {:induction false} ListFull(parts: seq<string>)
    requires Parts(parts)
    ensures forall p | p in parts :: ',' !in p
    ensures ListMeans(parts) == Meaning(FULL, true) <==> RaisesAtOnce(parts)
    ensures ListMeans(parts) == Meaning(FULL, false) <==> forall i | 0 <= i < |parts| :: MatchesAll(parts[i])
    decreases |parts|
  {
    hide Means, MatchesAll, NoSpaces, EndsWithX, IntOf, Head, Meet;
    if parts != [] {
      var rest := parts[1..];
      assert forall i | 0 <= i < |rest| :: rest[i] == parts[i + 1];
      PartMeans(parts[0]);
      WildcardFull(Head(parts[0]));
      ListFull(rest);
      MeetFull(Means(parts[0]).window, ListMeans(rest).window);
      assert forall i | 0 < i < |parts| :: parts[i] == rest[i - 1];
    }
  }

  lemma WildcardFull(head: string)
    ensures WildcardMeaning(head).raises <==> IntOf(head).None?
    ensures WildcardMeaning(head).window == FULL <==> IntOf(head).None?
  {
    hide IntOf;
  }

  lemma {:induction false} SplitParts(c: string, sep: char)
    requires NoSpaces(c)
    ensures forall i | 0 <= i < |Split(c, sep)| :: sep !in Split(c, sep)[i] && NoSpaces(Split(c, sep)[i])
    ensures forall x | x in c && x != sep :: exists i | 0 <= i < |Split(c, sep)| :: x in Split(c, sep)[i]
  {
    var parts := Split(c, sep);
    assert forall i | 0 <= i < |parts| :: parts[i] in parts;
    if c != "" {
      var tail := c[1..];
      var rest := Split(tail, sep);
      SplitParts(tail, sep);
      assert c == [c[0]] + tail;
      assert c[0] in c;
      if c[0] == sep {
        assert forall i | 0 <= i < |rest| :: parts[i + 1] == rest[i];
      } else {
        assert parts[0] == [c[0]] + rest[0];
        assert forall i | 0 < i < |rest| :: parts[i] == rest[i];
      }
      forall x | x in c && x != sep
        ensures exists i | 0 <= i < |parts| :: x in parts[i]
      {
        if x in tail {
          var i :| 0 <= i < |rest| && x in rest[i];
          if c[0] == sep {
            assert x in parts[i + 1];
          } else {
            assert x in parts[i];
          }
        } else {
          assert x in parts[0];
        }
      }
    }
  }

  /** Unless it is a list that ends in ".x", a constraint is the list of its parts. */
  lemma MeansItsParts(c: string)
    requires NoSpaces(c) && !(EndsWithX(c) && ',' in c)
    ensures Means(c) == ListMeans(Split(c, ','))
  {
    StripNoSpaces(c);
    if ',' !in c {
      SplitWithout(c, ',');
      assert [c][1..] == [];
      MeetFull(Means(c).window, FULL);
    }
  }

  lemma PartsOf(c: string)
    requires NoSpaces(c)
    ensures Parts(Split(c, ','))
    ensures '.' in c ==> exists i | 0 <= i < |Split(c, ',')| :: !MatchesAll(Split(c, ',')[i])
  {
    SplitParts(c, ',');
    if '.' in c {
      var i :| 0 <= i < |Split(c, ',')| && '.' in Split(c, ',')[i];
      assert !MatchesAll(Split(c, ',')[i]);
    }
  }

  // What being equivalent comes to.

  lemma AgainstFull(a: Meaning, b: Meaning)
    ensures Equivalent(Meaning(FULL, true), Then(a, b)) <==>
            a == Meaning(FULL, true) || (a == Meaning(FULL, false) && b == Meaning(FULL, true))
  {
    MeetFull(a.window, b.window);
  }

  lemma AgainstMajor(major: int, a: Meaning, head: string)
    ensures Equivalent(Meaning(MajorWindow(major), false), Then(a, WildcardMeaning(head))) <==>
            Covers(a, major) && IntOf(head) == Some(major)
  {
    hide IntOf;
    if IntOf(head).Some? {
      var n := IntOf(head).value;
      LeqOrder(a.window.lo, BeforeMajor(n), BeforeMajor(major));
      LeqOrder(BeforeMajor(major + 1), BeforeMajor(n + 1), a.window.hi);
    }
  }

  lemma AgainstItself(head: string, other: string)
    ensures Equivalent(WildcardMeaning(head), Then(WildcardMeaning(head), WildcardMeaning(other))) <==>
            IntOf(head).None? || IntOf(other) == IntOf(head)
  {
    hide IntOf;
  }

  lemma CleanlyIff(c: string, d: string)
    requires NoSpaces(c) && NoSpaces(d)
    ensures Equivalent(JoinMeaning(c, d), Then(Means(c), Means(d))) <==> JoinsCleanly(c, d)
  {
    if EndsWithX(d) {
      WildcardSecond(c, d);
    } else if EndsWithX(c) && ',' in c {
      ListFirst(c, d);
    } else {
      MeansItsParts(c);
    }
  }

  lemma WildcardSecond(c: string, d: string)
    requires NoSpaces(c) && NoSpaces(d) && EndsWithX(d)
    ensures Equivalent(JoinMeaning(c, d), Then(Means(c), Means(d))) <==> JoinsCleanly(c, d)
  {
    hide Means, ListMeans, NoSpaces, Equivalent, Then, Head, IntOf, AcceptsMajor, RaisesAtOnce, Split;
    WildcardMeans("", d);
    WildcardFull(Head(d));
    PartsOf(c);
    var parts := Split(c, ',');
    if EndsWithX(c) {
      WildcardMeans("", c);
      assert c[|c| - 2] == '.';
      AgainstItself(Head(c), Head(d));
    } else {
      MeansItsParts(c);
      match FirstMajor(c) {
        case None =>
          FirstMajorMeans(c);
          ListFull(parts);
          AgainstFull(Means(c), Means(d));
        case Some(major) =>
          FirstMajorMeans(c);
          ListCovers(parts, major);
          AgainstMajor(major, Means(c), Head(d));
      }
    }
  }

  lemma FirstMajorMeans(c: string)
    ensures (if '.' in c then WildcardMeaning(Head(c)) else Meaning(FULL, true)) ==
            match FirstMajor(c)
            case None => Meaning(FULL, true)
            case Some(major) => Meaning(MajorWindow(major), false)
  {
    hide IntOf, Head;
  }

  lemma ListFirst(c: string, d: string)
    requires NoSpaces(c) && NoSpaces(d) && !EndsWithX(d) && EndsWithX(c) && ',' in c
    ensures Equivalent(JoinMeaning(c, d), Then(Means(c), Means(d))) <==> JoinsCleanly(c, d)
  {
    hide Means, ListMeans, NoSpaces, Equivalent, Then, Head, IntOf, RaisesAtOnce, Split, BoundsAgree;
    WildcardMeans("", c);
    assert c[|c| - 2] == '.';
    PartsOf(c);
    ListFull(Split(c, ','));
    if IntOf(Head(c)).None? {
      ThenRaises(Means(d));
      AgainstFull(ListMeans(Split(c, ',')), Means(d));
      EquivalentSymmetric(Then(ListMeans(Split(c, ',')), Means(d)), Meaning(FULL, true));
    } else {
      BoundsMean(ListMeans(Split(c, ',')), Means(d), IntOf(Head(c)).value);
    }
  }

  lemma BoundsMean(own: Meaning, d: Meaning, major: int)
    ensures Equivalent(Then(own, d), Then(Meaning(MajorWindow(major), false), d)) <==>
            BoundsAgree(own, d, Meet(MajorWindow(major), d.window))
  {
  }

  lemma ThenRaises(b: Meaning)
    ensures Then(Meaning(FULL, true), b) == Meaning(FULL, true)
  {
  }

  lemma EquivalentSymmetric(a: Meaning, b: Meaning)
    ensures Equivalent(a, b) <==> Equivalent(b, a)
  {
  }

  lemma OperatorHead(c: string)
    requires c != "" && c[0] != '.'
    ensures Head(c) != "" && Head(c)[0] == c[0]
  {
  }

  // ---------------------------------------------------------- failing inputs

  /**
   * A joined text that ends in ".x" is read as one ".x" constraint, so it is not an
   * intersection: "1.x,2.x" accepts 1.5.0, which "2.x" refuses.
   */
  lemma JoinedWildcardsAreNotIntersected()
    ensures Matches("1.5.0", "1.x,2.x") == Some(true)
    ensures Matches("1.5.0", "1.x") == Some(true) && Matches("1.5.0", "2.x") == Some(false)
  {
    hide ParseVersion, Split, Strip, IntOf, Matches;
    WildcardMajor("1.5.0", "1.x,2.x", "1", "x,2.x");
    WildcardMajor("1.5.0", "1.x", "1", "x");
    WildcardMajor("1.5.0", "2.x", "2", "x");
    MajorOf150();
    OneDigit('1');
    OneDigit('2');
  }

  /** A comparison joined with a wildcard raises for every version. */
  lemma ComparisonThenWildcardRaises(available: string, c: string, d: string)
    requires NoSpaces(c) && NoSpaces(d) && EndsWithX(d) && c != "" && (c[0] == '<' || c[0] == '>')
    ensures Matches(available, c + "," + d) == None
  {
    hide Matches, ParseVersion, IntOf;
    JoinedMeans(available, c, d);
    if '.' in c {
      HeadIsPrefix(c);
      OperatorHead(c);
      NoIntWith(Head(c), 0);
    }
  }

  /** Such as ">=1.2,2.x", of which each part can be answered. */
  lemma RangeThenWildcardRaises(available: string)
    ensures Matches(available, ">=1.2,2.x") == None
    ensures Both(Matches(available, ">=1.2"), Matches(available, "2.x")).Some?
  {
    hide Matches;
    assert ">=1.2" + "," + "2.x" == ">=1.2,2.x";
    ComparisonThenWildcardRaises(available, ">=1.2", "2.x");
    RangeAnswers(available);
    TwoAnswers(available);
  }

  lemma TwoAnswers(available: string)
    ensures Matches(available, "2.x").Some?
  {
    hide Matches, ParseVersion, IntOf;
    assert "2" + "." + "x" == "2.x";
    WildcardMajor(available, "2.x", "2", "x");
    OneDigit('2');
  }

  lemma RangeAnswers(available: string)
    ensures Matches(available, ">=1.2").Some?
  {
    hide Matches, ParseVersion, Compares;
    assert ">=1.2"[3..] == ".2";
    ReadAsComparison(available, ">=1.2");
  }

  /** A list that ends in ".x" is read part by part only when something follows it. */
  lemma ListThenRangeDiffers()
    ensures Matches("1.5.0", "1.x,2.x,>=1") == Some(false)
    ensures Both(Matches("1.5.0", "1.x,2.x"), Matches("1.5.0", ">=1")) == Some(true)
  {
    hide ParseVersion, IntOf, Matches, Split, AllMatch;
    assert "1.x,2.x" + "," + ">=1" == "1.x,2.x,>=1";
    JoinedWildcardsAreNotIntersected();
    WildcardParts();
    JoinedMeans("1.5.0", "1.x,2.x", ">=1");
    RangeHolds();
  }

  lemma WildcardParts()
    ensures AllMatch("1.5.0", Split("1.x,2.x", ',')) == Some(false)
  {
    JoinedWildcardsAreNotIntersected();
    hide ParseVersion, IntOf, Matches;
    assert "1.x" + "," + "2.x" == "1.x,2.x";
    SplitJoined("1.x", "2.x", ',');
    SplitWithout("1.x", ',');
    SplitWithout("2.x", ',');
    hide Split;
    assert ["1.x"] + ["2.x"] == ["1.x", "2.x"] && ["1.x", "2.x"][1..] == ["2.x"] && ["2.x"][1..] == [];
  }

  lemma RangeHolds()
    ensures Matches("1.5.0", ">=1") == Some(true)
  {
    OneAtMost();
    hide ParseVersion, Matches;
    ReadAsComparison("1.5.0", ">=1");
    assert ">=1"[2..] == "1";
  }

  lemma OneAtMost()
    ensures AtMost(ParseVersion("1"), ParseVersion("1.5.0"))
  {
    hide ParseVersion, VersionText;
    OneFiveZero();
    ParsedOne();
    VersionReads(Version(1, 5, 0));
  }

  lemma OneFiveZero()
    ensures VersionText(Version(1, 5, 0)) == "1.5.0"
  {
    assert IntText(1) == "1";
    assert IntText(5) == "5";
    assert IntText(0) == "0";
    hide IntText;
    assert "1" + "." + ("5" + "." + "0") == "1.5.0";
  }

  lemma ParsedOne()
    ensures ParseVersion("1") == Version(1, 0, 0)
  {
    hide Split, IntOf;
    StripNoSpaces("1");
    assert StripV("1") == "1" && ZeroX("1") == "1";
    SplitWithout("1", '.');
    OneDigit('1');
  }
}
