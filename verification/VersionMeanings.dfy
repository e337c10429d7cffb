/**
 * What a version constraint denotes: a window of versions, and whether the code raises inside
 * it instead of answering True. The window is computed from the text.
 */
module VersionMeanings {
  import opened Wrappers
  import opened Text
  import opened Versions

  // --------------------------------------------------------------- windows

  /** A place between versions: before all of a major, just before one version, or at an end. */
  datatype Cut = Bottom | BeforeMajor(major: int) | At(v: Version) | Top

  predicate Leq(a: Cut, b: Cut) {
    match (a, b)
    case (Bottom, _) => true
    case (_, Top) => true
    case (BeforeMajor(i), BeforeMajor(j)) => i <= j
    case (BeforeMajor(i), At(v)) => i <= v.major
    case (At(v), BeforeMajor(j)) => v.major < j
    case (At(v), At(u)) => AtMost(v, u)
    case _ => false
  }

  function Max(a: Cut, b: Cut): Cut {
    if Leq(a, b) then b else a
  }

  function Min(a: Cut, b: Cut): Cut {
    if Leq(a, b) then a else b
  }

  /** The versions from `lo` up to, but not beyond, `hi`. */
  datatype Window = Window(lo: Cut, hi: Cut)

  const FULL: Window := Window(Bottom, Top)

  predicate In(v: Version, w: Window) {
    Leq(w.lo, At(v)) && !Leq(w.hi, At(v))
  }

  predicate Empty(w: Window) {
    Leq(w.hi, w.lo)
  }

  function Meet(w: Window, u: Window): Window {
    Window(Max(w.lo, u.lo), Min(w.hi, u.hi))
  }

  function Next(v: Version): Version {
    v.(patch := v.patch + 1)
  }

  function Previous(v: Version): Version {
    v.(patch := v.patch - 1)
  }

  function MajorWindow(major: int): Window {
    Window(BeforeMajor(major), BeforeMajor(major + 1))
  }

  lemma LeqOrder(a: Cut, b: Cut, c: Cut)
    ensures Leq(a, b) || Leq(b, a)
    ensures Leq(a, b) && Leq(b, c) ==> Leq(a, c)
    ensures Leq(a, b) && Leq(b, a) ==> a == b
  {
  }

  lemma MeetIsBoth(v: Version, w: Window, u: Window)
    ensures In(v, Meet(w, u)) <==> In(v, w) && In(v, u)
  {
    LeqOrder(w.lo, u.lo, At(v));
    LeqOrder(u.lo, w.lo, At(v));
    LeqOrder(w.hi, u.hi, At(v));
    LeqOrder(u.hi, w.hi, At(v));
  }

  /** A version in a window that is not empty. */
  function Inhabitant(w: Window): (v: Version)
    requires !Empty(w)
    ensures In(v, w)
  {
    match w.lo
    case At(v) => v
    case BeforeMajor(i) => if w.hi.At? && i == w.hi.v.major then Previous(w.hi.v) else Version(i, 0, 0)
    case _ =>
      match w.hi
      case At(u) => Previous(u)
      case BeforeMajor(j) => Version(j - 1, 0, 0)
      case _ => Version(0, 0, 0)
  }

  lemma NothingInEmpty(w: Window, v: Version)
    requires Empty(w)
    ensures !In(v, w)
  {
    LeqOrder(w.hi, w.lo, At(v));
  }

  /** What one window has and another has not, when its lower cut is lower. */
  lemma LowerCutTells(w: Window, u: Window) returns (v: Version)
    requires !Empty(w) && !Leq(u.lo, w.lo)
    ensures In(v, w) && !In(v, u)
  {
    var gap := Window(w.lo, Min(u.lo, w.hi));
    LeqOrder(u.lo, w.lo, w.lo);
    v := Inhabitant(gap);
    LeqOrder(u.lo, w.hi, At(v));
    LeqOrder(w.hi, u.lo, At(v));
    LeqOrder(u.lo, At(v), At(v));
  }

  lemma UpperCutTells(w: Window, u: Window) returns (v: Version)
    requires !Empty(w) && !Leq(w.hi, u.hi)
    ensures In(v, w) && !In(v, u)
  {
    var gap := Window(Max(u.hi, w.lo), w.hi);
    LeqOrder(u.hi, w.lo, w.hi);
    v := Inhabitant(gap);
    LeqOrder(u.hi, w.lo, At(v));
    LeqOrder(w.lo, u.hi, At(v));
  }

  // -------------------------------------------------------------- meanings

  /** The versions that the code gets to, and whether it raises there. */
  datatype Meaning = Meaning(window: Window, raises: bool)

  function Answer(v: Version, m: Meaning): Option<bool> {
    if !In(v, m.window) then Some(false) else if m.raises then None else Some(true)
  }

  /** First `a`; then, where it holds, `b`. */
  function Then(a: Meaning, b: Meaning): Meaning {
    if a.raises then a else Meaning(Meet(a.window, b.window), b.raises)
  }

  lemma ThenIsBoth(v: Version, a: Meaning, b: Meaning)
    ensures Answer(v, Then(a, b)) == Both(Answer(v, a), Answer(v, b))
  {
    MeetIsBoth(v, a.window, b.window);
  }

  /** The same cuts and the same way to end, or nothing inside either. */
  predicate Equivalent(a: Meaning, b: Meaning) {
    a == b || (Empty(a.window) && Empty(b.window))
  }

  /** Meanings that are not equivalent are told apart by a version. */
  lemma Told(a: Meaning, b: Meaning) returns (v: Version)
    requires !Equivalent(a, b)
    ensures Answer(v, a) != Answer(v, b)
  {
    var w, u := a.window, b.window;
    LeqOrder(w.lo, u.lo, u.lo);
    LeqOrder(w.hi, u.hi, u.hi);
    if Empty(w) {
      v := Inhabitant(u);
      NothingInEmpty(w, v);
    } else if Empty(u) {
      v := Inhabitant(w);
      NothingInEmpty(u, v);
    } else if !Leq(u.lo, w.lo) {
      v := LowerCutTells(w, u);
    } else if !Leq(w.lo, u.lo) {
      v := LowerCutTells(u, w);
    } else if !Leq(w.hi, u.hi) {
      v := UpperCutTells(w, u);
    } else if !Leq(u.hi, w.hi) {
      v := UpperCutTells(u, w);
    } else {
      v := Inhabitant(w);
    }
  }

  lemma EquivalentAnswers(a: Meaning, b: Meaning, v: Version)
    requires Equivalent(a, b)
    ensures Answer(v, a) == Answer(v, b)
  {
    if a != b {
      NothingInEmpty(a.window, v);
      NothingInEmpty(b.window, v);
    }
  }

  // -------------------------------------------------- what the texts denote

  /** The window of one comparison. */
  function ComparisonWindow(c: string): Window {
    if StartsWith(c, ">=") then Window(At(ParseVersion(c[2..])), Top)
    else if StartsWith(c, "<=") then Window(Bottom, At(Next(ParseVersion(c[2..]))))
    else if StartsWith(c, ">") then Window(At(Next(ParseVersion(c[1..]))), Top)
    else if StartsWith(c, "<") then Window(Bottom, At(ParseVersion(c[1..])))
    else Window(At(ParseVersion(c)), At(Next(ParseVersion(c))))
  }

  lemma ComparisonMeans(v: Version, c: string)
    ensures In(v, ComparisonWindow(c)) <==> Compares(v, c)
  {
    hide ParseVersion;
  }

  function WildcardMeaning(head: string): Meaning {
    match IntOf(head)
    case None => Meaning(FULL, true)
    case Some(major) => Meaning(MajorWindow(major), false)
  }

  lemma WildcardAnswers(v: Version, head: string)
    ensures Answer(v, WildcardMeaning(head)) == Wildcard(v, head)
  {
    hide IntOf;
  }

  /** What a constraint denotes. */
  function Means(constraint: string): Meaning
    decreases Commas(constraint), 0
  {
    if MatchesAll(constraint) then Meaning(FULL, false)
    else
      var c := Strip(constraint);
      if EndsWithX(c) then WildcardMeaning(Head(c))
      else if ',' in c then
        CommasCount(constraint);
        ListMeans(Split(c, ','))
      else Meaning(ComparisonWindow(c), false)
  }

  function ListMeans(parts: seq<string>): Meaning
    requires forall p | p in parts :: ',' !in p
    decreases 0, 1 + |parts|
  {
    if parts == [] then Meaning(FULL, false)
    else
      CommasCount(parts[0]);
      Then(Means(parts[0]), ListMeans(parts[1..]))
  }

  /** Every constraint, whatever its text, is answered by its window. */
  lemma {:induction false} ConstraintMeans(available: string, constraint: string)
    ensures Matches(available, constraint) == Answer(ParseVersion(available), Means(constraint))
    decreases Commas(constraint), 0
  {
    hide ParseVersion, ComparisonWindow, Compares, IntOf;
    if !MatchesAll(constraint) {
      var c := Strip(constraint);
      if EndsWithX(c) {
        WildcardAnswers(ParseVersion(available), Head(c));
      } else if ',' in c {
        CommasCount(constraint);
        ListAnswers(available, Split(c, ','));
      } else {
        ComparisonMeans(ParseVersion(available), c);
      }
    }
  }

  lemma {:induction false} ListAnswers(available: string, parts: seq<string>)
    requires forall p | p in parts :: ',' !in p
    ensures AllMatch(available, parts) == Answer(ParseVersion(available), ListMeans(parts))
    decreases 0, 1 + |parts|
  {
    if parts != [] {
      CommasCount(parts[0]);
      ConstraintMeans(available, parts[0]);
      ListAnswers(available, parts[1..]);
      ThenIsBoth(ParseVersion(available), Means(parts[0]), ListMeans(parts[1..]));
    }
  }

  /** Two constraints match the same versions, and raise on the same, exactly when their windows say so. */
  lemma SameConstraintsIff(c: string, d: string)
    ensures (forall a :: Matches(a, c) == Matches(a, d)) <==> Equivalent(Means(c), Means(d))
  {
    hide Matches, Means, Answer, Equivalent, ParseVersion, VersionText;
    if Equivalent(Means(c), Means(d)) {
      forall a
        ensures Matches(a, c) == Matches(a, d)
      {
        ConstraintMeans(a, c);
        ConstraintMeans(a, d);
        EquivalentAnswers(Means(c), Means(d), ParseVersion(a));
      }
    } else {
      var v := Told(Means(c), Means(d));
      VersionReads(v);
      ConstraintMeans(VersionText(v), c);
      ConstraintMeans(VersionText(v), d);
      assert Matches(VersionText(v), c) != Matches(VersionText(v), d);
    }
  }
}
