/**
 * What canonical JSON text looks like, beyond that it can be read back: strings stand as they
 * are, with the shortest escapes where one is needed.
 */
module CanonicalText {
  import opened Wrappers
  import opened Text
  import opened Json
  import opened JsonText
  import Utf8

  /** A string without quotes, backslashes and control characters prints as itself between quotes. */
  lemma PlainTextPrints(s: string, ff: FloatFormat)
    requires forall c | c in s :: c != '\"' && c != '\\' && c as int >= 0x20
    ensures Emit(Str(s), ff) == "\"" + s + "\""
    ensures CanonicalJson(Str(s), ff) == Success(Utf8.Encode("\"" + s + "\""))
  {
    PlainTextIsNotEscaped(s);
    hide Escape, Utf8.Encode;
  }

  lemma {:induction false} PlainTextIsNotEscaped(s: string)
    requires forall c | c in s :: c != '\"' && c != '\\' && c as int >= 0x20
    ensures Escape(s) == s
    decreases |s|
  {
    if s != "" {
      var tail := s[1..];
      assert s == [s[0]] + tail;
      assert s[0] in s && forall c | c in tail :: c in s;
      assert EscapeChar(s[0]) == [s[0]];
      hide EscapeChar;
      PlainTextIsNotEscaped(tail);
    }
  }

  lemma {:induction false} ShortestChars(t: string, s: string, rest: string)
    requires ParseChars(t) == Some((s, rest))
    ensures |Escape(s)| + 1 <= |t| - |rest|
    decreases |t|
  {
    if t[0] != QUOTE {
      var after := if t[0] == BACKSLASH then ParseEscape(t).value.1 else t[1..];
      ShortestChars(after, s[1..], rest);
      ShortestChar(t, s[0]);
    }
  }

  lemma ShortestChar(t: string, c: char)
    requires t != "" && t[0] != QUOTE
    requires if t[0] == BACKSLASH then ParseEscape(t).Some? && ParseEscape(t).value.0 == c else t[0] >= ' ' && t[0] == c
    ensures |EscapeChar(c)| <= if t[0] == BACKSLASH then |t| - |ParseEscape(t).value.1| else 1
  {
    EscapeLength(c);
    hide EscapeChar;
    if t[0] == BACKSLASH {
      ReadEscape(t);
    }
  }

  /** Two characters for those with a short escape, six for other control characters, one otherwise. */
  predicate Short(c: char) {
    c == QUOTE || c == BACKSLASH || c == '\n' || c == '\r' || c == '\t' || c == FORM_FEED || c == BACKSPACE
  }

  lemma EscapeLength(c: char)
    ensures |EscapeChar(c)| == if Short(c) then 2 else if c < ' ' then 6 else 1
  {
  }

  lemma ReadEscape(t: string)
    requires t != "" && t[0] == BACKSLASH && ParseEscape(t).Some?
    ensures || |t| - |ParseEscape(t).value.1| == 6
            || (|t| - |ParseEscape(t).value.1| == 2 && (Short(ParseEscape(t).value.0) || ParseEscape(t).value.0 == '/'))
  {
    hide HexDigit, Utf8.IsScalar;
  }

  /** No text that is read as a string is shorter than the printed one. */
  lemma StringIsShortest(t: string, s: string, ff: FloatFormat)
    requires Parse(t, ff) == Some(Str(s))
    ensures |Emit(Str(s), ff)| <= |t|
  {
    ShortestChars(t[1..], s, "");
  }

  /** Escapes are written with lower-case letters. */
  lemma {:induction false} EscapesAreLowerCase(s: string, ff: FloatFormat)
    requires forall c | c in s :: !('A' <= c <= 'Z')
    ensures forall c | c in Emit(Str(s), ff) :: !('A' <= c <= 'Z')
    decreases |s|
  {
    if s != "" {
      assert forall c | c in s[1..] :: c in s;
      assert s[0] in s;
      EscapesAreLowerCase(s[1..], ff);
      forall c | c in Escape(s[1..])
        ensures !('A' <= c <= 'Z')
      {
        assert c in Emit(Str(s[1..]), ff);
      }
      EscapedChar(s[0]);
    }
  }

  lemma EscapedChar(c: char)
    requires !('A' <= c <= 'Z')
    ensures forall x | x in EscapeChar(c) :: !('A' <= x <= 'Z')
  {
  }
}
