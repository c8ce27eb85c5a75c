/**
 String operations of the Rust standard library that the components share,
 stated on sequences of Unicode scalar values.
 */
module Text {
  /** `char::is_whitespace`: the Unicode White_Space property. */
  predicate IsWhitespace(c: char) {
    || '\t' <= c <= '\r' || c == ' ' || c == '\U{85}' || c == '\U{A0}' || c == '\U{1680}'
    || '\U{2000}' <= c <= '\U{200A}'
    || c == '\U{2028}' || c == '\U{2029}' || c == '\U{202F}' || c == '\U{205F}' || c == '\U{3000}'
  }

  /** `s.trim().is_empty()`: nothing but white space. */
  predicate Blank(s: string) {
    s == [] || (IsWhitespace(s[0]) && Blank(s[1..]))
  }

  function TrimStart(s: string): string {
    if s != [] && IsWhitespace(s[0]) then TrimStart(s[1..]) else s
  }

  function TrimEnd(s: string): string {
    if s != [] && IsWhitespace(s[|s| - 1]) then TrimEnd(s[..|s| - 1]) else s
  }

  /** `str::trim`. */
  function Trim(s: string): string {
    TrimEnd(TrimStart(s))
  }

  /** Neither end of `s` is white space: exactly the strings `trim` keeps. */
  predicate Trimmed(s: string) {
    s != [] ==> !IsWhitespace(s[0]) && !IsWhitespace(s[|s| - 1])
  }

  lemma {:induction false} TrimStartFacts(s: string)
    ensures |TrimStart(s)| <= |s| && TrimStart(s) == s[|s| - |TrimStart(s)|..]
    ensures TrimStart(s) == [] || !IsWhitespace(TrimStart(s)[0])
    ensures Blank(s) <==> TrimStart(s) == []
  {
    if s != [] && IsWhitespace(s[0]) {
      TrimStartFacts(s[1..]);
    }
  }

  lemma {:induction false} BlankSplit(s: string, t: string)
    ensures Blank(s + t) <==> Blank(s) && Blank(t)
  {
    if s == [] {
      assert s + t == t;
    } else {
      assert (s + t)[1..] == s[1..] + t;
      BlankSplit(s[1..], t);
    }
  }

  lemma {:induction false} TrimEndFacts(s: string)
    ensures |TrimEnd(s)| <= |s| && TrimEnd(s) == s[..|TrimEnd(s)|]
    ensures TrimEnd(s) == [] || !IsWhitespace(TrimEnd(s)[|TrimEnd(s)| - 1])
    ensures Blank(s) <==> TrimEnd(s) == []
  {
    if s != [] {
      var last := s[|s| - 1];
      assert s == s[..|s| - 1] + [last];
      BlankSplit(s[..|s| - 1], [last]);
      if IsWhitespace(last) {
        TrimEndFacts(s[..|s| - 1]);
      }
    }
  }

  /** `trim` yields a trimmed string, keeps exactly the trimmed ones, and empties exactly the blank ones. */
  lemma {:induction false} TrimFacts(s: string)
    ensures Trimmed(Trim(s))
    ensures Trim(s) == s <==> Trimmed(s)
    ensures Blank(s) <==> Trim(s) == []
    ensures Blank(Trim(s)) <==> Blank(s)
    ensures Trim(Trim(s)) == Trim(s)
  {
    TrimOnce(s);
    TrimOnce(Trim(s));
  }

  lemma {:induction false} TrimOnce(s: string)
    ensures Trimmed(Trim(s))
    ensures Trim(s) == s <==> Trimmed(s)
    ensures Blank(s) <==> Trim(s) == []
  {
    var t := TrimStart(s);
    TrimStartFacts(s);
    TrimEndFacts(t);
    TrimEndFacts(s);
    if Trim(s) != [] {
      assert Trim(s)[0] == t[0];
    }
  }
}
