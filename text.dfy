/**
  String helpers shared by the server and the page: trimming with a given
  whitespace class, Go's and ECMAScript's whitespace classes, and ASCII case
  folding.
 */
module Text {

  /** Go's `unicode.IsSpace`, which `strings.TrimSpace` uses. */
  predicate GoIsSpace(c: char)
  {
    || c == '\t' || c == '\n' || c == '\U{000B}' || c == '\U{000C}' || c == '\r' || c == ' '
    || c == '\U{0085}' || c == '\U{00A0}' || c == '\U{1680}'
    || ('\U{2000}' <= c <= '\U{200A}')
    || c == '\U{2028}' || c == '\U{2029}' || c == '\U{202F}' || c == '\U{205F}' || c == '\U{3000}'
  }

  /**
    The characters `String.prototype.trim` removes in ECMAScript: WhiteSpace
    (including U+FEFF and the Zs category) and LineTerminator. Unlike Go it
    keeps U+0085.
   */
  predicate JsIsSpace(c: char)
  {
    || c == '\t' || c == '\n' || c == '\U{000B}' || c == '\U{000C}' || c == '\r' || c == ' '
    || c == '\U{00A0}' || c == '\U{1680}'
    || ('\U{2000}' <= c <= '\U{200A}')
    || c == '\U{2028}' || c == '\U{2029}' || c == '\U{202F}' || c == '\U{205F}' || c == '\U{3000}'
    || c == '\U{FEFF}'
  }

  predicate AllSpace(s: string, isSpace: char -> bool)
  {
    forall i :: 0 <= i < |s| ==> isSpace(s[i])
  }

  /** Drops the leading whitespace: the result is the suffix that starts at the first non-space. */
  function TrimLeft(s: string, isSpace: char -> bool): string
  {
    if s != [] && isSpace(s[0]) then TrimLeft(s[1..], isSpace) else s
  }

  lemma {:induction false} TrimLeftShape(s: string, isSpace: char -> bool)
    ensures var r := TrimLeft(s, isSpace);
      && |r| <= |s| && r == s[|s| - |r|..]
      && AllSpace(s[..|s| - |r|], isSpace)
      && (r != [] ==> !isSpace(r[0]))
  {
    if s != [] && isSpace(s[0]) {
      TrimLeftShape(s[1..], isSpace);
      var r := TrimLeft(s, isSpace);
      assert s[1..][..|s| - 1 - |r|] == s[1..|s| - |r|];
    }
  }

  /** Drops the trailing whitespace: the result is the prefix that ends at the last non-space. */
  function TrimRight(s: string, isSpace: char -> bool): string
  {
    if s != [] && isSpace(s[|s| - 1]) then TrimRight(s[..|s| - 1], isSpace) else s
  }

  lemma {:induction false} TrimRightShape(s: string, isSpace: char -> bool)
    ensures var r := TrimRight(s, isSpace);
      && |r| <= |s| && r == s[..|r|]
      && AllSpace(s[|r|..], isSpace)
      && (r != [] ==> !isSpace(r[|r| - 1]))
  {
    if s != [] && isSpace(s[|s| - 1]) {
      var t := s[..|s| - 1];
      TrimRightShape(t, isSpace);
      var r := TrimRight(t, isSpace);
      assert t[..|r|] == s[..|r|];
      assert s[|r|..] == t[|r|..] + [s[|s| - 1]];
    }
  }

  function Trim(s: string, isSpace: char -> bool): string
  {
    TrimRight(TrimLeft(s, isSpace), isSpace)
  }

  /** Trimming leaves nothing exactly when the string is all whitespace (the empty string included). */
  lemma TrimEmptyIffAllSpace(s: string, isSpace: char -> bool)
    ensures Trim(s, isSpace) == [] <==> AllSpace(s, isSpace)
  {
    var l := TrimLeft(s, isSpace);
    TrimLeftShape(s, isSpace);
    TrimRightShape(l, isSpace);
    if Trim(s, isSpace) == [] {
      // the trailing whitespace of l is all of l, so l cannot start with a non-space
      assert AllSpace(l, isSpace);
      assert l == [];
      assert s[..|s|] == s;
    }
  }

  /** Trimming is idempotent: a trimmed string has nothing left to trim. */
  lemma TrimIdempotent(s: string, isSpace: char -> bool)
    ensures Trim(Trim(s, isSpace), isSpace) == Trim(s, isSpace)
  {
    var t := Trim(s, isSpace);
    var l := TrimLeft(s, isSpace);
    TrimLeftShape(s, isSpace);
    TrimRightShape(l, isSpace);
    TrimLeftShape(t, isSpace);
    if t != [] {
      assert t[0] == l[0];
    }
  }

  function LowerChar(c: char): (d: char)
  {
    if 'A' <= c <= 'Z' then (c as int + 32) as char else c
  }

  /** `strings.ToLower` restricted to ASCII: 'A'..'Z' map to 'a'..'z', every other character is kept. */
  function AsciiLower(s: string): string
  {
    seq(|s|, i requires 0 <= i < |s| => LowerChar(s[i]))
  }

  /** Lower-casing never turns a letter into whitespace or whitespace into anything else. */
  lemma LowerCharKeepsSpace(c: char)
    ensures GoIsSpace(LowerChar(c)) == GoIsSpace(c)
    ensures GoIsSpace(c) ==> LowerChar(c) == c
  {
  }

  lemma {:induction false} LowerTrimLeft(s: string)
    ensures TrimLeft(AsciiLower(s), GoIsSpace) == AsciiLower(TrimLeft(s, GoIsSpace))
  {
    if s != [] {
      LowerCharKeepsSpace(s[0]);
      if GoIsSpace(s[0]) {
        assert AsciiLower(s)[1..] == AsciiLower(s[1..]);
        LowerTrimLeft(s[1..]);
      }
    }
  }

  lemma {:induction false} LowerTrimRight(s: string)
    ensures TrimRight(AsciiLower(s), GoIsSpace) == AsciiLower(TrimRight(s, GoIsSpace))
  {
    if s != [] {
      LowerCharKeepsSpace(s[|s| - 1]);
      if GoIsSpace(s[|s| - 1]) {
        assert AsciiLower(s)[..|s| - 1] == AsciiLower(s[..|s| - 1]);
        LowerTrimRight(s[..|s| - 1]);
      }
    }
  }

  /**
    Trimming and ASCII lower-casing commute, so a name compared after
    `ToLower(TrimSpace(...))` is compared the same way as after the reverse order.
   */
  lemma LowerTrimCommute(s: string)
    ensures Trim(AsciiLower(s), GoIsSpace) == AsciiLower(Trim(s, GoIsSpace))
  {
    LowerTrimLeft(s);
    LowerTrimRight(TrimLeft(s, GoIsSpace));
  }

  lemma AsciiLowerIdempotent(s: string)
    ensures AsciiLower(AsciiLower(s)) == AsciiLower(s)
  {
  }
}
