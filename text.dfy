/**
 * JavaScript string semantics that the auth forms rely on: the white-space
 * set of ECMAScript (WhiteSpace and LineTerminator code points), which is
 * both what String.prototype.trim strips and what the regular-expression
 * white-space class matches, and trim itself.
 */
module Text {

  /** ECMAScript WhiteSpace (TAB, VT, FF, SP, NBSP, ZWNBSP and the other
      Zs characters) and LineTerminator (LF, CR, LS, PS). Among the ASCII
      characters these are exactly TAB, LF, VT, FF, CR and SPACE. */
  function IsWhitespace(c: char): (b: bool)
    ensures c as int < 0x80 ==> (b <==> 9 <= c as int <= 13 || c == ' ')
  {
    var n := c as int;
    // TAB, LF, VT, FF, CR; SPACE; NO-BREAK SPACE; OGHAM SPACE MARK
    || 9 <= n <= 13 || n == 0x20 || n == 0xA0 || n == 0x1680
    // EN QUAD to HAIR SPACE
    || 0x2000 <= n <= 0x200A
    // LINE SEPARATOR, PARAGRAPH SEPARATOR, NARROW NO-BREAK SPACE,
    // MEDIUM MATHEMATICAL SPACE, IDEOGRAPHIC SPACE, BYTE ORDER MARK
    || n == 0x2028 || n == 0x2029 || n == 0x202F || n == 0x205F
    || n == 0x3000 || n == 0xFEFF
  }

  predicate AllWhitespace(s: string) {
    forall i | 0 <= i < |s| :: IsWhitespace(s[i])
  }

  predicate NoWhitespace(s: string) {
    forall i | 0 <= i < |s| :: !IsWhitespace(s[i])
  }

  /** Drops the leading white space: the result is a suffix of `s` that does
      not start with white space, and all that was dropped is white space. */
  function TrimStart(s: string): (r: string)
    ensures |r| <= |s| && r == s[|s| - |r|..]
    ensures AllWhitespace(s[..|s| - |r|])
    ensures r == [] || !IsWhitespace(r[0])
  {
    if s != [] && IsWhitespace(s[0]) then
      var r := TrimStart(s[1..]);
      assert r == s[1..][|s| - 1 - |r|..] == s[|s| - |r|..];
      forall i | 0 < i < |s| - |r|
        ensures IsWhitespace(s[i])
      {
        assert s[i] == s[1..][..|s| - 1 - |r|][i - 1];
      }
      r
    else
      s
  }

  /** Drops the trailing white space: the result is a prefix of `s` that does
      not end with white space, and all that was dropped is white space. */
  function TrimEnd(s: string): (r: string)
    ensures |r| <= |s| && r == s[..|r|]
    ensures AllWhitespace(s[|r|..])
    ensures r == [] || !IsWhitespace(r[|r| - 1])
  {
    if s != [] && IsWhitespace(s[|s| - 1]) then
      var r := TrimEnd(s[..|s| - 1]);
      assert s[|r|..] == s[..|s| - 1][|r|..] + [s[|s| - 1]];
      r
    else
      s
  }

  /** `r` is what is left of `s` once the white space at both of its ends is
      removed, `r` starting at index `i` of `s`. */
  ghost predicate TrimmedAt(s: string, i: int, r: string) {
    && 0 <= i && i + |r| <= |s|
    && s[i..i + |r|] == r
    && AllWhitespace(s[..i])
    && AllWhitespace(s[i + |r|..])
    && (r == [] || (!IsWhitespace(r[0]) && !IsWhitespace(r[|r| - 1])))
  }

  /** String.prototype.trim. */
  function Trim(s: string): (r: string)
    ensures exists i :: TrimmedAt(s, i, r)
    ensures r == [] <==> AllWhitespace(s)
  {
    var t := TrimStart(s);
    var r := TrimEnd(t);
    TrimsMeet(s, t, r);
    r
  }

  /** Dropping white space from the start of `s` to get `t`, and then from
      the end of `t` to get `r`, trims `s`. */
  lemma TrimsMeet(s: string, t: string, r: string)
    requires |t| <= |s| && t == s[|s| - |t|..]
    requires AllWhitespace(s[..|s| - |t|])
    requires t == [] || !IsWhitespace(t[0])
    requires |r| <= |t| && r == t[..|r|]
    requires AllWhitespace(t[|r|..])
    requires r == [] || !IsWhitespace(r[|r| - 1])
    ensures TrimmedAt(s, |s| - |t|, r)
    ensures r == [] <==> AllWhitespace(s)
  {
    var i := |s| - |t|;
    assert s[i..i + |r|] == r;
    assert s[i + |r|..] == t[|r|..];
    assert r == [] ==> s == s[..i] + t[|r|..];
    assert r != [] ==> r[0] == s[i];
  }

  /** The falsiness test `!s.trim()`, stated character by character: a
      string is blank exactly when all of it is white space. */
  function IsBlank(s: string): (b: bool)
    ensures b <==> AllWhitespace(s)
  {
    if s == [] then true
    else
      assert AllWhitespace(s) <==> IsWhitespace(s[0]) && AllWhitespace(s[1..]);
      IsWhitespace(s[0]) && IsBlank(s[1..])
  }

  /** IsBlank(s) is exactly `s.trim() === ""`. */
  lemma BlankIffTrimEmpty(s: string)
    ensures IsBlank(s) <==> Trim(s) == []
  {
  }
}
