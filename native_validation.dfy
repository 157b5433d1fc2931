/**
 * The browser's own check of a form before it fires `submit` (the HTML
 * Standard's interactive constraint validation), for the two constraints the
 * auth forms declare in their markup: `required`, and the E-mail state of
 * `<input type="email">`. A form without `novalidate` whose inputs fail
 * either constraint is not submitted at all: the submit handler never runs.
 *
 * - `required` on a text, tel or password input fails exactly when the
 *   input's value is the empty string (white space alone satisfies it).
 * - An email input's value is first sanitized: line breaks are removed, then
 *   ASCII white space at both ends. The sanitized value must then be empty
 *   (and the input not `required`) or a valid email address:
 *   `1*( atext / "." ) "@" label *( "." label )`.
 */
module NativeValidation {
  import opened Text
  import opened EmailPattern

  /** ASCII white space of the HTML Standard: TAB, LF, FF, CR and SPACE. */
  predicate IsAsciiWhitespace(c: char) {
    var n := c as int;
    n == 9 || n == 10 || n == 12 || n == 13 || n == 0x20
  }

  /** LF and CR. */
  predicate IsNewline(c: char) {
    c as int == 10 || c as int == 13
  }

  predicate IsAsciiLetterOrDigit(c: char) {
    ('a' <= c <= 'z') || ('A' <= c <= 'Z') || ('0' <= c <= '9')
  }

  /** `atext` of section 3.2.3 of RFC 5322. */
  predicate IsAText(c: char) {
    IsAsciiLetterOrDigit(c) || c in "!#$%&'*+-/=?^_`{|}~"
  }

  /** The index of the first `c` in `s`, or |s| when `s` has none. */
  function IndexOf(s: string, c: char): (i: nat)
    ensures i <= |s|
    ensures c !in s[..i]
    ensures i < |s| ==> s[i] == c
  {
    if s == [] || s[0] == c then 0
    else
      var j := IndexOf(s[1..], c);
      assert s[..1 + j] == [s[0]] + s[1..][..j];
      1 + j
  }

  /** A domain label: 1 to 63 letters, digits and hyphens that starts and
      ends with a letter or a digit (section 3.5 of RFC 1034). */
  predicate IsLabel(l: string) {
    && 1 <= |l| <= 63
    && IsAsciiLetterOrDigit(l[0]) && IsAsciiLetterOrDigit(l[|l| - 1])
    && forall i | 0 <= i < |l| :: IsAsciiLetterOrDigit(l[i]) || l[i] == '-'
  }

  /** `label *( "." label )`. A label holds no '.', so the first label ends
      at the first '.'. */
  predicate IsDomain(d: string)
    decreases |d|
  {
    var i := IndexOf(d, '.');
    IsLabel(d[..i]) && (i == |d| || IsDomain(d[i + 1..]))
  }

  /** `1*( atext / "." )`. */
  predicate IsLocalPart(l: string) {
    l != [] && forall i | 0 <= i < |l| :: IsAText(l[i]) || l[i] == '.'
  }

  /** The position of the '@' that separates the local part from the domain:
      the local part holds no '@', so it is the first one. */
  function AtIndex(w: string): nat {
    IndexOf(w, '@')
  }

  /** A valid email address of the HTML Standard. */
  function IsValidEmailAddress(w: string): (b: bool)
    ensures b ==> 3 <= |w| && '@' in w && w[0] != '@'
  {
    var i := AtIndex(w);
    i < |w| && IsLocalPart(w[..i]) && IsDomain(w[i + 1..])
  }

  /** Removes every line break. */
  function StripNewlines(s: string): (r: string)
    ensures forall c | c in r :: c in s && !IsNewline(c)
    ensures forall c | c in s && !IsNewline(c) :: c in r
  {
    if s == [] then []
    else
      var t := StripNewlines(s[1..]);
      assert forall c | c in s :: c == s[0] || c in s[1..];
      if IsNewline(s[0]) then t else [s[0]] + t
  }

  /** Removes the ASCII white space at the start: the result is a suffix of
      `s` that does not start with ASCII white space, and all that was
      dropped is ASCII white space. */
  function StripLeadingAscii(s: string): (r: string)
    ensures |r| <= |s| && r == s[|s| - |r|..]
    ensures forall k | 0 <= k < |s| - |r| :: IsAsciiWhitespace(s[k])
    ensures r == [] || !IsAsciiWhitespace(r[0])
  {
    if s != [] && IsAsciiWhitespace(s[0]) then
      var r := StripLeadingAscii(s[1..]);
      assert r == s[1..][|s| - 1 - |r|..] == s[|s| - |r|..];
      assert forall k | 0 < k < |s| - |r| :: s[k] == s[1..][k - 1];
      r
    else
      s
  }

  /** Removes the ASCII white space at the end: the result is a prefix of
      `s` that does not end with ASCII white space, and all that was dropped
      is ASCII white space. */
  function StripTrailingAscii(s: string): (r: string)
    ensures |r| <= |s| && r == s[..|r|]
    ensures forall k | |r| <= k < |s| :: IsAsciiWhitespace(s[k])
    ensures r == [] || !IsAsciiWhitespace(r[|r| - 1])
  {
    if s != [] && IsAsciiWhitespace(s[|s| - 1]) then
      StripTrailingAscii(s[..|s| - 1])
    else
      s
  }

  /** `w` is what is left of `t` once the ASCII white space at both of its
      ends is removed, `w` starting at index `i` of `t`. */
  ghost predicate AsciiTrimmedAt(t: string, i: int, w: string) {
    && 0 <= i && i + |w| <= |t|
    && t[i..i + |w|] == w
    && (forall k | 0 <= k < i :: IsAsciiWhitespace(t[k]))
    && (forall k | i + |w| <= k < |t| :: IsAsciiWhitespace(t[k]))
    && (w == [] || (!IsAsciiWhitespace(w[0]) && !IsAsciiWhitespace(w[|w| - 1])))
  }

  /** The value sanitization of an email input: the value without its line
      breaks, then without the ASCII white space at both ends. */
  function SanitizedEmail(v: string): (w: string)
    ensures exists i :: AsciiTrimmedAt(StripNewlines(v), i, w)
  {
    var t := StripNewlines(v);
    var u := StripLeadingAscii(t);
    var w := StripTrailingAscii(u);
    StripsTrim(t, u, w);
    w
  }

  /** Dropping ASCII white space from the start of `t` to get `u`, and then
      from the end of `u` to get `w`, trims `t`. */
  lemma StripsTrim(t: string, u: string, w: string)
    requires |u| <= |t| && u == t[|t| - |u|..]
    requires forall k | 0 <= k < |t| - |u| :: IsAsciiWhitespace(t[k])
    requires u == [] || !IsAsciiWhitespace(u[0])
    requires |w| <= |u| && w == u[..|w|]
    requires forall k | |w| <= k < |u| :: IsAsciiWhitespace(u[k])
    requires w == [] || !IsAsciiWhitespace(w[|w| - 1])
    ensures AsciiTrimmedAt(t, |t| - |u|, w)
  {
    var i := |t| - |u|;
    assert t[i..i + |w|] == u[..|w|];
    forall k | i + |w| <= k < |t|
      ensures IsAsciiWhitespace(t[k])
    {
      assert t[k] == u[k - i];
    }
    assert w != [] ==> w[0] == u[0];
  }

  /** Whether the value holds only line breaks and ASCII white space. Blank
      to JavaScript is wider: `trim` also removes U+000B and the Unicode
      spaces, which the browser keeps. */
  predicate IsBlankToBrowser(v: string) {
    forall c | c in v :: IsNewline(c) || IsAsciiWhitespace(c)
  }

  /** Every character the sanitization keeps comes from the value. */
  lemma SanitizedFromValue(v: string)
    ensures forall c | c in SanitizedEmail(v) :: c in v
  {
    var t := StripNewlines(v);
    var w := SanitizedEmail(v);
    var i :| AsciiTrimmedAt(t, i, w);
    TrimmedFrom(t, i, w);
  }

  /** What is left of a trimmed string comes from it. */
  lemma TrimmedFrom(t: string, i: int, w: string)
    requires AsciiTrimmedAt(t, i, w)
    ensures forall c | c in w :: c in t
  {
    forall c | c in w
      ensures c in t
    {
      var k :| 0 <= k < |w| && w[k] == c;
      assert t[i + k] == c;
    }
  }

  /** When the sanitization keeps nothing, the value was line breaks and
      ASCII white space. */
  lemma SanitizedAwayIsBrowserBlank(v: string)
    ensures SanitizedEmail(v) == [] ==> IsBlankToBrowser(v)
  {
    var t := StripNewlines(v);
    var w := SanitizedEmail(v);
    var i :| AsciiTrimmedAt(t, i, w);
    if w == [] {
      TrimmedAway(t, i);
    }
  }

  /** A string trimmed to nothing is all ASCII white space. */
  lemma TrimmedAway(t: string, i: int)
    requires AsciiTrimmedAt(t, i, [])
    ensures forall c | c in t :: IsAsciiWhitespace(c)
  {
    forall c | c in t
      ensures IsAsciiWhitespace(c)
    {
      var k :| 0 <= k < |t| && t[k] == c;
    }
  }

  /** Line breaks are removed piece by piece. */
  lemma {:induction false} StripNewlinesAppend(a: string, b: string)
    ensures StripNewlines(a + b) == StripNewlines(a) + StripNewlines(b)
  {
    if a == [] {
      assert a + b == b;
    } else {
      assert (a + b)[0] == a[0] && (a + b)[1..] == a[1..] + b;
      StripNewlinesAppend(a[1..], b);
      if !IsNewline(a[0]) {
        assert [a[0]] + (StripNewlines(a[1..]) + StripNewlines(b))
            == ([a[0]] + StripNewlines(a[1..])) + StripNewlines(b);
      }
    }
  }

  /** A single character is removed exactly when it is a line break. */
  lemma StripNewlinesOne(c: char)
    ensures StripNewlines([c]) == (if IsNewline(c) then [] else [c])
  {
  }

  /** Whether an email input lets its form be submitted. */
  function EmailInputAccepts(value: string, isRequired: bool): (b: bool)
    ensures b && isRequired ==> !IsBlankToBrowser(value) && '@' in value
    ensures b ==> IsBlankToBrowser(value) || '@' in value
    ensures !isRequired && IsBlankToBrowser(value) ==> b
    ensures IsValidEmailAddress(value) ==> b
  {
    SanitizedFromValue(value);
    SanitizedAwayIsBrowserBlank(value);
    BlankSanitizedAway(value);
    AddressKept(value);
    var w := SanitizedEmail(value);
    if w == [] then !isRequired else IsValidEmailAddress(w)
  }

  /** A value with neither line breaks nor ASCII white space is kept as is. */
  lemma CleanValueKept(v: string)
    requires forall c | c in v :: !IsNewline(c) && !IsAsciiWhitespace(c)
    ensures SanitizedEmail(v) == v
  {
    CleanNewlinesKept(v);
    var w := SanitizedEmail(v);
    var i :| AsciiTrimmedAt(v, i, w);
    if v != [] {
      assert v[0] in v && v[|v| - 1] in v;
      assert i == 0 && i + |w| == |v|;
    }
  }

  lemma {:induction false} CleanNewlinesKept(v: string)
    requires forall c | c in v :: !IsNewline(c)
    ensures StripNewlines(v) == v
  {
    if v != [] {
      assert v[0] in v;
      assert forall c | c in v[1..] :: c in v;
      CleanNewlinesKept(v[1..]);
      assert v == [v[0]] + v[1..];
    }
  }

  /** A valid address is accepted as typed: it holds no white space, so
      sanitizing it changes nothing. */
  lemma AddressKept(v: string)
    ensures IsValidEmailAddress(v) ==> SanitizedEmail(v) == v
  {
    if IsValidEmailAddress(v) {
      AddressHasNoWhitespace(v);
      forall c | c in v
        ensures !IsNewline(c) && !IsAsciiWhitespace(c)
      {
        var k :| 0 <= k < |v| && v[k] == c;
      }
      CleanValueKept(v);
    }
  }

  /** A one-label domain is valid: "a@b" is an address. */
  lemma DotlessAddressValid()
    ensures IsValidEmailAddress("a@b")
  {
    var w := "a@b";
    assert AtIndex(w) == 1;
    assert w[..1] == "a" && w[2..] == "b";
    assert IndexOf("b", '.') == 1 && "b"[..1] == "b";
  }

  /** Every character of a valid domain is a letter, a digit, '-' or '.'. */
  lemma {:induction false} DomainCharacters(d: string)
    requires IsDomain(d)
    ensures forall k | 0 <= k < |d| :: IsAsciiLetterOrDigit(d[k]) || d[k] == '-' || d[k] == '.'
    decreases |d|
  {
    var i := IndexOf(d, '.');
    if i < |d| {
      DomainCharacters(d[i + 1..]);
      assert forall k | i < k < |d| :: d[k] == d[i + 1..][k - i - 1];
    }
    assert forall k | 0 <= k < i :: d[k] == d[..i][k];
  }

  /** The characters an address is made of are not white space. */
  lemma AddressCharNotWhitespace(c: char)
    requires IsAText(c) || c == '.' || c == '@'
    ensures !IsWhitespace(c)
  {
  }

  /** A valid address holds no white space. */
  lemma AddressHasNoWhitespace(w: string)
    requires IsValidEmailAddress(w)
    ensures NoWhitespace(w)
  {
    var i := AtIndex(w);
    var d := w[i + 1..];
    DomainCharacters(d);
    forall k | 0 <= k < |w|
      ensures !IsWhitespace(w[k])
    {
      if k < i {
        assert w[k] == w[..i][k];
      } else if k > i {
        assert w[k] == d[k - i - 1];
      }
      AddressCharNotWhitespace(w[k]);
    }
  }

  /** A valid address holds exactly one '@'. */
  lemma OnlyOneAt(w: string, k: int)
    requires IsValidEmailAddress(w) && 0 <= k < |w| && w[k] == '@'
    ensures k == AtIndex(w)
  {
    var i := AtIndex(w);
    var d := w[i + 1..];
    DomainCharacters(d);
    assert forall m | 0 <= m < i :: w[m] == w[..i][m];
    assert forall m | i < m < |w| :: w[m] == d[m - i - 1];
  }

  /** An address whose domain has a '.' matches the registration pattern,
      as a whole: local part, '@', first label, '.', the rest. */
  lemma DottedAddressMatches(w: string)
    requires IsValidEmailAddress(w) && '.' in w[AtIndex(w) + 1..]
    ensures Matches(w)
  {
    var i := AtIndex(w);
    var d := w[i + 1..];
    var j := IndexOf(d, '.');
    var z := d[j + 1..];
    assert IsDomain(z);
    assert IsLabel(z[..IndexOf(z, '.')]);
    AddressHasNoWhitespace(w);
    assert w[0..|w|] == w;
    assert MatchAt(w, 0, i, i + 1 + j, |w|);
  }

  /** A match of the pattern in a valid address uses its one '@', so the
      domain has a '.'. */
  lemma MatchedAddressIsDotted(w: string)
    requires IsValidEmailAddress(w) && Matches(w)
    ensures '.' in w[AtIndex(w) + 1..]
  {
    var a, p, q, e :| 0 <= a < p < q < e <= |w| && MatchAt(w, a, p, q, e);
    OnlyOneAt(w, p);
    var d := w[p + 1..];
    assert d[q - p - 1] == w[q];
  }

  /** An address the browser accepts passes the registration pattern
      exactly when its domain has more than one label. */
  lemma AddressMatchesIffDotted(w: string)
    requires IsValidEmailAddress(w)
    ensures Matches(w) <==> '.' in w[AtIndex(w) + 1..]
  {
    if '.' in w[AtIndex(w) + 1..] {
      DottedAddressMatches(w);
    }
    if Matches(w) {
      MatchedAddressIsDotted(w);
    }
  }

  /** An address the browser accepts is never blank. */
  lemma AcceptedEmailNotBlank(v: string)
    requires EmailInputAccepts(v, true)
    ensures !IsBlank(v)
  {
    var w := SanitizedEmail(v);
    AddressHasNoWhitespace(w);
    SanitizedFromValue(v);
    assert w[0] in v;
  }

  /** A value of line breaks and ASCII white space sanitizes to nothing. */
  lemma BlankSanitizedAway(v: string)
    ensures IsBlankToBrowser(v) ==> SanitizedEmail(v) == []
  {
    var t := StripNewlines(v);
    var w := SanitizedEmail(v);
    var i :| AsciiTrimmedAt(t, i, w);
    if IsBlankToBrowser(v) && w != [] {
      assert false;
    }
  }

  /** An email value the browser sanitizes to nothing is blank. */
  lemma SanitizedAwayIsBlank(v: string)
    requires SanitizedEmail(v) == []
    ensures IsBlank(v)
  {
    SanitizedAwayIsBrowserBlank(v);
    forall k | 0 <= k < |v|
      ensures IsWhitespace(v[k])
    {
      assert v[k] in v;
    }
  }

  /** A non-blank value without '@' is never accepted: sanitizing it leaves
      something, and that has no '@' to split at. */
  lemma NoAtRejected(v: string, isRequired: bool)
    requires '@' !in v && !IsBlank(v)
    ensures !EmailInputAccepts(v, isRequired)
  {
    var w := SanitizedEmail(v);
    if w == [] {
      SanitizedAwayIsBlank(v);
    }
    SanitizedFromValue(v);
    assert '@' !in w;
  }
}
