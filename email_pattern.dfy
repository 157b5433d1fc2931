/**
 * The email-shape test of the company registration form: a regular
 * expression applied with RegExp.prototype.test. The pattern
 * has no anchors and no flags, so it succeeds when SOME substring has the
 * shape: a run of non-white-space characters, '@', another such run, '.',
 * and a third run. '@' and '.' are themselves non-white-space, so the three
 * runs may contain them.
 */
module EmailPattern {
  import opened Text

  /** s[a..e] matches the pattern with its '@' at index p and its '.' at q. */
  predicate MatchAt(s: string, a: int, p: int, q: int, e: int) {
    && 0 <= a < p
    && p + 1 < q
    && q + 1 < e <= |s|
    && s[p] == '@'
    && s[q] == '.'
    && NoWhitespace(s[a..e])
  }

  /** Whether the pattern's `test` succeeds on `s`. A matching string has
      at least five characters, among them an '@' and a '.'. */
  function Matches(s: string): (b: bool)
    ensures b ==> 5 <= |s| && '@' in s && '.' in s
  {
    exists a, p, q, e | 0 <= a < p < q < e <= |s| :: MatchAt(s, a, p, q, e)
  }

  /** Any text around `x@y.z`, with x, y and z non-empty and free of white
      space, matches. */
  lemma {:induction false} MatchesAround(u: string, x: string, y: string, z: string, v: string)
    requires x != [] && y != [] && z != []
    requires NoWhitespace(x) && NoWhitespace(y) && NoWhitespace(z)
    ensures Matches(u + x + "@" + y + "." + z + v)
  {
    var s := u + x + "@" + y + "." + z + v;
    var a := |u|;
    var p := a + |x|;
    var q := p + 1 + |y|;
    var e := q + 1 + |z|;
    assert s[a..e] == x + "@" + y + "." + z;
    assert MatchAt(s, a, p, q, e);
  }

  /** Conversely, every match is some text around `x@y.z` of that kind. */
  lemma {:induction false} MatchSplits(s: string) returns (u: string, x: string, y: string, z: string, v: string)
    requires Matches(s)
    ensures s == u + x + "@" + y + "." + z + v
    ensures x != [] && y != [] && z != []
    ensures NoWhitespace(x) && NoWhitespace(y) && NoWhitespace(z)
  {
    var a, p, q, e :| 0 <= a < p < q < e <= |s| && MatchAt(s, a, p, q, e);
    u, x, y, z, v := s[..a], s[a..p], s[p + 1..q], s[q + 1..e], s[e..];
    SplitFive(s, a, p, q, e);
    var w := s[a..e];
    NoWhitespaceSlice(w, 0, p - a);
    NoWhitespaceSlice(w, p + 1 - a, q - a);
    NoWhitespaceSlice(w, q + 1 - a, e - a);
  }

  lemma SplitFive(s: string, a: int, p: int, q: int, e: int)
    requires 0 <= a < p < q < e <= |s| && s[p] == '@' && s[q] == '.'
    ensures s == s[..a] + s[a..p] + "@" + s[p + 1..q] + "." + s[q + 1..e] + s[e..]
    ensures s[a..e][..p - a] == s[a..p]
    ensures s[a..e][p + 1 - a..q - a] == s[p + 1..q]
    ensures s[a..e][q + 1 - a..e - a] == s[q + 1..e]
  {
    assert s[q..] == "." + s[q + 1..e] + s[e..];
    assert s[p..] == "@" + s[p + 1..q] + s[q..];
    assert s == s[..a] + s[a..p] + s[p..];
  }

  lemma NoWhitespaceSlice(w: string, i: int, j: int)
    requires NoWhitespace(w) && 0 <= i <= j <= |w|
    ensures NoWhitespace(w[i..j])
  {
    assert forall k | 0 <= k < j - i :: w[i..j][k] == w[i + k];
  }

  /** A matching string is not blank, so a blank email can only get
      "Email is required", never "Please enter a valid email address". */
  lemma {:induction false} MatchIsNotBlank(s: string)
    requires Matches(s)
    ensures !IsBlank(s)
  {
    var a, p, q, e :| 0 <= a < p < q < e <= |s| && MatchAt(s, a, p, q, e);
    assert s[a..e][p - a] == s[p];
  }
}
