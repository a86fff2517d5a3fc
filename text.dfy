/** The string operations the services use: Java's String.isBlank,
    String.toLowerCase (restricted to ASCII letters) and String.contains. */
module Text {

  /** Character.isWhitespace: the space separators other than the
      non-breaking ones, the line and paragraph separators, and the control
      characters U+0009..U+000D and U+001C..U+001F. */
  predicate IsWhitespace(c: char) {
    var n := c as int;
    (9 <= n <= 13) || (28 <= n <= 32) || n == 0x1680 ||
    (0x2000 <= n <= 0x2006) || (0x2008 <= n <= 0x200A) ||
    n == 0x2028 || n == 0x2029 || n == 0x205F || n == 0x3000
  }

  /** String.isBlank: empty, or whitespace only. */
  predicate IsBlank(s: string): (r: bool)
    ensures s == [] ==> r
    ensures r <==> !exists i :: 0 <= i < |s| && !IsWhitespace(s[i])
  {
    forall i :: 0 <= i < |s| ==> IsWhitespace(s[i])
  }

  function LowerChar(c: char): char {
    if 'A' <= c <= 'Z' then (c as int + 32) as char else c
  }

  /** String.toLowerCase on ASCII letters; every other character is kept. */
  function ToLower(s: string): (r: string)
    ensures |r| == |s|
    ensures forall i :: 0 <= i < |s| ==> r[i] == LowerChar(s[i])
    ensures forall i :: 0 <= i < |r| ==> !('A' <= r[i] <= 'Z')
    ensures forall i :: 0 <= i < |s| && !('A' <= s[i] <= 'Z') ==> r[i] == s[i]
  {
    seq(|s|, i requires 0 <= i < |s| => LowerChar(s[i]))
  }

  /** `t` occurs in `s` starting at index `i`. */
  predicate OccursAt(s: string, t: string, i: int) {
    0 <= i && i + |t| <= |s| && s[i..i + |t|] == t
  }

  /** String.contains: every string contains itself and the empty string,
      and nothing longer than itself. */
  predicate Contains(s: string, t: string): (r: bool)
    ensures t == [] ==> r
    ensures s == t ==> r
    ensures r ==> |t| <= |s|
  {
    assert OccursAt(s, [], 0);
    assert OccursAt(s, s, 0);

    exists i :: 0 <= i <= |s| && OccursAt(s, t, i)
  }

  /** Containment is transitive: a substring of a substring is a substring. */
  lemma ContainsTransitive(s: string, t: string, u: string)
    requires Contains(s, t) && Contains(t, u)
    ensures Contains(s, u)
  {
    var i :| 0 <= i <= |s| && OccursAt(s, t, i);
    var j :| 0 <= j <= |t| && OccursAt(t, u, j);
    forall k | 0 <= k < |u| ensures s[i + j + k] == u[k] {
      assert s[i..i + |t|][j + k] == t[j + k];
      assert t[j..j + |u|][k] == u[k];
    }
    assert s[i + j..i + j + |u|] == u;
    assert OccursAt(s, u, i + j);
  }

  /** Lower-casing commutes with taking a slice. */
  lemma LowerSlice(s: string, i: int, j: int)
    requires 0 <= i <= j <= |s|
    ensures ToLower(s)[i..j] == ToLower(s[i..j])
  {
  }

  /** Lower-casing keeps containment. */
  lemma LowerKeepsContains(t: string, u: string)
    requires Contains(t, u)
    ensures Contains(ToLower(t), ToLower(u))
  {
    var j :| 0 <= j <= |t| && OccursAt(t, u, j);
    LowerSlice(t, j, j + |u|);
    assert OccursAt(ToLower(t), ToLower(u), j);
  }

  /** If the lower-cased `s` contains the lower-cased `t`, it contains the
      lower-cased form of every substring `u` of `t`. */
  lemma LowerContainsNarrowing(s: string, t: string, u: string)
    requires Contains(ToLower(s), ToLower(t)) && Contains(t, u)
    ensures Contains(ToLower(s), ToLower(u))
  {
    LowerKeepsContains(t, u);
    ContainsTransitive(ToLower(s), ToLower(t), ToLower(u));
  }
}
