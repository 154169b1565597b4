/** The string helpers the services and the product search rely on: Go's strings.TrimSpace,
    strings.ToLower and SQL's `LIKE '%term%'` containment. */
module Text {

  /** Go's unicode.IsSpace: the Latin-1 spaces plus the Unicode White_Space characters. */
  predicate IsSpace(c: char) {
    c == ' ' || c == '\t' || c == '\n' || c == '\U{000B}' || c == '\U{000C}' || c == '\r'
    || c == '\U{0085}' || c == '\U{00A0}' || c == '\U{1680}'
    || ('\U{2000}' <= c <= '\U{200A}')
    || c == '\U{2028}' || c == '\U{2029}' || c == '\U{202F}' || c == '\U{205F}' || c == '\U{3000}'
  }

  /** Below U+0080 the white space is exactly tab, newline, vertical tab, form feed, carriage
      return and space; no letter or digit is white space. */
  lemma IsSpaceAscii(c: char)
    ensures c < '\U{0080}' ==> (IsSpace(c) <==> c in " \t\n\U{000B}\U{000C}\r")
    ensures IsSpace(c) ==> !('0' <= c <= '9') && !('a' <= c <= 'z') && !('A' <= c <= 'Z')
  {
  }

  /** Every character of `s` is in the class `p`. */
  predicate All(s: string, p: char -> bool) {
    forall i :: 0 <= i < |s| ==> p(s[i])
  }

  /** The position of the first character not of class `p`, searching from `k` on. */
  function FirstOutside(s: string, p: char -> bool, k: nat): (i: nat)
    requires k <= |s|
    requires forall m :: 0 <= m < k ==> p(s[m])
    ensures k <= i <= |s|
    ensures forall m :: 0 <= m < i ==> p(s[m])
    ensures i == |s| || !p(s[i])
    decreases |s| - k
  {
    if k < |s| && p(s[k]) then FirstOutside(s, p, k + 1) else k
  }

  /** The position just after the last character not of class `p`, searching down from `k`
      but not below `lo`. */
  function LastOutside(s: string, p: char -> bool, lo: nat, k: nat): (j: nat)
    requires lo <= k <= |s|
    requires forall m :: k <= m < |s| ==> p(s[m])
    ensures lo <= j <= k
    ensures forall m :: j <= m < |s| ==> p(s[m])
    ensures j == lo || !p(s[j - 1])
    decreases k
  {
    if lo < k && p(s[k - 1]) then LastOutside(s, p, lo, k - 1) else k
  }

  /** Drops the characters of class `p` at both ends. */
  function TrimBy(s: string, p: char -> bool): (r: string)
    ensures exists i, j :: 0 <= i <= j <= |s| && r == s[i..j] && All(s[..i], p) && All(s[j..], p)
    ensures r == [] || (!p(r[0]) && !p(r[|r| - 1]))
  {
    var i := FirstOutside(s, p, 0);
    var j := LastOutside(s, p, i, |s|);
    assert All(s[..i], p);
    assert All(s[j..], p);
    s[i..j]
  }

  /** Trimming leaves nothing exactly when every character is of the class. */
  lemma {:induction false} TrimByEmptyIffAll(s: string, p: char -> bool)
    ensures TrimBy(s, p) == [] <==> All(s, p)
  {
    var i := FirstOutside(s, p, 0);
    var j := LastOutside(s, p, i, |s|);
    assert TrimBy(s, p) == s[i..j];
    if All(s, p) {
      assert i == |s|;
    } else if i == j {
      assert i == |s|;
      assert All(s, p);
    }
  }

  /** A string that neither starts nor ends with a character of the class is its own trim. */
  lemma {:induction false} TrimByUntrimmed(s: string, p: char -> bool)
    requires s == [] || (!p(s[0]) && !p(s[|s| - 1]))
    ensures TrimBy(s, p) == s
  {
    var i := FirstOutside(s, p, 0);
    assert i == 0;
    var j := LastOutside(s, p, i, |s|);
    assert j == |s|;
    assert s[0..|s|] == s;
  }

  predicate AllSpace(s: string) {
    All(s, IsSpace)
  }

  /** Go's strings.TrimSpace: the input with white space removed at both ends. The result is
      the middle of the input, the parts cut away are all white space, and the result neither
      starts nor ends with white space. */
  function TrimSpace(s: string): (r: string)
    ensures exists i, j :: 0 <= i <= j <= |s| && r == s[i..j] && All(s[..i], IsSpace) && All(s[j..], IsSpace)
    ensures r == [] || (!IsSpace(r[0]) && !IsSpace(r[|r| - 1]))
  {
    TrimBy(s, IsSpace)
  }

  /** A string is blank when trimming leaves nothing, i.e. it is all white space. */
  predicate IsBlank(s: string) {
    TrimSpace(s) == ""
  }

  lemma {:induction false} BlankIffAllSpace(s: string)
    ensures IsBlank(s) <==> AllSpace(s)
  {
    TrimByEmptyIffAll(s, IsSpace);
  }

  /** Trimming is idempotent. */
  lemma {:induction false} TrimSpaceIdempotent(s: string)
    ensures TrimSpace(TrimSpace(s)) == TrimSpace(s)
  {
    TrimOfUntrimmed(TrimSpace(s));
  }

  /** A string that neither starts nor ends with white space is its own trim. */
  lemma {:induction false} TrimOfUntrimmed(s: string)
    requires s == [] || (!IsSpace(s[0]) && !IsSpace(s[|s| - 1]))
    ensures TrimSpace(s) == s
  {
    TrimByUntrimmed(s, IsSpace);
  }

  /** Go's strings.ToLower, restricted to ASCII letters. */
  function ToLowerChar(c: char): (r: char)
    ensures 'A' <= c <= 'Z' ==> r as int == c as int + 32
    ensures !('A' <= c <= 'Z') ==> r == c
  {
    if 'A' <= c <= 'Z' then (c as int + 32) as char else c
  }

  function ToLower(s: string): (r: string)
    ensures |r| == |s|
    ensures forall i :: 0 <= i < |s| ==> r[i] == ToLowerChar(s[i])
    ensures forall i :: 0 <= i < |r| ==> !('A' <= r[i] <= 'Z')
  {
    if s == [] then [] else [ToLowerChar(s[0])] + ToLower(s[1..])
  }

  /** `t` occurs somewhere in `s` as a contiguous substring (SQL `s LIKE '%t%'` without
      wildcards inside `t`). */
  predicate Contains(s: string, t: string) {
    exists i | 0 <= i <= |s| - |t| :: OccursAt(s, t, i)
  }

  predicate OccursAt(s: string, t: string, i: int) {
    0 <= i <= |s| - |t| && s[i..i + |t|] == t
  }

  /** Lexicographic order of strings by code point (the `ORDER BY nombre` of the queries,
      without the database's collation rules). */
  predicate StrLe(a: string, b: string) {
    if a == [] then true
    else if b == [] then false
    else if a[0] != b[0] then a[0] < b[0]
    else StrLe(a[1..], b[1..])
  }

  lemma {:induction false} StrLeTotal(a: string, b: string)
    ensures StrLe(a, b) || StrLe(b, a)
  {
    if a != [] && b != [] && a[0] == b[0] {
      StrLeTotal(a[1..], b[1..]);
    }
  }
}
