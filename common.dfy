/** Values and string operations shared by the component models: an optional
    value, Python's whitespace class and `strip()`, ASCII case folding, and the
    prefix, suffix and substring tests the sources use (`startsWith`,
    `endsWith`, `includes`, `in`). */
module Common {

  datatype Option<+T> = None | Some(value: T)

  /** What a thrown value looks like to a JavaScript `catch` block: an
      `Error` with its message, or any other value. */
  datatype Thrown = ErrorObject(message: string) | NonErrorValue

  /** The characters for which Python's `str.isspace()` holds. */
  predicate IsSpace(c: char) {
    var n := c as int;
    n == 0x20 || 0x09 <= n <= 0x0D || 0x1C <= n <= 0x1F || n == 0x85 || n == 0xA0
    || n == 0x1680 || 0x2000 <= n <= 0x200A || n == 0x2028 || n == 0x2029
    || n == 0x202F || n == 0x205F || n == 0x3000
  }

  predicate AllSpace(s: string) {
    forall k :: 0 <= k < |s| ==> IsSpace(s[k])
  }

  /** Neither the first nor the last character is whitespace. */
  predicate NoEdgeSpace(s: string) {
    |s| == 0 || (!IsSpace(s[0]) && !IsSpace(s[|s| - 1]))
  }

  /** Length of the whitespace run that starts at index `i`. */
  function SpaceRunFrom(s: string, i: nat): (n: nat)
    requires i <= |s|
    ensures i + n <= |s|
    ensures forall k :: i <= k < i + n ==> IsSpace(s[k])
    ensures i + n < |s| ==> !IsSpace(s[i + n])
    decreases |s| - i
  {
    if i == |s| || !IsSpace(s[i]) then 0 else SpaceRunFrom(s, i + 1) + 1
  }

  /** Length of the whitespace run that ends just before index `i`. */
  function SpaceRunBefore(s: string, i: nat): (n: nat)
    requires i <= |s|
    ensures n <= i
    ensures forall k :: i - n <= k < i ==> IsSpace(s[k])
    ensures n < i ==> !IsSpace(s[i - 1 - n])
    decreases i
  {
    if i == 0 || !IsSpace(s[i - 1]) then 0 else SpaceRunBefore(s, i - 1) + 1
  }

  /** Number of whitespace characters at the start of `s`. */
  function LeadingSpaces(s: string): (n: nat)
    ensures n <= |s|
    ensures AllSpace(s[..n])
    ensures n < |s| ==> !IsSpace(s[n])
  {
    SpaceRunFrom(s, 0)
  }

  /** Number of whitespace characters at the end of `s`. */
  function TrailingSpaces(s: string): (n: nat)
    ensures n <= |s|
    ensures AllSpace(s[|s| - n..])
    ensures n < |s| ==> !IsSpace(s[|s| - 1 - n])
  {
    SpaceRunBefore(s, |s|)
  }

  /** Python's `str.strip()` with no argument. */
  function Strip(s: string): (r: string)
    ensures NoEdgeSpace(r)
    ensures |r| <= |s|
    ensures r == "" <==> AllSpace(s)
    ensures NoEdgeSpace(s) ==> r == s
    ensures LeadingSpaces(s) + |r| <= |s|
    ensures s[LeadingSpaces(s)..LeadingSpaces(s) + |r|] == r
    ensures AllSpace(s[LeadingSpaces(s) + |r|..])
  {
    var a := LeadingSpaces(s);
    var t := s[a..];
    var m := TrailingSpaces(t);
    var r := t[..|t| - m];
    assert a == |s| ==> s[..a] == s;
    assert s[a..a + |r|] == r;
    assert s[a + |r|..] == t[|t| - m..];
    r
  }

  /** ASCII upper-case letters map to lower case; every other character is kept. */
  function LowerChar(c: char): (d: char)
    ensures 'A' <= c <= 'Z' ==> 'a' <= d <= 'z'
    ensures !('A' <= c <= 'Z') ==> d == c
  {
    if 'A' <= c <= 'Z' then (c as int + 32) as char else c
  }

  /** Case folding of a whole string, character by character. */
  function Lower(s: string): (r: string)
    ensures |r| == |s|
    ensures forall i :: 0 <= i < |s| ==> r[i] == LowerChar(s[i])
    decreases |s|
  {
    if |s| == 0 then "" else [LowerChar(s[0])] + Lower(s[1..])
  }

  lemma {:induction false} LowerAppend(a: string, b: string)
    ensures Lower(a + b) == Lower(a) + Lower(b)
  {
    assert Lower(a + b) == Lower(a) + Lower(b) by {
      var l, la, lb := Lower(a + b), Lower(a), Lower(b);
      assert forall i :: 0 <= i < |a| ==> (a + b)[i] == a[i];
      assert forall i :: |a| <= i < |a| + |b| ==> (a + b)[i] == b[i - |a|];
      assert forall i :: 0 <= i < |l| ==> l[i] == (la + lb)[i];
    }
  }

  predicate StartsWith(s: string, p: string) {
    p <= s
  }

  predicate EndsWith(s: string, p: string) {
    |p| <= |s| && s[|s| - |p|..] == p
  }

  /** The least index at which `p` occurs in `s`, as JavaScript's
      `indexOf` and a non-global `replace` find it. */
  function FirstIndex(s: string, p: string): (r: Option<nat>)
    ensures r.Some? ==> r.value + |p| <= |s| && StartsWith(s[r.value..], p)
    ensures r.Some? ==> forall k :: 0 <= k < r.value ==> !StartsWith(s[k..], p)
    ensures r.None? ==> forall k :: 0 <= k <= |s| ==> !StartsWith(s[k..], p)
    decreases |s|
  {
    if StartsWith(s, p) then Some(0)
    else if |s| == 0 then None
    else
      var rest := FirstIndex(s[1..], p);
      assert forall k :: 1 <= k <= |s| ==> s[k..] == s[1..][k - 1..];
      match rest
      case Some(i) => Some(i + 1)
      case None => None
  }

  /** JavaScript's `s.includes(p)` and Python's `p in s`. */
  predicate Contains(s: string, p: string) {
    FirstIndex(s, p).Some?
  }

  /** `p` occurs nowhere in `s`. */
  predicate Absent(s: string, p: string) {
    forall k :: 0 <= k <= |s| ==> !StartsWith(s[k..], p)
  }

  lemma ContainsIffOccurs(s: string, p: string)
    ensures Contains(s, p) <==> !Absent(s, p)
  {
  }
}
