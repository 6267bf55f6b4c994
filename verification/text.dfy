/**
 * The string operations of Go's `strings` package that the registry
 * relies on: searching for a separator, `SplitN(s, sep, 2)` (as Cut),
 * `Contains`, `ToLower`, `TrimPrefix` and `TrimSuffix`.
 */
module Text {
  import opened Outcomes

  /** `sep` occurs in `s` starting at index `i`. */
  predicate OccursAt(s: string, sep: string, i: int) {
    0 <= i && i + |sep| <= |s| && s[i..i + |sep|] == sep
  }

  function FindFrom(s: string, sep: string, k: nat): (r: Option<nat>)
    requires k <= |s|
    ensures r.Some? ==> k <= r.value && OccursAt(s, sep, r.value)
    ensures r.Some? ==> forall i :: k <= i < r.value ==> !OccursAt(s, sep, i)
    ensures r.None? ==> forall i :: k <= i ==> !OccursAt(s, sep, i)
    decreases |s| - k
  {
    if k + |sep| > |s| then None
    else if s[k..k + |sep|] == sep then Some(k)
    else FindFrom(s, sep, k + 1)
  }

  /** `strings.Index`: the first index at which `sep` occurs in `s`. */
  function FindFirst(s: string, sep: string): (r: Option<nat>)
    ensures r.Some? ==> OccursAt(s, sep, r.value)
    ensures r.Some? ==> forall i :: 0 <= i < r.value ==> !OccursAt(s, sep, i)
    ensures r.None? <==> forall i :: !OccursAt(s, sep, i)
  {
    FindFrom(s, sep, 0)
  }

  /** `strings.Contains`. */
  predicate Contains(s: string, sep: string) {
    FindFirst(s, sep).Some?
  }

  /**
   * `strings.SplitN(s, sep, 2)`: when `sep` occurs, the text before its first
   * occurrence and everything after it (the slice has length 2); otherwise
   * None (the slice holds `s` alone).
   */
  function Cut(s: string, sep: string): (r: Option<(string, string)>)
    ensures r.None? <==> !Contains(s, sep)
    ensures r.Some? ==> r.value.0 + sep + r.value.1 == s
    ensures r.Some? ==> forall i :: 0 <= i < |r.value.0| ==> !OccursAt(s, sep, i)
  {
    match FindFirst(s, sep)
    case None => None
    case Some(i) =>
      assert s == s[..i] + sep + s[i + |sep|..];
      Some((s[..i], s[i + |sep|..]))
  }

  /** Two texts joined by a separator that the first does not contain are cut back apart. */
  lemma CutJoined(a: string, sep: string, b: string)
    requires |sep| > 0
    requires !Contains(a + sep[..|sep| - 1], sep)
    ensures Cut(a + sep + b, sep) == Some((a, b))
  {
    var s := a + sep + b;
    assert OccursAt(s, sep, |a|) by { assert s[|a|..|a| + |sep|] == sep; }
    forall i | 0 <= i < |a|
      ensures !OccursAt(s, sep, i)
    {
      var t := a + sep[..|sep| - 1];
      if OccursAt(s, sep, i) {
        assert i + |sep| <= |t|;
        assert t[i..i + |sep|] == s[i..i + |sep|];
        assert OccursAt(t, sep, i);
      }
    }
    var k := FindFirst(s, sep).value;
    assert k == |a|;
    assert s[..k] == a && s[k + |sep|..] == b;
  }

  function LowerChar(c: char): (d: char)
    ensures 'A' <= c <= 'Z' ==> d as int == c as int + 32
    ensures !('A' <= c <= 'Z') ==> d == c
  {
    if 'A' <= c <= 'Z' then (c as int + 32) as char else c
  }

  /** `strings.ToLower`, restricted to ASCII letters. */
  function ToLower(s: string): (r: string)
    ensures |r| == |s|
    ensures forall i :: 0 <= i < |s| ==> r[i] == LowerChar(s[i])
  {
    seq(|s|, i requires 0 <= i < |s| => LowerChar(s[i]))
  }

  predicate HasPrefix(s: string, p: string) { |p| <= |s| && s[..|p|] == p }

  predicate HasSuffix(s: string, p: string) { |p| <= |s| && s[|s| - |p|..] == p }

  /** `strings.TrimPrefix`: removes `p` once from the front of `s` when it is there. */
  function TrimPrefix(s: string, p: string): (r: string)
    ensures HasPrefix(s, p) ==> p + r == s
    ensures !HasPrefix(s, p) ==> r == s
  {
    if HasPrefix(s, p) then s[|p|..] else s
  }

  /** `strings.TrimSuffix`: removes `p` once from the end of `s` when it is there. */
  function TrimSuffix(s: string, p: string): (r: string)
    ensures HasSuffix(s, p) ==> r + p == s
    ensures !HasSuffix(s, p) ==> r == s
  {
    if HasSuffix(s, p) then s[..|s| - |p|] else s
  }
}
