/**
 The string primitives the management view relies on, with the JavaScript
 semantics it gets from the browser: `String.prototype.trim` and
 `String.prototype.indexOf`, plus the `split(marker)[1]` idiom built on them.
 */
module Text {

  /** A value that may be absent (an `undefined` result, a rejected promise, a thrown parse error). */
  datatype Option<+T> = None | Some(value: T)
  {
    function GetOr(default: T): T {
      match this
      case Some(v) => v
      case None => default
    }
  }

  // ---------------------------------------------------------------------------
  // Trimming
  // ---------------------------------------------------------------------------

  /** The characters `trim` removes: ECMAScript WhiteSpace and LineTerminator code points. */
  predicate IsJsSpace(c: char) {
    var n := c as int;
    n == 0x09 || n == 0x0A || n == 0x0B || n == 0x0C || n == 0x0D || n == 0x20
    || n == 0xA0 || n == 0x1680 || (0x2000 <= n <= 0x200A) || n == 0x2028
    || n == 0x2029 || n == 0x202F || n == 0x205F || n == 0x3000 || n == 0xFEFF
  }

  /** Every character of `s` is trimmable; `"".trim() === ""` and `"  ".trim() === ""` alike. */
  predicate IsBlank(s: string) {
    forall i :: 0 <= i < |s| ==> IsJsSpace(s[i])
  }

  /** Neither end of `s` can be trimmed further. */
  predicate IsTrimmed(s: string) {
    s == [] || (!IsJsSpace(s[0]) && !IsJsSpace(s[|s| - 1]))
  }

  /** The first position at or after `i` that holds a non-trimmable character (or `|s|`). */
  function SkipBlank(s: string, i: nat): (a: nat)
    requires i <= |s|
    ensures i <= a <= |s|
    ensures forall k :: i <= k < a ==> IsJsSpace(s[k])
    ensures a < |s| ==> !IsJsSpace(s[a])
    decreases |s| - i
  {
    if i < |s| && IsJsSpace(s[i]) then SkipBlank(s, i + 1) else i
  }

  /** The position just past the last non-trimmable character in `s[lo..j]` (or `lo`). */
  function SkipBlankBack(s: string, lo: nat, j: nat): (e: nat)
    requires lo <= j <= |s|
    ensures lo <= e <= j
    ensures forall k :: e <= k < j ==> IsJsSpace(s[k])
    ensures lo < e ==> !IsJsSpace(s[e - 1])
    decreases j
  {
    if lo < j && IsJsSpace(s[j - 1]) then SkipBlankBack(s, lo, j - 1) else j
  }

  /** `String.prototype.trim`. */
  function Trim(s: string): (r: string)
    ensures IsTrimmed(r)
    ensures r == [] <==> IsBlank(s)
    ensures exists i :: 0 <= i <= |s| - |r| && IsBlank(s[..i]) && s[i..i + |r|] == r && IsBlank(s[i + |r|..])
  {
    var a := SkipBlank(s, 0);
    var e := SkipBlankBack(s, a, |s|);
    TrimCore(s, a, e);
    s[a..e]
  }

  /** The facts behind the contract of `Trim`, stated over the two positions it cuts at. */
  lemma TrimCore(s: string, a: nat, e: nat)
    requires a == SkipBlank(s, 0) && e == SkipBlankBack(s, a, |s|)
    ensures IsTrimmed(s[a..e])
    ensures s[a..e] == [] <==> IsBlank(s)
    ensures IsBlank(s[..a]) && IsBlank(s[e..])
  {
    var r := s[a..e];
    if r != [] {
      assert r[0] == s[a] && r[|r| - 1] == s[e - 1];
    }
    assert IsBlank(s[..a]) by {
      forall k | 0 <= k < a ensures IsJsSpace(s[..a][k]) { assert s[..a][k] == s[k]; }
    }
    assert IsBlank(s[e..]) by {
      forall k | 0 <= k < |s| - e ensures IsJsSpace(s[e..][k]) { assert s[e..][k] == s[e + k]; }
    }
  }

  /**
   Trimming removes exactly blank padding: a trimmed core surrounded by blanks
   trims back to that core. Together with the contract of `Trim` this pins
   `Trim` down uniquely.
   */
  lemma TrimOfPadded(p: string, t: string, q: string)
    requires IsBlank(p) && IsBlank(q) && IsTrimmed(t)
    ensures Trim(p + t + q) == t
  {
    var x := p + t + q;
    assert forall k :: 0 <= k < |p| ==> x[k] == p[k];
    assert forall k :: |p| + |t| <= k < |x| ==> x[k] == q[k - |p| - |t|];
    if t != [] {
      assert x[|p|] == t[0] && x[|p| + |t| - 1] == t[|t| - 1];
      assert SkipBlank(x, 0) == |p|;
      assert SkipBlankBack(x, |p|, |x|) == |p| + |t|;
      assert x[|p|..|p| + |t|] == t;
    }
  }

  /** `trim` is idempotent. */
  lemma TrimIdempotent(s: string)
    ensures Trim(Trim(s)) == Trim(s)
  {
    TrimOfPadded([], Trim(s), []);
    assert [] + Trim(s) + [] == Trim(s);
  }

  // ---------------------------------------------------------------------------
  // Searching
  // ---------------------------------------------------------------------------

  /** `pat` occurs in `s` starting at position `k`. */
  predicate MatchAt(s: string, pat: string, k: nat) {
    k + |pat| <= |s| && s[k..k + |pat|] == pat
  }

  /** `pat` occurs somewhere in `s`. */
  ghost predicate Occurs(s: string, pat: string) {
    exists k: nat :: MatchAt(s, pat, k)
  }

  /** `s.indexOf(pat, from)`, with `None` standing for `-1`. */
  function IndexOfFrom(s: string, pat: string, from: nat): (r: Option<nat>)
    ensures r.Some? ==> from <= r.value && MatchAt(s, pat, r.value)
    ensures forall k: nat :: from <= k && MatchAt(s, pat, k) ==> r.Some? && r.value <= k
    decreases |s| - from
  {
    if from + |pat| > |s| then None
    else if s[from..from + |pat|] == pat then Some(from)
    else IndexOfFrom(s, pat, from + 1)
  }

  /** `s.indexOf(pat)`: the first occurrence of `pat` in `s`, if any. */
  function IndexOf(s: string, pat: string): (r: Option<nat>)
    ensures r.None? <==> !Occurs(s, pat)
    ensures r.Some? ==> MatchAt(s, pat, r.value) && forall k: nat :: k < r.value ==> !MatchAt(s, pat, k)
  {
    IndexOfFrom(s, pat, 0)
  }

  /** `s.indexOf(pat) !== -1`. */
  function Contains(s: string, pat: string): (b: bool)
    ensures b <==> Occurs(s, pat)
  {
    IndexOf(s, pat).Some?
  }
}
