/** The Python `str` methods the declaration checker relies on:
    `strip()`, `rstrip(',')`, `split(sep)[0]` and `split('=', 1)`.

    Each is characterised by what it keeps and what it removes, and the
    lemmas at the end say when two strings strip to the same thing.
 */
module PyStr {
  import opened Outcomes

  /** Python's `str.isspace` on one character: the characters with
      Unicode bidirectional class WS, B or S, or general category Zs. */
  predicate IsSpace(c: char) {
    || ('\t' <= c <= '\r')
    || ('\U{1C}' <= c <= '\U{1F}')
    || c == ' '
    || c == '\U{85}'
    || c == '\U{A0}'
    || c == '\U{1680}'
    || ('\U{2000}' <= c <= '\U{200A}')
    || c == '\U{2028}'
    || c == '\U{2029}'
    || c == '\U{202F}'
    || c == '\U{205F}'
    || c == '\U{3000}'
  }

  predicate AllSpace(s: string) {
    forall i :: 0 <= i < |s| ==> IsSpace(s[i])
  }

  /** No whitespace at either end. */
  predicate Trimmed(s: string) {
    s == [] || (!IsSpace(s[0]) && !IsSpace(s[|s| - 1]))
  }

  /** `s` is `m` padded with whitespace: `m` starts at index `i` and
      everything before and after it is whitespace. */
  predicate Surrounds(s: string, i: nat, m: string) {
    && i + |m| <= |s|
    && (forall k :: 0 <= k < |m| ==> s[i + k] == m[k])
    && (forall k :: 0 <= k < i ==> IsSpace(s[k]))
    && (forall k :: i + |m| <= k < |s| ==> IsSpace(s[k]))
  }

  /** The index of the first non-whitespace character at or after `i`. */
  function SkipSpace(s: string, i: nat): (r: nat)
    requires i <= |s|
    ensures i <= r <= |s|
    ensures forall k :: i <= k < r ==> IsSpace(s[k])
    ensures r < |s| ==> !IsSpace(s[r])
    decreases |s| - i
  {
    if i < |s| && IsSpace(s[i]) then SkipSpace(s, i + 1) else i
  }

  /** The index just after the last non-whitespace character before `j`,
      or `lo` when there is none from `lo` on. */
  function SkipSpaceBack(s: string, lo: nat, j: nat): (r: nat)
    requires lo <= j <= |s|
    ensures lo <= r <= j
    ensures forall k :: r <= k < j ==> IsSpace(s[k])
    ensures r > lo ==> !IsSpace(s[r - 1])
    decreases j
  {
    if j > lo && IsSpace(s[j - 1]) then SkipSpaceBack(s, lo, j - 1) else j
  }

  /** `s.strip()`: `s` without its leading and trailing whitespace. */
  function Strip(s: string): (r: string)
    ensures Trimmed(r)
    ensures Surrounds(s, SkipSpace(s, 0), r)
  {
    var a := SkipSpace(s, 0);
    var e := SkipSpaceBack(s, a, |s|);
    var r := s[a..e];
    assert r != [] ==> r[0] == s[a] && r[|r| - 1] == s[e - 1];
    r
  }

  /** The padded text is the slice of the padded string it occupies. */
  lemma SurroundedSlice(s: string, i: nat, m: string)
    requires Surrounds(s, i, m)
    ensures s[i..i + |m|] == m
  {
    var x := s[i..i + |m|];
    forall k | 0 <= k < |m|
      ensures x[k] == m[k]
    {
      assert x[k] == s[i + k];
    }
  }

  /** `s.rstrip(c)`: `s` without its trailing run of `c`. */
  function RStripChar(s: string, c: char): (r: string)
    ensures |r| <= |s| && r == s[..|r|]
    ensures forall i :: |r| <= i < |s| ==> s[i] == c
    ensures r == [] || r[|r| - 1] != c
    decreases |s|
  {
    if |s| > 0 && s[|s| - 1] == c then RStripChar(s[..|s| - 1], c) else s
  }

  /** `pat` occurs in `s` starting at index `i`. */
  predicate OccursAt(s: string, pat: string, i: nat) {
    i + |pat| <= |s| && s[i..i + |pat|] == pat
  }

  /** The first index at or after `i` where `pat` occurs in `s`. */
  function FindFrom(s: string, pat: string, i: nat): (r: Option<nat>)
    requires i <= |s|
    ensures r.Some? ==> i <= r.value && OccursAt(s, pat, r.value)
    ensures r.Some? ==> forall j :: i <= j < r.value ==> !OccursAt(s, pat, j)
    ensures r.None? ==> forall j :: i <= j <= |s| ==> !OccursAt(s, pat, j)
    decreases |s| - i
  {
    if OccursAt(s, pat, i) then Some(i)
    else if i == |s| then None
    else FindFrom(s, pat, i + 1)
  }

  /** `s.find(pat)`, with `None` for Python's `-1`. */
  function Find(s: string, pat: string): (r: Option<nat>)
    ensures r.Some? ==> OccursAt(s, pat, r.value)
    ensures r.Some? ==> forall j :: 0 <= j < r.value ==> !OccursAt(s, pat, j)
    ensures r.None? ==> forall j :: 0 <= j <= |s| ==> !OccursAt(s, pat, j)
  {
    FindFrom(s, pat, 0)
  }

  /** A first occurrence is what `Find` reports. */
  lemma FindIs(s: string, pat: string, i: nat)
    requires OccursAt(s, pat, i)
    requires forall j :: 0 <= j < i ==> !OccursAt(s, pat, j)
    ensures Find(s, pat) == Some(i)
  {
  }

  /** `s.split(pat)[0]`: the text before the first `pat`, or all of `s`. */
  function SplitHead(s: string, pat: string): (r: string)
    ensures |r| <= |s| && r == s[..|r|]
    ensures forall j :: 0 <= j < |r| ==> !OccursAt(s, pat, j)
    ensures |r| < |s| ==> OccursAt(s, pat, |r|)
  {
    match Find(s, pat)
    case Some(i) => s[..i]
    case None => s
  }

  /** The index of the first `c` in `s`. */
  function IndexOf(s: string, c: char): (r: Option<nat>)
    ensures r.Some? ==> r.value < |s| && s[r.value] == c && c !in s[..r.value]
    ensures r.None? ==> c !in s
    decreases |s|
  {
    if |s| == 0 then None
    else if s[0] == c then Some(0)
    else
      match IndexOf(s[1..], c)
      case Some(i) => assert s[..i + 1] == [s[0]] + s[1..][..i]; Some(i + 1)
      case None => None
  }

  /** In a padded string, every non-space character lies inside the padded text. */
  lemma NonSpaceInside(s: string, i: nat, m: string, k: nat)
    requires Surrounds(s, i, m)
    requires k < |s| && !IsSpace(s[k])
    ensures i <= k < i + |m|
  {
  }

  /** `strip()` is determined by any padding decomposition of its input. */
  lemma StripUnique(s: string, i: nat, m: string)
    requires Surrounds(s, i, m) && Trimmed(m)
    ensures Strip(s) == m
  {
    PaddingUnique(s, i, m, SkipSpace(s, 0), Strip(s));
  }

  /** A string pads at most one trimmed text. */
  lemma PaddingUnique(s: string, i: nat, m: string, j: nat, r: string)
    requires Surrounds(s, i, m) && Trimmed(m)
    requires Surrounds(s, j, r) && Trimmed(r)
    ensures m == r
  {
    if m != [] {
      assert s[i] == m[0];
      assert s[i + |m| - 1] == m[|m| - 1];
      NonSpaceInside(s, j, r, i);
      NonSpaceInside(s, j, r, i + |m| - 1);
      assert s[j] == r[0];
      assert s[j + |r| - 1] == r[|r| - 1];
      NonSpaceInside(s, i, m, j);
      NonSpaceInside(s, i, m, j + |r| - 1);
      assert i == j && |m| == |r|;
      forall k | 0 <= k < |m|
        ensures m[k] == r[k]
      {
        assert m[k] == s[i + k];
      }
    }
  }

  /** Whitespace in front of a padded string pads its text further. */
  lemma SpaceInFront(a: string, x: string, i: nat, m: string)
    requires AllSpace(a) && Surrounds(x, i, m)
    ensures Surrounds(a + x, |a| + i, m)
  {
    var s := a + x;
    forall k | 0 <= k < |m|
      ensures s[|a| + i + k] == m[k]
    {
      assert s[|a| + i + k] == x[i + k];
    }
    forall k | 0 <= k < |a| + i
      ensures IsSpace(s[k])
    {
      if k >= |a| {
        assert s[k] == x[k - |a|];
      }
    }
    forall k | |a| + i + |m| <= k < |s|
      ensures IsSpace(s[k])
    {
      assert s[k] == x[k - |a|];
    }
  }

  /** Whitespace behind a padded string pads its text further. */
  lemma SpaceBehind(x: string, b: string, i: nat, m: string)
    requires AllSpace(b) && Surrounds(x, i, m)
    ensures Surrounds(x + b, i, m)
  {
    var s := x + b;
    forall k | 0 <= k < |m|
      ensures s[i + k] == m[k]
    {
      assert s[i + k] == x[i + k];
    }
    forall k | 0 <= k < i
      ensures IsSpace(s[k])
    {
      assert s[k] == x[k];
    }
    forall k | i + |m| <= k < |s|
      ensures IsSpace(s[k])
    {
      if k >= |x| {
        assert s[k] == b[k - |x|];
      } else {
        assert s[k] == x[k];
      }
    }
  }

  /** Whitespace in front of a string does not change what it strips to. */
  lemma StripAfterSpace(a: string, x: string)
    requires AllSpace(a)
    ensures Strip(a + x) == Strip(x)
  {
    var m := Strip(x);
    var i := SkipSpace(x, 0);
    SpaceInFront(a, x, i, m);
    StripUnique(a + x, |a| + i, m);
  }

  /** A string without whitespace at either end strips to itself. */
  lemma StripTrimmed(s: string)
    requires Trimmed(s)
    ensures Strip(s) == s
  {
    StripUnique(s, 0, s);
  }

  /** Text padded with whitespace on both sides strips to the text. */
  lemma StripPadded(a: string, m: string, b: string)
    requires AllSpace(a) && AllSpace(b) && Trimmed(m)
    ensures Strip(a + m + b) == m
  {
    assert Surrounds(m, 0, m);
    SpaceInFront(a, m, 0, m);
    SpaceBehind(a + m, b, |a|, m);
    StripUnique(a + m + b, |a|, m);
  }

  /** A prefix reaching into a slice is the text before the slice and a
      prefix of the slice. */
  lemma PrefixIntoSlice(s: string, i: nat, m: string, p: nat)
    requires i + |m| <= |s| && m == s[i..i + |m|] && p <= |m|
    ensures s[..i + p] == s[..i] + m[..p]
  {
    var x := s[..i + p];
    var y := s[..i] + m[..p];
    forall k | 0 <= k < |x|
      ensures x[k] == y[k]
    {
      if k >= i {
        assert m[k - i] == s[i..i + |m|][k - i];
      }
    }
  }

  /** An occurrence carries over to any window holding the same characters. */
  lemma OccursInWindow(s: string, j: nat, t: string, k: nat, pat: string)
    requires OccursAt(s, pat, j) && k + |pat| <= |t|
    requires forall d :: k <= d < k + |pat| ==> t[d] == s[d - k + j]
    ensures OccursAt(t, pat, k)
  {
    var x := t[k..k + |pat|];
    forall d | 0 <= d < |pat|
      ensures x[d] == pat[d]
    {
      assert x[d] == t[k + d];
      assert pat[d] == s[j..j + |pat|][d];
    }
  }

  /** A pattern does not occur where its first character does not. */
  lemma NotOccursAtFirst(s: string, pat: string, j: nat)
    requires |pat| > 0 && j < |s| && s[j] != pat[0]
    ensures !OccursAt(s, pat, j)
  {
    if j + |pat| <= |s| {
      assert s[j..j + |pat|][0] == s[j];
    }
  }

  /** A pattern does not occur where its last character does not. */
  lemma NotOccursAtLast(s: string, pat: string, j: nat)
    requires |pat| > 0 && j + |pat| <= |s| && s[j + |pat| - 1] != pat[|pat| - 1]
    ensures !OccursAt(s, pat, j)
  {
    assert s[j..j + |pat|][|pat| - 1] == s[j + |pat| - 1];
  }

  /** A pattern that starts and ends with non-space characters occurs in a
      padded string exactly where it occurs in the padded text. */
  lemma OccursInPadded(s: string, i: nat, m: string, pat: string, j: nat)
    requires Surrounds(s, i, m)
    requires |pat| > 0 && !IsSpace(pat[0]) && !IsSpace(pat[|pat| - 1])
    requires j <= |s|
    ensures OccursAt(s, pat, j) <==> i <= j && OccursAt(m, pat, j - i)
  {
    if j < i {
      NotOccursAtFirst(s, pat, j);
    } else if j + |pat| <= i + |m| {
      var x := s[j..j + |pat|];
      var y := m[j - i..j - i + |pat|];
      forall k | 0 <= k < |pat|
        ensures x[k] == y[k]
      {
        assert x[k] == s[i + (j - i + k)];
      }
      assert x == y;
    } else if j + |pat| <= |s| {
      NotOccursAtLast(s, pat, j);
    }
  }

  /** `Find` in a padded string is `Find` in the padded text, shifted. */
  lemma FindInPadded(s: string, i: nat, m: string, pat: string)
    requires Surrounds(s, i, m)
    requires |pat| > 0 && !IsSpace(pat[0]) && !IsSpace(pat[|pat| - 1])
    ensures Find(s, pat) == match Find(m, pat) case Some(p) => Some(i + p) case None => None
  {
    match Find(m, pat)
    case Some(p) =>
      OccursInPadded(s, i, m, pat, i + p);
      forall j | 0 <= j < i + p
        ensures !OccursAt(s, pat, j)
      {
        OccursInPadded(s, i, m, pat, j);
      }
      FindIs(s, pat, i + p);
    case None =>
      if Find(s, pat).Some? {
        OccursInPadded(s, i, m, pat, Find(s, pat).value);
      }
  }
}
