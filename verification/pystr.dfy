/**
 * The handful of Python `str` operations the chat app relies on, stated on
 * `seq<char>`: `find` and `in`, slicing with non-negative bounds, `strip()`
 * with no argument, and `sep.join(items)`.
 */
module PyStr {

  /** Python's `str.isspace` for one code point: the characters `strip()` removes. */
  predicate IsSpace(c: char)
  {
    var n := c as int;
    || (0x09 <= n <= 0x0D)
    || (0x1C <= n <= 0x20)
    || n == 0x85 || n == 0xA0 || n == 0x1680
    || (0x2000 <= n <= 0x200A)
    || n == 0x2028 || n == 0x2029 || n == 0x202F || n == 0x205F || n == 0x3000
  }

  /** Every character of `s` from index `lo` up to (not including) `hi` is whitespace. */
  predicate SpaceBetween(s: string, lo: int, hi: int)
  {
    forall k :: lo <= k < hi && 0 <= k < |s| ==> IsSpace(s[k])
  }

  /** Neither the first nor the last character of `s` is whitespace. */
  predicate NoEdgeSpace(s: string)
  {
    |s| == 0 || (!IsSpace(s[0]) && !IsSpace(s[|s| - 1]))
  }

  // ---------------------------------------------------------------------------
  // Searching
  // ---------------------------------------------------------------------------

  /** `pat` occurs in `s` starting at index `k`. */
  predicate IsAt(s: string, pat: string, k: int)
  {
    0 <= k && k + |pat| <= |s| && s[k..k + |pat|] == pat
  }

  /** `pat` occurs somewhere in `s` (Python's `pat in s`). */
  ghost predicate Occurs(s: string, pat: string)
  {
    exists k :: IsAt(s, pat, k)
  }

  /** `k` is the index of the first occurrence of `pat` in `s`. */
  ghost predicate FirstAt(s: string, pat: string, k: int)
  {
    IsAt(s, pat, k) && forall m :: 0 <= m < k ==> !IsAt(s, pat, m)
  }

  /** The first occurrence of `pat` in `s` at or after `from`, or -1 if there is none. */
  function FindFrom(s: string, pat: string, from: nat): (r: int)
    ensures r == -1 || (from <= r && IsAt(s, pat, r))
    ensures r == -1 ==> forall k :: from <= k ==> !IsAt(s, pat, k)
    ensures r != -1 ==> forall k :: from <= k < r ==> !IsAt(s, pat, k)
    decreases |s| - from
  {
    if from + |pat| > |s| then -1
    else if s[from..from + |pat|] == pat then from
    else FindFrom(s, pat, from + 1)
  }

  /** Python's `s.find(pat)`: the lowest index where `pat` occurs, or -1. */
  function Find(s: string, pat: string): (r: int)
    ensures r == -1 <==> !Occurs(s, pat)
    ensures r != -1 ==> FirstAt(s, pat, r)
  {
    FindFrom(s, pat, 0)
  }

  /** Python's `pat in s`, decided through `find`. */
  predicate Contains(s: string, pat: string): (b: bool)
    ensures b <==> Occurs(s, pat)
  {
    Find(s, pat) != -1
  }

  /** The first occurrence is unique: whatever index satisfies `FirstAt` is what `find` returns. */
  lemma FindIsFirst(s: string, pat: string, k: int)
    requires FirstAt(s, pat, k)
    ensures Find(s, pat) == k
  {
    var r := Find(s, pat);
    assert r != -1 by { assert IsAt(s, pat, k); }
    if r < k {
      assert IsAt(s, pat, r);
    }
  }

  /** An occurrence inside `mid` is an occurrence inside `pre + mid + post`, shifted by `|pre|`. */
  lemma IsAtShift(pre: string, mid: string, post: string, pat: string, k: int)
    requires IsAt(mid, pat, k)
    ensures IsAt(pre + mid + post, pat, |pre| + k)
  {
    var w := pre + mid + post;
    assert w[|pre| + k..|pre| + k + |pat|] == mid[k..k + |pat|];
  }

  // ---------------------------------------------------------------------------
  // Slicing
  // ---------------------------------------------------------------------------

  /** Python's `s[lo:hi]` for bounds already inside the string: empty when `lo >= hi`. */
  function Slice(s: string, lo: nat, hi: nat): (r: string)
    requires lo <= |s| && hi <= |s|
    ensures lo >= hi ==> r == []
    ensures lo < hi ==> |r| == hi - lo && forall k :: 0 <= k < |r| ==> r[k] == s[lo + k]
  {
    if lo >= hi then [] else s[lo..hi]
  }

  // ---------------------------------------------------------------------------
  // Stripping whitespace
  // ---------------------------------------------------------------------------

  /** Python's `s.lstrip()`: drops the leading whitespace. */
  function TrimStart(s: string): (r: string)
    ensures |r| <= |s| && r == s[|s| - |r|..]
    ensures SpaceBetween(s, 0, |s| - |r|)
    ensures |r| == 0 || !IsSpace(r[0])
  {
    if |s| > 0 && IsSpace(s[0]) then
      TrimStart(s[1..])
    else s
  }

  /** Python's `s.rstrip()`: drops the trailing whitespace. */
  function TrimEnd(s: string): (r: string)
    ensures |r| <= |s| && r == s[..|r|]
    ensures SpaceBetween(s, |r|, |s|)
    ensures |r| == 0 || !IsSpace(r[|r| - 1])
  {
    if |s| > 0 && IsSpace(s[|s| - 1]) then
      TrimEnd(s[..|s| - 1])
    else s
  }

  /**
   * `r` is what remains of `s` once the whitespace before index `a` and
   * after index `a + |r|` is cut away, and `r` itself has no whitespace at
   * either end: the independent description of `strip()`.
   */
  ghost predicate StripsTo(s: string, a: int, r: string)
  {
    && 0 <= a && a + |r| <= |s|
    && r == s[a..a + |r|]
    && SpaceBetween(s, 0, a)
    && SpaceBetween(s, a + |r|, |s|)
    && NoEdgeSpace(r)
  }

  /** Python's `s.strip()` with no argument. */
  function Strip(s: string): (r: string)
    ensures NoEdgeSpace(r)
    ensures exists a :: StripsTo(s, a, r)
  {
    var t := TrimStart(s);
    var r := TrimEnd(t);
    StripWitness(s, t, r);
    r
  }

  /** The cut made by `TrimStart` then `TrimEnd` satisfies `StripsTo`. */
  lemma StripWitness(s: string, t: string, r: string)
    requires |t| <= |s| && t == s[|s| - |t|..] && SpaceBetween(s, 0, |s| - |t|)
    requires |t| == 0 || !IsSpace(t[0])
    requires |r| <= |t| && r == t[..|r|] && SpaceBetween(t, |r|, |t|)
    requires |r| == 0 || !IsSpace(r[|r| - 1])
    ensures StripsTo(s, |s| - |t|, r)
  {
    var a := |s| - |t|;
    assert s[a..a + |r|] == r;
    assert forall k :: a + |r| <= k < |s| ==> s[k] == t[k - a];
  }

  /** Any cut satisfying `StripsTo` yields exactly `Strip(s)`: the description determines the result. */
  lemma StripUnique(s: string, a: int, r: string)
    requires StripsTo(s, a, r)
    ensures Strip(s) == r
  {
    var r' := Strip(s);
    var a' :| StripsTo(s, a', r');
  }

  /** `strip()` leaves nothing exactly when the string is all whitespace. */
  lemma StripEmptyIff(s: string)
    ensures Strip(s) == [] <==> SpaceBetween(s, 0, |s|)
  {
    if SpaceBetween(s, 0, |s|) {
      assert StripsTo(s, 0, []);
      StripUnique(s, 0, []);
    } else {
      var a :| StripsTo(s, a, Strip(s));
    }
  }

  /** The same for a slice `s[lo..hi]`, stated on the characters of `s`. */
  lemma StripSliceEmptyIff(s: string, lo: int, hi: int)
    requires 0 <= lo <= hi <= |s|
    ensures Strip(s[lo..hi]) == [] <==> SpaceBetween(s, lo, hi)
  {
    var mid := s[lo..hi];
    StripEmptyIff(mid);
    if SpaceBetween(s, lo, hi) {
      forall k | 0 <= k < |mid|
        ensures IsSpace(mid[k])
      {
        assert mid[k] == s[lo + k];
      }
    } else {
      var k :| lo <= k < hi && !IsSpace(s[k]);
      assert mid[k - lo] == s[k];
    }
  }

  /** `strip()` of a string beginning with a non-space character only trims its end. */
  lemma StripKeepsLead(c: char, s: string)
    requires !IsSpace(c)
    ensures Strip([c] + s) == [c] + TrimEnd(s)
  {
    var t := TrimEnd(s);
    var r := [c] + t;
    var whole := [c] + s;
    assert whole[0..|r|] == r;
    assert StripsTo(whole, 0, r);
    StripUnique(whole, 0, r);
  }

  /** `strip()` never yields more than `rstrip()` does. */
  lemma StripNoLongerThanTrimEnd(s: string)
    ensures |Strip(s)| <= |TrimEnd(s)|
  {
    var r := Strip(s);
    var a :| StripsTo(s, a, r);
  }

  // ---------------------------------------------------------------------------
  // Joining
  // ---------------------------------------------------------------------------

  /** Where the `k`-th item begins inside `sep.join(items)`: the items before it, each with its separator. */
  function Offset(sep: string, items: seq<string>, k: nat): nat
    requires k <= |items|
  {
    if k == 0 then 0 else |items[0]| + |sep| + Offset(sep, items[1..], k - 1)
  }

  /** Python's `sep.join(items)`. */
  function Join(sep: string, items: seq<string>): (r: string)
    ensures |items| == 0 ==> r == []
    ensures |items| > 0 ==> |r| == Offset(sep, items, |items| - 1) + |items[|items| - 1]|
  {
    if |items| == 0 then []
    else if |items| == 1 then items[0]
    else items[0] + sep + Join(sep, items[1..])
  }

  /**
   * In `Join(sep, items)` the `k`-th item stands at `Offset(sep, items, k)`,
   * followed by the separator unless it is the last one: the joined string
   * holds every item, in order, with one separator between neighbours.
   */
  lemma {:induction false} JoinPlaces(sep: string, items: seq<string>, k: nat)
    requires k < |items|
    ensures IsAt(Join(sep, items), items[k], Offset(sep, items, k))
    ensures k + 1 < |items| ==> IsAt(Join(sep, items), sep, Offset(sep, items, k) + |items[k]|)
    decreases k
  {
    if k == 0 {
      JoinFirst(sep, items);
    } else {
      var rest := items[1..];
      JoinPlaces(sep, rest, k - 1);
      var o := Offset(sep, rest, k - 1);
      assert rest[k - 1] == items[k];
      JoinRestShift(sep, items, items[k], o);
      if k + 1 < |items| {
        JoinRestShift(sep, items, sep, o + |items[k]|);
      }
    }
  }

  /** The first item opens the joined string, followed by the separator when more items follow. */
  lemma JoinFirst(sep: string, items: seq<string>)
    requires |items| > 0
    ensures IsAt(Join(sep, items), items[0], 0)
    ensures |items| > 1 ==> IsAt(Join(sep, items), sep, |items[0]|)
  {
    var j := Join(sep, items);
    if |items| == 1 {
      assert j[0..|items[0]|] == items[0];
    } else {
      assert j == items[0] + sep + Join(sep, items[1..]);
      assert j[0..|items[0]|] == items[0];
      assert j[|items[0]|..|items[0]| + |sep|] == sep;
    }
  }

  /** An occurrence in the join of the later items is one in the whole join, past the first item and its separator. */
  lemma JoinRestShift(sep: string, items: seq<string>, pat: string, o: int)
    requires |items| > 1 && IsAt(Join(sep, items[1..]), pat, o)
    ensures IsAt(Join(sep, items), pat, |items[0]| + |sep| + o)
  {
    var jr := Join(sep, items[1..]);
    assert Join(sep, items) == (items[0] + sep) + jr + [];
    IsAtShift(items[0] + sep, jr, [], pat, o);
  }
}
