/** What sorting an array of plain integers in place means. */
module Sorting {

  ghost predicate Ascending(s: seq<int>) {
    forall i, j :: 0 <= i < j < |s| ==> s[i] <= s[j]
  }

  ghost predicate Descending(s: seq<int>) {
    forall i, j :: 0 <= i < j < |s| ==> s[i] >= s[j]
  }

  /** `t` holds the same values as `s` and differs from it only within `lo..hi`. */
  ghost predicate Rearranged(s: seq<int>, t: seq<int>, lo: nat, hi: nat)
    requires lo <= hi <= |s|
  {
    |t| == |s| && multiset(t) == multiset(s) && t[..lo] == s[..lo] && t[hi..] == s[hi..]
  }

  lemma RearrangedTwice(s: seq<int>, t: seq<int>, u: seq<int>, lo: nat, hi: nat)
    requires lo <= hi <= |s| && Rearranged(s, t, lo, hi) && Rearranged(t, u, lo, hi)
    ensures Rearranged(s, u, lo, hi)
  {
  }

  lemma RearrangedWider(s: seq<int>, t: seq<int>, lo: nat, hi: nat, lo': nat, hi': nat)
    requires lo' <= lo <= hi <= hi' <= |s| && Rearranged(s, t, lo, hi)
    ensures Rearranged(s, t, lo', hi')
  {
    assert t[..lo'] == t[..lo][..lo'] && s[..lo'] == s[..lo][..lo'];
    assert t[hi'..] == t[hi..][hi' - hi..] && s[hi'..] == s[hi..][hi' - hi..];
  }

  lemma ThreeParts(s: seq<int>, lo: nat, hi: nat)
    requires lo <= hi <= |s|
    ensures multiset(s[lo..hi]) == multiset(s) - multiset(s[..lo]) - multiset(s[hi..])
  {
    assert s == s[..lo] + s[lo..hi] + s[hi..];
    assert multiset(s) == multiset(s[..lo]) + multiset(s[lo..hi]) + multiset(s[hi..]);
  }

  /** Within the stretch that changed, the values are the same. */
  lemma StretchSame(s: seq<int>, t: seq<int>, lo: nat, hi: nat)
    requires lo <= hi <= |s| && Rearranged(s, t, lo, hi)
    ensures multiset(t[lo..hi]) == multiset(s[lo..hi])
    ensures forall x :: x in t[lo..hi] ==> x in s[lo..hi]
  {
    ThreeParts(s, lo, hi);
    ThreeParts(t, lo, hi);
    forall x | x in t[lo..hi] ensures x in s[lo..hi] {
      assert x in multiset(t[lo..hi]);
    }
  }

  lemma SwapSame(s: seq<int>, i: nat, j: nat)
    requires i < |s| && j < |s|
    ensures multiset(s[i := s[j]][j := s[i]]) == multiset(s)
  {
  }

  /** There is only one way to sort integers. */
  lemma {:induction false} AscendingUnique(s: seq<int>, t: seq<int>)
    requires Ascending(s) && Ascending(t) && multiset(s) == multiset(t)
    ensures s == t
  {
    assert |s| == |multiset(s)| == |multiset(t)| == |t|;
    if s != [] {
      FirstIsLeast(s, t);
      FirstIsLeast(t, s);
      WithoutFirst(s);
      WithoutFirst(t);
      AscendingUnique(s[1..], t[1..]);
    }
  }

  lemma FirstIsLeast(s: seq<int>, t: seq<int>)
    requires Ascending(s) && multiset(s) == multiset(t) && |t| == |s| > 0
    ensures s[0] <= t[0]
  {
    assert t[0] in multiset(s);
    var i :| 0 <= i < |s| && s[i] == t[0];
  }

  lemma WithoutFirst(s: seq<int>)
    requires s != []
    ensures s == [s[0]] + s[1..] && multiset(s[1..]) == multiset(s) - multiset{s[0]}
  {
    assert s == [s[0]] + s[1..];
  }

  function Reversed(s: seq<int>): (r: seq<int>)
    ensures |r| == |s| && forall i :: 0 <= i < |s| ==> r[i] == s[|s| - 1 - i]
  {
    seq(|s|, i requires 0 <= i < |s| => s[|s| - 1 - i])
  }

  lemma {:induction false} ReversedSame(s: seq<int>)
    ensures multiset(Reversed(s)) == multiset(s)
  {
    if s != [] {
      var n := |s| - 1;
      assert s == s[..n] + [s[n]];
      assert Reversed(s) == [s[n]] + Reversed(s[..n]);
      ReversedSame(s[..n]);
    }
  }
}
