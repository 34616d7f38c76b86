/** Sequence operations the collections are built from: JavaScript's
    `Array.prototype.filter` and reversal, with the facts about them the
    other modules use. */
module Seqs {
  import opened Wrappers

  /** `xs.findIndex(p)` as an option: the first position whose element `p` accepts. */
  function FindFirst<T>(xs: seq<T>, p: T -> bool): (r: Option<nat>)
    ensures r.Some? ==> r.value < |xs| && p(xs[r.value])
    ensures r.Some? ==> forall j :: 0 <= j < r.value ==> !p(xs[j])
    ensures r.None? ==> forall j :: 0 <= j < |xs| ==> !p(xs[j])
  {
    if |xs| == 0 then None
    else if p(xs[0]) then Some(0)
    else match FindFirst(xs[1..], p)
      case None => None
      case Some(i) => Some(i + 1)
  }

  /** `xs.filter(keep)`: the elements `keep` accepts, in their original order. */
  function Filter<T>(xs: seq<T>, keep: T -> bool): (r: seq<T>)
    ensures |r| <= |xs|
    ensures forall x | x in xs :: x in r <==> keep(x)
    ensures forall x | x in r :: x in xs
    ensures (forall x | x in xs :: keep(x)) ==> r == xs
    ensures forall i :: 0 <= i < |r| ==> keep(r[i])
    ensures forall x | x in xs :: multiset(r)[x] == if keep(x) then multiset(xs)[x] else 0
  {
    if |xs| == 0 then []
    else
      assert xs == [xs[0]] + xs[1..];
      if keep(xs[0]) then [xs[0]] + Filter(xs[1..], keep)
      else Filter(xs[1..], keep)
  }

  /** Filtering keeps the relative order: the result is a subsequence. */
  ghost predicate Subsequence<T>(r: seq<T>, xs: seq<T>)
    decreases |xs|
  {
    if |r| == 0 then true
    else if |xs| == 0 then false
    else if r[0] == xs[0] then Subsequence(r[1..], xs[1..])
    else Subsequence(r, xs[1..])
  }

  lemma {:induction false} SubsequenceReflexive<T>(xs: seq<T>)
    ensures Subsequence(xs, xs)
  {
    if |xs| > 0 { SubsequenceReflexive(xs[1..]); }
  }

  lemma {:induction false} FilterIsSubsequence<T>(xs: seq<T>, keep: T -> bool)
    ensures Subsequence(Filter(xs, keep), xs)
  {
    if |xs| > 0 {
      FilterIsSubsequence(xs[1..], keep);
      var r := Filter(xs, keep);
      if keep(xs[0]) {
        assert r[1..] == Filter(xs[1..], keep);
      }
    }
  }

  function Reverse<T>(xs: seq<T>): (r: seq<T>)
    ensures |r| == |xs|
    ensures forall i :: 0 <= i < |xs| ==> r[i] == xs[|xs| - 1 - i]
  {
    if |xs| == 0 then [] else Reverse(xs[1..]) + [xs[0]]
  }

  lemma {:induction false} ReversePreservesMultiset<T>(xs: seq<T>)
    ensures multiset(Reverse(xs)) == multiset(xs)
  {
    if |xs| > 0 {
      ReversePreservesMultiset(xs[1..]);
      assert xs == [xs[0]] + xs[1..];
    }
  }

  /** Two equal elements at two positions make the element occur at least twice. */
  lemma RepeatCounts<T>(s: seq<T>, i: int, j: int)
    requires 0 <= i < j < |s| && s[i] == s[j]
    ensures multiset(s)[s[i]] >= 2
  {
    assert s == s[..i] + [s[i]] + s[i + 1..j] + [s[j]] + s[j + 1..];
  }

  /** An element that occurs at least twice sits at two distinct positions. */
  lemma {:induction false} CountsRepeat<T>(s: seq<T>, v: T) returns (p: int, q: int)
    requires multiset(s)[v] >= 2
    ensures 0 <= p < q < |s| && s[p] == v && s[q] == v
  {
    assert s == [s[0]] + s[1..];
    if s[0] == v {
      assert v in multiset(s[1..]);
      var k :| 0 <= k < |s[1..]| && s[1..][k] == v;
      p, q := 0, k + 1;
    } else {
      var p', q' := CountsRepeat(s[1..], v);
      p, q := p' + 1, q' + 1;
    }
  }
}
