/** `[...xs].sort(cmp)` for the comparators the app uses: a key extracted from
    each record, compared with `localeCompare`, ascending or descending. The
    sort is stable, as JavaScript's `Array.prototype.sort` is; it is modelled
    as an insertion sort in which an earlier element goes before later ones
    it ties with. */
module Sorting {
  import opened Text
  import opened Seqs

  /** Key `a` may stand before key `b`: the comparator returns at most 0. */
  predicate Precedes(a: string, b: string, desc: bool) {
    if desc then LexLe(b, a) else LexLe(a, b)
  }

  ghost predicate SortedBy<T>(s: seq<T>, key: T -> string, desc: bool) {
    forall i, j :: 0 <= i < j < |s| ==> Precedes(key(s[i]), key(s[j]), desc)
  }

  /** No two elements share a key. */
  ghost predicate NoTies<T>(s: seq<T>, key: T -> string) {
    forall i, j :: 0 <= i < j < |s| ==> key(s[i]) != key(s[j])
  }

  lemma PrecedesTotal(a: string, b: string, desc: bool)
    ensures Precedes(a, b, desc) || Precedes(b, a, desc)
  {
    LexLeTotal(a, b);
  }

  lemma PrecedesTransitive(a: string, b: string, c: string, desc: bool)
    requires Precedes(a, b, desc) && Precedes(b, c, desc)
    ensures Precedes(a, c, desc)
  {
    if desc { LexLeTransitive(c, b, a); } else { LexLeTransitive(a, b, c); }
  }

  lemma PrecedesAntisymmetric(a: string, b: string, desc: bool)
    requires Precedes(a, b, desc) && Precedes(b, a, desc)
    ensures a == b
  {
    LexLeAntisymmetric(a, b);
  }

  /** Puts `x` before the first element of `s` it may precede. */
  function Insert<T(==)>(x: T, s: seq<T>, key: T -> string, desc: bool): (r: seq<T>)
    ensures multiset(r) == multiset(s) + multiset{x}
    ensures |r| == |s| + 1
  {
    if |s| == 0 then [x]
    else if Precedes(key(x), key(s[0]), desc) then [x] + s
    else
      assert s == [s[0]] + s[1..];
      [s[0]] + Insert(x, s[1..], key, desc)
  }

  lemma {:induction false} InsertSorted<T>(x: T, s: seq<T>, key: T -> string, desc: bool)
    requires SortedBy(s, key, desc)
    ensures SortedBy(Insert(x, s, key, desc), key, desc)
  {
    if |s| > 0 {
      var r := Insert(x, s, key, desc);
      if Precedes(key(x), key(s[0]), desc) {
        forall j | 1 <= j < |r| ensures Precedes(key(x), key(r[j]), desc) {
          if j > 1 { PrecedesTransitive(key(x), key(s[0]), key(s[j - 1]), desc); }
        }
      } else {
        var t := Insert(x, s[1..], key, desc);
        InsertSorted(x, s[1..], key, desc);
        PrecedesTotal(key(x), key(s[0]), desc);
        forall j | 0 <= j < |t| ensures Precedes(key(s[0]), key(t[j]), desc) {
          assert t[j] in multiset(t);
          if t[j] != x {
            assert t[j] in multiset(s[1..]);
            var k :| 0 <= k < |s[1..]| && s[1..][k] == t[j];
            assert s[k + 1] == t[j];
          }
        }
        assert r == [s[0]] + t;
      }
    }
  }

  /** The stable sort of `xs` by `key`, ascending or (`desc`) descending:
      a permutation of `xs` ordered by the comparator. */
  function SortBy<T(==)>(xs: seq<T>, key: T -> string, desc: bool): (r: seq<T>)
    ensures multiset(r) == multiset(xs)
    ensures |r| == |xs|
    ensures SortedBy(r, key, desc)
  {
    if |xs| == 0 then []
    else
      var rest := SortBy(xs[1..], key, desc);
      assert xs == [xs[0]] + xs[1..];
      InsertSorted(xs[0], rest, key, desc);
      Insert(xs[0], rest, key, desc)
  }

  /** A permutation of a sequence without ties has no ties either. */
  lemma NoTiesPermutation<T>(s: seq<T>, t: seq<T>, key: T -> string)
    requires multiset(s) == multiset(t) && NoTies(t, key)
    ensures NoTies(s, key)
  {
    forall i, j | 0 <= i < j < |s| ensures key(s[i]) != key(s[j]) {
      if s[i] == s[j] {
        RepeatCounts(s, i, j);
        var p, q := CountsRepeat(t, s[i]);
        assert false;
      } else {
        assert s[i] in multiset(t) && s[j] in multiset(t);
        var p :| 0 <= p < |t| && t[p] == s[i];
        var q :| 0 <= q < |t| && t[q] == s[j];
        if p < q { assert key(t[p]) != key(t[q]); } else { assert key(t[q]) != key(t[p]); }
      }
    }
  }

  /** Without ties there is only one sorted permutation. */
  lemma {:induction false} SortedUnique<T>(s: seq<T>, t: seq<T>, key: T -> string, desc: bool)
    requires multiset(s) == multiset(t)
    requires SortedBy(s, key, desc) && SortedBy(t, key, desc)
    requires NoTies(t, key)
    ensures s == t
  {
    assert |s| == |multiset(s)| == |t|;
    if |s| > 0 {
      SortedSameHead(s, t, key, desc);
      MultisetOfTail(s);
      MultisetOfTail(t);
      SortedUnique(s[1..], t[1..], key, desc);
      assert s == [s[0]] + s[1..] && t == [t[0]] + t[1..];
    }
  }

  lemma MultisetOfTail<T>(s: seq<T>)
    requires |s| > 0
    ensures multiset(s[1..]) == multiset(s) - multiset{s[0]}
  {
    assert s == [s[0]] + s[1..];
  }

  lemma SortedSameHead<T>(s: seq<T>, t: seq<T>, key: T -> string, desc: bool)
    requires |s| > 0 && multiset(s) == multiset(t)
    requires SortedBy(s, key, desc) && SortedBy(t, key, desc)
    requires NoTies(t, key)
    ensures s[0] == t[0]
  {
    assert s[0] in multiset(t) && t[0] in multiset(s);
    var k :| 0 <= k < |t| && t[k] == s[0];
    var m :| 0 <= m < |s| && s[m] == t[0];
    if k > 0 {
      if m > 0 {
        PrecedesAntisymmetric(key(t[0]), key(t[k]), desc);
      }
      assert false;
    }
  }

  /** Without ties, sorting descending gives exactly the reverse of sorting
      ascending: the two comparators are mirror images. */
  lemma DescendingIsReversedAscending<T>(xs: seq<T>, key: T -> string)
    requires NoTies(xs, key)
    ensures SortBy(xs, key, true) == Reverse(SortBy(xs, key, false))
  {
    var a := SortBy(xs, key, false);
    var d := SortBy(xs, key, true);
    var r := Reverse(a);
    ReversePreservesMultiset(a);
    NoTiesPermutation(r, xs, key);
    ReverseFlipsOrder(a, key);
    SortedUnique(d, r, key, true);
  }

  lemma ReverseFlipsOrder<T>(a: seq<T>, key: T -> string)
    requires SortedBy(a, key, false)
    ensures SortedBy(Reverse(a), key, true)
  {
    var r := Reverse(a);
    forall i, j | 0 <= i < j < |r| ensures Precedes(key(r[i]), key(r[j]), true) {
      assert r[i] == a[|a| - 1 - i] && r[j] == a[|a| - 1 - j];
    }
  }
}
