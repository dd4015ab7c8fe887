/** Ordering rows by a real-valued key, as pandas `sort_values(key, ascending=False)`
    does. pandas' default quicksort does not fix the relative order of ties, so the
    model states what every admissible ordering shares (it is a permutation of the
    input, non-increasing by key) and proves that all of them carry the same key
    column. `Sort` is one such ordering: a stable insertion sort. */
module Ranking {
  import opened Seqs

  ghost predicate SortedDesc<T>(s: seq<T>, key: T -> real)
  {
    forall i, j :: 0 <= i < j < |s| ==> key(s[i]) >= key(s[j])
  }

  /** `r` is an ordering that `sort_values(ascending=False)` may return for `s`. */
  ghost predicate IsRanking<T>(r: seq<T>, s: seq<T>, key: T -> real)
  {
    multiset(r) == multiset(s) && SortedDesc(r, key)
  }

  /** Places `x` in front of the first element whose key does not exceed its own. */
  function Insert<T>(x: T, s: seq<T>, key: T -> real): (r: seq<T>)
    requires SortedDesc(s, key)
    ensures SortedDesc(r, key)
    ensures |r| == |s| + 1
    ensures multiset(r) == multiset(s) + multiset{x}
    ensures forall i :: 0 <= i < |r| ==> r[i] == x || r[i] in s
  {
    if |s| == 0 then [x]
    else if key(s[0]) <= key(x) then [x] + s
    else
      var t := Insert(x, s[1..], key);
      InsertBehindHead(x, s, t, key);
      [s[0]] + t
  }

  /** The step of `Insert` that keeps the head: `x` ranks below `s[0]`, so
      putting `s[0]` in front of the insertion into the tail keeps the order. */
  lemma InsertBehindHead<T>(x: T, s: seq<T>, t: seq<T>, key: T -> real)
    requires |s| > 0 && SortedDesc(s, key) && key(x) < key(s[0])
    requires SortedDesc(t, key)
    requires multiset(t) == multiset(s[1..]) + multiset{x}
    requires forall i :: 0 <= i < |t| ==> t[i] == x || t[i] in s[1..]
    ensures SortedDesc([s[0]] + t, key)
    ensures multiset([s[0]] + t) == multiset(s) + multiset{x}
    ensures forall i :: 0 <= i < |[s[0]] + t| ==> ([s[0]] + t)[i] == x || ([s[0]] + t)[i] in s
  {
    assert s == [s[0]] + s[1..];
    forall i | 0 <= i < |t|
      ensures key(t[i]) <= key(s[0])
    {
      if t[i] != x {
        var j :| 0 <= j < |s[1..]| && s[1..][j] == t[i];
        assert s[j + 1] == t[i];
      }
    }
  }

  /** A ranking of `s` by `key`; equal keys keep their input order. */
  function Sort<T>(s: seq<T>, key: T -> real): (r: seq<T>)
    ensures |r| == |s|
    ensures IsRanking(r, s, key)
    decreases |s|
  {
    if |s| == 0 then []
    else
      assert s == [s[0]] + s[1..];
      var r := Insert(s[0], Sort(s[1..], key), key);
      assert multiset(r) == multiset(s);
      r
  }

  lemma SortedWithout<T>(b: seq<T>, j: nat, key: T -> real)
    requires j < |b| && SortedDesc(b, key)
    ensures SortedDesc(b[..j] + b[j + 1..], key)
  {
    var rest := b[..j] + b[j + 1..];
    assert forall m :: 0 <= m < |rest| ==> rest[m] == if m < j then b[m] else b[m + 1];
  }

  /** Two sorted orderings of the same rows start with the same key, and the
      first row of one sits, in the other, inside a run of rows with that key. */
  lemma LeadingKey<T>(a: seq<T>, b: seq<T>, key: T -> real, j: nat)
    requires multiset(a) == multiset(b) && |a| > 0
    requires SortedDesc(a, key) && SortedDesc(b, key)
    requires j < |b| && b[j] == a[0]
    ensures forall m :: 0 <= m <= j ==> key(b[m]) == key(a[0])
  {
    assert b[0] in multiset(a);
    var i0 :| 0 <= i0 < |a| && a[i0] == b[0];
  }

  lemma RemoveLeading<T>(a: seq<T>, b: seq<T>, j: nat)
    requires multiset(a) == multiset(b) && |a| > 0
    requires j < |b| && b[j] == a[0]
    ensures multiset(a[1..]) == multiset(b[..j] + b[j + 1..])
  {
    MultisetRemoveAt(b, j);
    MultisetRemoveAt(a, 0);
    assert a[..0] + a[1..] == a[1..];
    MultisetCancel(multiset(a[1..]), multiset(b[..j] + b[j + 1..]), a[0]);
  }

  lemma {:induction false} KeysAgree<T>(a: seq<T>, b: seq<T>, key: T -> real)
    requires multiset(a) == multiset(b)
    requires SortedDesc(a, key) && SortedDesc(b, key)
    ensures |a| == |b|
    ensures forall i :: 0 <= i < |a| ==> key(a[i]) == key(b[i])
    decreases |a|
  {
    assert |a| == |multiset(a)| == |multiset(b)| == |b|;
    if |a| > 0 {
      assert a[0] in multiset(b);
      var j :| 0 <= j < |b| && b[j] == a[0];
      LeadingKey(a, b, key, j);
      var rest := b[..j] + b[j + 1..];
      RemoveLeading(a, b, j);
      SortedWithout(b, j, key);
      KeysAgree(a[1..], rest, key);
      forall i | 0 <= i < |a|
        ensures key(a[i]) == key(b[i])
      {
        if i > 0 {
          assert a[i] == a[1..][i - 1];
          if i - 1 < j {
            assert rest[i - 1] == b[i - 1];
          } else {
            assert rest[i - 1] == b[i];
          }
        }
      }
    }
  }

  /** Every ranking of the same rows carries the same key column, so a claim about
      keys holds whatever order pandas gives to ties. */
  lemma KeysDetermined<T>(r1: seq<T>, r2: seq<T>, s: seq<T>, key: T -> real)
    requires IsRanking(r1, s, key) && IsRanking(r2, s, key)
    ensures |r1| == |r2| == |s|
    ensures forall i :: 0 <= i < |r1| ==> key(r1[i]) == key(r2[i])
  {
    assert |s| == |multiset(s)|;
    KeysAgree(r1, r2, key);
  }

  lemma {:induction false} FilterSorted<T>(s: seq<T>, key: T -> real, p: T -> bool)
    requires SortedDesc(s, key)
    ensures SortedDesc(Filter(s, p), key)
    decreases |s|
  {
    if |s| > 0 {
      assert SortedDesc(s[1..], key);
      FilterSorted(s[1..], key, p);
      var t := Filter(s[1..], p);
      assert forall i :: 0 <= i < |t| ==> t[i] in s[1..];
    }
  }

  /** Masking a ranking gives a ranking of the masked rows: sorting then
      filtering is the same as filtering then sorting, up to ties. */
  lemma FilterRanking<T>(r: seq<T>, s: seq<T>, key: T -> real, p: T -> bool)
    requires IsRanking(r, s, key)
    ensures IsRanking(Filter(r, p), Filter(s, p), key)
  {
    FilterMultiset(r, s, p);
    FilterSorted(r, key, p);
  }

  /** Any Python slice of a ranking is still in non-increasing key order. */
  lemma SliceOfSorted<T>(s: seq<T>, start: int, stop: int, key: T -> real)
    requires SortedDesc(s, key)
    ensures SortedDesc(Slice(s, start, stop), key)
  {
    var lo, hi := SliceBound(start, |s|), SliceBound(stop, |s|);
    if lo < hi {
      assert forall i :: 0 <= i < hi - lo ==> Slice(s, start, stop)[i] == s[lo + i];
    }
  }

  /** Dropping the first row of a ranking drops one row that no other row
      outranks; for a non-negative count, `r[1:count+1]` is the next `count` rows. */
  lemma DropFirstRanked<T>(r: seq<T>, s: seq<T>, key: T -> real, count: int)
    requires IsRanking(r, s, key) && |s| > 0
    ensures |r| == |s|
    ensures multiset(r[1..]) + multiset{r[0]} == multiset(s)
    ensures forall i :: 0 <= i < |s| ==> key(s[i]) <= key(r[0])
    ensures count >= 0 ==> Slice(r, 1, count + 1) == Head(r[1..], count)
  {
    RankingLength(r, s);
    assert r == [r[0]] + r[1..];
    FirstIsTop(r, s, key);
    if count >= 0 {
      SliceFromOne(r, count);
    }
  }

  lemma RankingLength<T>(r: seq<T>, s: seq<T>)
    requires multiset(r) == multiset(s)
    ensures |r| == |s|
  {
    assert |r| == |multiset(r)| == |multiset(s)| == |s|;
  }

  /** The first row of a non-empty ranking carries the largest key. */
  lemma FirstIsTop<T>(r: seq<T>, s: seq<T>, key: T -> real)
    requires IsRanking(r, s, key) && |r| > 0
    ensures forall i :: 0 <= i < |s| ==> key(s[i]) <= key(r[0])
  {
    forall i | 0 <= i < |s|
      ensures key(s[i]) <= key(r[0])
    {
      assert s[i] in multiset(r);
      var k :| 0 <= k < |r| && r[k] == s[i];
    }
  }

  /** Two rankings of the same rows agree, slice for slice, on their keys. */
  lemma SliceKeysDetermined<T>(r1: seq<T>, r2: seq<T>, s: seq<T>, key: T -> real, start: int, stop: int)
    requires IsRanking(r1, s, key) && IsRanking(r2, s, key)
    ensures |Slice(r1, start, stop)| == |Slice(r2, start, stop)|
    ensures forall k :: 0 <= k < |Slice(r1, start, stop)| ==>
      key(Slice(r1, start, stop)[k]) == key(Slice(r2, start, stop)[k])
  {
    KeysDetermined(r1, r2, s, key);
    var lo, hi := SliceBound(start, |r1|), SliceBound(stop, |r1|);
    if lo < hi {
      forall k | 0 <= k < hi - lo
        ensures key(Slice(r1, start, stop)[k]) == key(Slice(r2, start, stop)[k])
      {
        assert Slice(r1, start, stop)[k] == r1[lo + k];
        assert Slice(r2, start, stop)[k] == r2[lo + k];
      }
    }
  }

  /** pandas `head(k)` of a ranking: the rows it keeps and the rows it leaves
      together make up the input, and no row left out outranks a row kept. */
  lemma HeadOfRanking<T>(r: seq<T>, s: seq<T>, key: T -> real, k: nat)
    requires IsRanking(r, s, key)
    ensures SortedDesc(Head(r, k), key)
    ensures multiset(Head(r, k)) + multiset(r[|Head(r, k)|..]) == multiset(s)
    ensures forall i, j :: 0 <= i < |Head(r, k)| <= j < |r| ==> key(r[j]) <= key(Head(r, k)[i])
  {
    var h := Head(r, k);
    assert r == h + r[|h|..];
    forall i, j | 0 <= i < |h| <= j < |r|
      ensures key(r[j]) <= key(h[i])
    {
      assert h[i] == r[i];
    }
  }

  /** Two rankings of the same rows agree on the keys of their first `k` rows. */
  lemma HeadKeysDetermined<T>(r1: seq<T>, r2: seq<T>, s: seq<T>, key: T -> real, k: nat)
    requires IsRanking(r1, s, key) && IsRanking(r2, s, key)
    ensures |Head(r1, k)| == |Head(r2, k)|
    ensures forall i :: 0 <= i < |Head(r1, k)| ==> key(Head(r1, k)[i]) == key(Head(r2, k)[i])
  {
    KeysDetermined(r1, r2, s, key);
    forall i | 0 <= i < |Head(r1, k)|
      ensures key(Head(r1, k)[i]) == key(Head(r2, k)[i])
    {
      assert Head(r1, k)[i] == r1[i] && Head(r2, k)[i] == r2[i];
    }
  }

  /** Sorting keeps two rows of equal key in their input order. */
  lemma SortTie<T>(x: T, y: T, key: T -> real)
    requires key(x) == key(y)
    ensures Sort([x, y], key) == [x, y]
  {
    assert [x, y][1..] == [y];
    assert Sort([y], key) == [y];
  }

  /** Two rows with the same key may be ranked in either order, and every
      ranking of them gives both places that key. */
  lemma TiedPair<T>(x: T, y: T, key: T -> real)
    requires key(x) == key(y)
    ensures IsRanking([x, y], [x, y], key) && IsRanking([y, x], [x, y], key)
    ensures forall other :: IsRanking(other, [x, y], key) ==>
      |other| == 2 && key(other[0]) == key(x) && key(other[1]) == key(x)
  {
    assert multiset([y, x]) == multiset([x, y]);
    forall other | IsRanking(other, [x, y], key)
      ensures |other| == 2 && key(other[0]) == key(x) && key(other[1]) == key(x)
    {
      RankingLength(other, [x, y]);
      forall k | 0 <= k < |other|
        ensures key(other[k]) == key(x)
      {
        assert other[k] in multiset(other);
      }
    }
  }
}
