/** The column vocabulary of a one-hot encoding: the distinct values of a
    categorical column in ascending order. pandas orders the categories of
    `get_dummies` as Python orders strings, lexicographically by code point,
    which is `Less` below. */
module Vocabulary {

  /** Python's `a < b` on strings. */
  predicate Less(a: string, b: string)
    decreases |a|
  {
    if |a| == 0 then |b| > 0
    else |b| > 0 && (a[0] < b[0] || (a[0] == b[0] && Less(a[1..], b[1..])))
  }

  lemma {:induction false} LessIrreflexive(a: string)
    ensures !Less(a, a)
    decreases |a|
  {
    if |a| > 0 {
      LessIrreflexive(a[1..]);
    }
  }

  lemma {:induction false} LessTransitive(a: string, b: string, c: string)
    requires Less(a, b) && Less(b, c)
    ensures Less(a, c)
    decreases |a|
  {
    if |a| > 0 && a[0] == b[0] && b[0] == c[0] {
      LessTransitive(a[1..], b[1..], c[1..]);
    }
  }

  lemma {:induction false} LessTotal(a: string, b: string)
    ensures a == b || Less(a, b) || Less(b, a)
    decreases |a|
  {
    if |a| > 0 && |b| > 0 && a[0] == b[0] {
      LessTotal(a[1..], b[1..]);
      assert a == [a[0]] + a[1..] && b == [b[0]] + b[1..];
    }
  }

  ghost predicate StrictlySorted(v: seq<string>)
  {
    forall i, j :: 0 <= i < j < |v| ==> Less(v[i], v[j])
  }

  /** A strictly sorted vocabulary lists every value once. */
  lemma SortedDistinct(v: seq<string>)
    requires StrictlySorted(v)
    ensures forall i, j :: 0 <= i < |v| && 0 <= j < |v| && v[i] == v[j] ==> i == j
  {
    forall i, j | 0 <= i < |v| && 0 <= j < |v| && v[i] == v[j]
      ensures i == j
    {
      LessIrreflexive(v[i]);
    }
  }

  /** Adds `x` to a strictly sorted vocabulary, unless it is already there. */
  function InsertValue(x: string, v: seq<string>): (r: seq<string>)
    requires StrictlySorted(v)
    ensures StrictlySorted(r)
    ensures forall y :: y in r <==> y == x || y in v
  {
    if |v| == 0 then [x]
    else if x == v[0] then v
    else if Less(x, v[0]) then
      assert forall j :: 0 < j < |v| ==> Less(x, v[j]) by {
        forall j | 0 < j < |v| ensures Less(x, v[j]) { LessTransitive(x, v[0], v[j]); }
      }
      [x] + v
    else
      LessTotal(x, v[0]);
      var t := InsertValue(x, v[1..]);
      assert v == [v[0]] + v[1..];
      assert forall k :: 0 <= k < |t| ==> Less(v[0], t[k]) by {
        forall k | 0 <= k < |t| ensures Less(v[0], t[k]) {
          assert t[k] in t;
        }
      }
      [v[0]] + t
  }

  /** The distinct values of `values`, in ascending order. */
  function Build(values: seq<string>): (v: seq<string>)
    ensures StrictlySorted(v)
    ensures forall y :: y in v <==> y in values
  {
    if |values| == 0 then []
    else
      assert values == [values[0]] + values[1..];
      InsertValue(values[0], Build(values[1..]))
  }

  /** Position of a value in a strictly sorted vocabulary: the one column of its
      one-hot block. */
  function IndexOf(v: seq<string>, x: string): (k: nat)
    requires StrictlySorted(v) && x in v
    ensures k < |v| && v[k] == x
    ensures forall j :: 0 <= j < |v| && v[j] == x ==> j == k
  {
    SortedDistinct(v);
    if v[0] == x then 0
    else
      assert v == [v[0]] + v[1..];
      1 + IndexOf(v[1..], x)
  }
}
