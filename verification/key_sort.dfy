/**
 Sorting gateway keys by (datacenter, partition). The source hands this to
 `sort.Slice`; since the order is total and only identical keys tie, any
 correct sort gives the same answer, which `SortedUnique` proves.
 */
module KeySort {
  import opened Gateway

  /** `a` may come before `b`. */
  predicate KeyLeq(a: GatewayKey, b: GatewayKey) {
    !KeyLess(b, a)
  }

  predicate Sorted(s: seq<GatewayKey>) {
    forall i, j :: 0 <= i < j < |s| ==> KeyLeq(s[i], s[j])
  }

  predicate StrictlySorted(s: seq<GatewayKey>) {
    forall i, j :: 0 <= i < j < |s| ==> KeyLess(s[i], s[j])
  }

  lemma KeyLeqTransitive(a: GatewayKey, b: GatewayKey, c: GatewayKey)
    requires KeyLeq(a, b) && KeyLeq(b, c)
    ensures KeyLeq(a, c)
  {
    KeyLessStrictTotal(a, b, c);
    KeyLessStrictTotal(c, a, b);
    KeyLessStrictTotal(b, c, a);
  }

  /** Every key of `rest`, a permutation of a sorted tail plus `x`, comes
      after the head `h` when `h` is below `x`. */
  lemma HeadPrecedesInserted(h: GatewayKey, tail: seq<GatewayKey>, x: GatewayKey, rest: seq<GatewayKey>)
    requires forall k :: 0 <= k < |tail| ==> KeyLeq(h, tail[k])
    requires KeyLess(h, x)
    requires multiset(rest) == multiset(tail) + multiset{x}
    ensures forall k :: 0 <= k < |rest| ==> KeyLeq(h, rest[k])
  {
    forall k | 0 <= k < |rest|
      ensures KeyLeq(h, rest[k])
    {
      assert rest[k] in multiset(rest);
      if rest[k] != x {
        assert rest[k] in multiset(tail);
        var j :| 0 <= j < |tail| && tail[j] == rest[k];
      } else {
        KeyLessStrictTotal(h, x, x);
      }
    }
  }

  /** A key not above the head of a sorted sequence precedes all of it. */
  lemma BelowHeadPrecedesAll(x: GatewayKey, s: seq<GatewayKey>)
    requires Sorted(s) && |s| > 0
    requires !KeyLess(s[0], x)
    ensures forall k :: 0 <= k < |s| ==> KeyLeq(x, s[k])
  {
    forall k | 0 <= k < |s|
      ensures KeyLeq(x, s[k])
    {
      KeyLessStrictTotal(s[0], s[0], s[0]);
      KeyLeqTransitive(x, s[0], s[k]);
    }
  }

  /** Inserts `x` into a sorted sequence, keeping it sorted. */
  function Insert(x: GatewayKey, s: seq<GatewayKey>): (r: seq<GatewayKey>)
    requires Sorted(s)
    ensures Sorted(r)
    ensures multiset(r) == multiset(s) + multiset{x}
    ensures |r| == |s| + 1
  {
    if |s| == 0 then [x]
    else if KeyLess(s[0], x) then
      var rest := Insert(x, s[1..]);
      assert s == [s[0]] + s[1..];
      HeadPrecedesInserted(s[0], s[1..], x, rest);
      [s[0]] + rest
    else
      BelowHeadPrecedesAll(x, s);
      [x] + s
  }

  /** Insertion sort: a sorted permutation of `s`. */
  function Sort(s: seq<GatewayKey>): (r: seq<GatewayKey>)
    ensures Sorted(r)
    ensures multiset(r) == multiset(s)
    ensures |r| == |s|
  {
    if |s| == 0 then []
    else
      assert s == [s[0]] + s[1..];
      Insert(s[0], Sort(s[1..]))
  }

  /** The first element of a sorted sequence is below every element it holds. */
  lemma SortedHeadIsLeast(s: seq<GatewayKey>, x: GatewayKey)
    requires Sorted(s) && x in multiset(s)
    ensures KeyLeq(s[0], x)
  {
    var j :| 0 <= j < |s| && s[j] == x;
    if j == 0 {
      KeyLessStrictTotal(x, x, x);
    }
  }

  /** Two sorted sequences with the same elements (counted with multiplicity)
      are equal: the order of the input never shows in the output. */
  lemma {:induction false} SortedUnique(a: seq<GatewayKey>, b: seq<GatewayKey>)
    requires Sorted(a) && Sorted(b)
    requires multiset(a) == multiset(b)
    ensures a == b
    decreases |a|
  {
    if |a| > 0 {
      assert a[0] in multiset(a);
      assert |b| > 0 by {
        assert |multiset(b)| == |multiset(a)| == |a|;
      }
      assert b[0] in multiset(b);
      SortedHeadIsLeast(a, b[0]);
      SortedHeadIsLeast(b, a[0]);
      KeyLessStrictTotal(a[0], b[0], b[0]);
      assert a[0] == b[0];
      assert a == [a[0]] + a[1..];
      assert b == [b[0]] + b[1..];
      assert multiset(a) == multiset{a[0]} + multiset(a[1..]);
      assert multiset(b) == multiset{b[0]} + multiset(b[1..]);
      assert multiset(a[1..]) == multiset(a) - multiset{a[0]};
      assert multiset(b[1..]) == multiset(b) - multiset{b[0]};
      SortedUnique(a[1..], b[1..]);
    }
  }

  /** A sorted sequence in which no key occurs twice is strictly sorted. */
  lemma SortedDistinctIsStrict(s: seq<GatewayKey>)
    requires Sorted(s)
    requires forall x :: multiset(s)[x] <= 1
    ensures StrictlySorted(s)
  {
    forall i, j | 0 <= i < j < |s|
      ensures KeyLess(s[i], s[j])
    {
      RepeatedKeyCountsTwice(s, i, j);
      KeyLessStrictTotal(s[i], s[j], s[j]);
    }
  }

  lemma RepeatedKeyCountsTwice(s: seq<GatewayKey>, i: nat, j: nat)
    requires i < j < |s|
    ensures s[i] == s[j] ==> multiset(s)[s[i]] >= 2
  {
    assert s == s[..j] + [s[j]] + s[j + 1..];
    assert s[..j][i] == s[i];
    assert s[i] in multiset(s[..j]);
  }
}
