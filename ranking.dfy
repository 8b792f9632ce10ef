/**
 * Python's stable `sorted(enumerate(xs), key=..., reverse=True)` as used to rank legs:
 * the indices of `keys` ordered by descending key, equal keys keeping their original
 * (ascending index) order. Built by insertion, one index at a time.
 */
module Ranking {

  /** Index `i` is ranked before index `j`: a larger key, or an equal key and a smaller index. */
  predicate Precedes(keys: seq<real>, i: int, j: int)
    requires 0 <= i < |keys| && 0 <= j < |keys|
  {
    keys[i] > keys[j] || (keys[i] == keys[j] && i < j)
  }

  /** Every entry of `order` is an index of `keys`, and each precedes every later entry. */
  predicate RankedBy(keys: seq<real>, order: seq<int>)
  {
    && (forall a :: 0 <= a < |order| ==> 0 <= order[a] < |keys|)
    && (forall a, b :: 0 <= a < b < |order| ==> Precedes(keys, order[a], order[b]))
  }

  /** The indices 0, 1, ..., n - 1. */
  function Range(n: nat): (r: seq<int>)
    ensures |r| == n
    ensures forall i :: 0 <= i < n ==> r[i] == i
  {
    seq(n, i requires 0 <= i < n => i)
  }

  /** Counting up to `n + 1` adds exactly `n`. */
  lemma RangeSnoc(n: nat)
    ensures multiset(Range(n + 1)) == multiset(Range(n)) + multiset{n}
  {
    assert Range(n + 1) == Range(n) + [n];
  }

  /** Places `x` after every entry of `order` that precedes it. */
  function Insert(keys: seq<real>, order: seq<int>, x: int): seq<int>
    requires 0 <= x < |keys|
    requires forall a :: 0 <= a < |order| ==> 0 <= order[a] < |keys|
  {
    if order == [] then [x]
    else if Precedes(keys, order[0], x) then [order[0]] + Insert(keys, order[1..], x)
    else [x] + order
  }

  lemma {:induction false} PrecedesTransitive(keys: seq<real>, i: int, j: int, k: int)
    requires 0 <= i < |keys| && 0 <= j < |keys| && 0 <= k < |keys|
    requires Precedes(keys, i, j) && Precedes(keys, j, k)
    ensures Precedes(keys, i, k)
  {
  }

  /** Insertion adds exactly `x` to the entries of `order`. */
  lemma {:induction false} InsertContents(keys: seq<real>, order: seq<int>, x: int)
    requires 0 <= x < |keys|
    requires forall a :: 0 <= a < |order| ==> 0 <= order[a] < |keys|
    ensures |Insert(keys, order, x)| == |order| + 1
    ensures multiset(Insert(keys, order, x)) == multiset(order) + multiset{x}
    ensures forall y :: y in Insert(keys, order, x) <==> y == x || y in order
  {
    if order != [] && Precedes(keys, order[0], x) {
      InsertContents(keys, order[1..], x);
      assert order == [order[0]] + order[1..];
    }
  }

  /** Inserting into a ranked order keeps it ranked and adds exactly `x`. */
  lemma {:induction false} InsertRanked(keys: seq<real>, order: seq<int>, x: int)
    requires 0 <= x < |keys|
    requires RankedBy(keys, order)
    requires x !in order
    ensures |Insert(keys, order, x)| == |order| + 1
    ensures multiset(Insert(keys, order, x)) == multiset(order) + multiset{x}
    ensures RankedBy(keys, Insert(keys, order, x))
  {
    InsertContents(keys, order, x);
    if order == [] {
    } else if Precedes(keys, order[0], x) {
      var rest := order[1..];
      assert RankedBy(keys, rest) by {
        forall a, b | 0 <= a < b < |rest|
          ensures Precedes(keys, rest[a], rest[b])
        {
          assert rest[a] == order[a + 1] && rest[b] == order[b + 1];
        }
      }
      InsertRanked(keys, rest, x);
      InsertContents(keys, rest, x);
      InsertAfterHead(keys, order, x);
    } else {
      InsertAtHead(keys, order, x);
    }
  }

  /** The head of a ranked order precedes `x` and every later entry of the order. */
  lemma {:induction false} HeadPrecedesEntries(keys: seq<real>, order: seq<int>, ins: seq<int>, x: int)
    requires 0 <= x < |keys|
    requires RankedBy(keys, order)
    requires order != [] && Precedes(keys, order[0], x)
    requires forall c :: 0 <= c < |ins| ==> 0 <= ins[c] < |keys|
    requires forall c :: 0 <= c < |ins| ==> ins[c] == x || ins[c] in order[1..]
    ensures forall c :: 0 <= c < |ins| ==> Precedes(keys, order[0], ins[c])
  {
    forall c | 0 <= c < |ins|
      ensures Precedes(keys, order[0], ins[c])
    {
      if ins[c] != x {
        var a :| 0 <= a < |order| - 1 && order[1..][a] == ins[c];
        assert order[a + 1] == ins[c];
      }
    }
  }

  /** The step of InsertRanked where `x` goes behind the head of `order`. */
  lemma {:induction false} InsertAfterHead(keys: seq<real>, order: seq<int>, x: int)
    requires 0 <= x < |keys|
    requires RankedBy(keys, order)
    requires order != [] && Precedes(keys, order[0], x)
    requires RankedBy(keys, Insert(keys, order[1..], x))
    requires forall y :: y in Insert(keys, order[1..], x) ==> y == x || y in order[1..]
    ensures RankedBy(keys, Insert(keys, order, x))
  {
    var ins := Insert(keys, order[1..], x);
    var r := Insert(keys, order, x);
    assert r == [order[0]] + ins;
    assert forall c :: 0 <= c < |ins| ==> ins[c] == x || ins[c] in order[1..] by {
      forall c | 0 <= c < |ins|
        ensures ins[c] == x || ins[c] in order[1..]
      {
        assert ins[c] in ins;
      }
    }
    HeadPrecedesEntries(keys, order, ins, x);
    ConsRanked(keys, order[0], ins);
  }

  /** An index that precedes every entry of a ranked order can be put in front of it. */
  lemma {:induction false} ConsRanked(keys: seq<real>, h: int, order: seq<int>)
    requires 0 <= h < |keys|
    requires RankedBy(keys, order)
    requires forall c :: 0 <= c < |order| ==> Precedes(keys, h, order[c])
    ensures RankedBy(keys, [h] + order)
  {
    var r := [h] + order;
    forall a, b | 0 <= a < b < |r|
      ensures Precedes(keys, r[a], r[b])
    {
      assert r[b] == order[b - 1];
      if a > 0 {
        assert r[a] == order[a - 1];
      }
    }
  }

  /** The step of InsertRanked where `x` precedes the head of `order` and goes first. */
  lemma {:induction false} InsertAtHead(keys: seq<real>, order: seq<int>, x: int)
    requires 0 <= x < |keys|
    requires RankedBy(keys, order)
    requires x !in order
    requires order != [] && !Precedes(keys, order[0], x)
    ensures RankedBy(keys, Insert(keys, order, x))
  {
    var r := Insert(keys, order, x);
    assert r == [x] + order;
    assert x != order[0];
    assert Precedes(keys, x, order[0]);
    forall c | 0 <= c < |order|
      ensures Precedes(keys, x, order[c])
    {
      if c > 0 {
        PrecedesTransitive(keys, x, order[0], order[c]);
      }
    }
    ConsRanked(keys, x, order);
  }

  /** The first `n` indices of `keys`, ranked. */
  function RankPrefix(keys: seq<real>, n: nat): (r: seq<int>)
    requires n <= |keys|
    ensures |r| == n
    ensures forall a :: 0 <= a < |r| ==> 0 <= r[a] < n
  {
    if n == 0 then [] else
      var prev := RankPrefix(keys, n - 1);
      InsertContents(keys, prev, n - 1);
      var r := Insert(keys, prev, n - 1);
      assert forall a :: 0 <= a < |r| ==> 0 <= r[a] < n by {
        forall a | 0 <= a < |r|
          ensures 0 <= r[a] < n
        {
          assert r[a] in r;
          if r[a] != n - 1 {
            var k :| 0 <= k < |prev| && prev[k] == r[a];
          }
        }
      }
      r
  }

  /** The ranking of the first `n` indices holds exactly those indices, in ranked order. */
  lemma {:induction false} RankPrefixFacts(keys: seq<real>, n: nat)
    requires n <= |keys|
    ensures multiset(RankPrefix(keys, n)) == multiset(Range(n))
    ensures RankedBy(keys, RankPrefix(keys, n))
  {
    if n > 0 {
      var prev := RankPrefix(keys, n - 1);
      assert RankPrefix(keys, n) == Insert(keys, prev, n - 1);
      RankPrefixFacts(keys, n - 1);
      assert n - 1 !in prev;
      InsertRanked(keys, prev, n - 1);
      RangeSnoc(n - 1);
    }
  }

  /**
   * All indices of `keys` by descending key, ties in ascending index order: a
   * permutation of the indices in which each entry precedes every later one.
   */
  function RankDescending(keys: seq<real>): (order: seq<int>)
    ensures |order| == |keys|
    ensures multiset(order) == multiset(Range(|keys|))
    ensures RankedBy(keys, order)
  {
    RankPrefixFacts(keys, |keys|);
    RankPrefix(keys, |keys|)
  }

  /** The head of a ranked order precedes every other entry. */
  lemma {:induction false} HeadPrecedesAll(keys: seq<real>, order: seq<int>, y: int)
    requires RankedBy(keys, order)
    requires y in order
    ensures y == order[0] || Precedes(keys, order[0], y)
  {
    var b :| 0 <= b < |order| && order[b] == y;
    if b > 0 {
      assert Precedes(keys, order[0], order[b]);
    }
  }

  /** Dropping the head of a ranked order leaves it ranked. */
  lemma {:induction false} RankedTail(keys: seq<real>, order: seq<int>)
    requires RankedBy(keys, order) && order != []
    ensures RankedBy(keys, order[1..])
  {
    var rest := order[1..];
    forall a, b | 0 <= a < b < |rest|
      ensures Precedes(keys, rest[a], rest[b])
    {
      assert rest[a] == order[a + 1] && rest[b] == order[b + 1];
    }
  }

  /** Two sequences with the same entries and the same head have the same remaining entries. */
  lemma {:induction false} SameHeadSameTail(o1: seq<int>, o2: seq<int>)
    requires o1 != [] && o2 != [] && o1[0] == o2[0]
    requires multiset(o1) == multiset(o2)
    ensures multiset(o1[1..]) == multiset(o2[1..])
  {
    assert o1 == [o1[0]] + o1[1..] && o2 == [o2[0]] + o2[1..];
    assert multiset(o1) == multiset{o1[0]} + multiset(o1[1..]);
    assert multiset(o2) == multiset{o2[0]} + multiset(o2[1..]);
    forall y
      ensures multiset(o1[1..])[y] == multiset(o2[1..])[y]
    {
      assert multiset(o1)[y] == multiset(o2)[y];
    }
  }

  /** Two ranked permutations of the same indices are the same sequence: the ranking is unique. */
  lemma {:induction false} RankingUnique(keys: seq<real>, o1: seq<int>, o2: seq<int>)
    requires RankedBy(keys, o1) && RankedBy(keys, o2)
    requires multiset(o1) == multiset(o2)
    ensures o1 == o2
  {
    if o1 != [] {
      assert |o1| == |multiset(o1)| == |o2|;
      assert o1[0] in multiset(o2) && o2[0] in multiset(o1);
      HeadPrecedesAll(keys, o1, o2[0]);
      HeadPrecedesAll(keys, o2, o1[0]);
      assert o1[0] == o2[0];
      SameHeadSameTail(o1, o2);
      RankedTail(keys, o1);
      RankedTail(keys, o2);
      RankingUnique(keys, o1[1..], o2[1..]);
      assert o1 == [o1[0]] + o1[1..] && o2 == [o2[0]] + o2[1..];
    }
  }
}
