/**
 * The order in which the loader visits its scripts:
 * `scripts.sort((a, b) => b.priority - a.priority)`. `Array.prototype.sort`
 * is stable, so scripts of equal priority keep their discovery order. The
 * order is computed on indices: position `i` of the result names the script
 * found `i`-th in the directory listing.
 */
module Schedule {

  /** Index `i` goes before index `j`: higher priority first, and on a tie the one discovered first. */
  predicate Before(p: seq<int>, i: nat, j: nat)
    requires i < |p| && j < |p|
  {
    p[i] > p[j] || (p[i] == p[j] && i < j)
  }

  predicate InRange(ord: seq<nat>, n: nat) {
    forall k :: 0 <= k < |ord| ==> ord[k] < n
  }

  /** Every earlier entry goes before every later one. */
  predicate Ordered(p: seq<int>, ord: seq<nat>)
    requires InRange(ord, |p|)
  {
    forall a, b :: 0 <= a < b < |ord| ==> Before(p, ord[a], ord[b])
  }

  /** The indices `0, 1, ..., n - 1` in discovery order. */
  function Indices(n: nat): (r: seq<nat>)
    ensures |r| == n && forall k :: 0 <= k < n ==> r[k] == k
  {
    if n == 0 then [] else Indices(n - 1) + [n - 1]
  }

  /** Insertion of index `i` after every entry whose priority is at least its own. */
  function Place(p: seq<int>, ord: seq<nat>, i: nat): (r: seq<nat>)
    requires i < |p| && InRange(ord, |p|)
    ensures InRange(r, |p|) && |r| == |ord| + 1
    ensures multiset(r) == multiset(ord) + multiset{i}
  {
    if |ord| == 0 then [i]
    else if p[ord[0]] >= p[i] then
      assert ord == [ord[0]] + ord[1..];
      [ord[0]] + Place(p, ord[1..], i)
    else [i] + ord
  }

  /** The first `n` indices in sorted order. */
  function Order(p: seq<int>, n: nat): (r: seq<nat>)
    requires n <= |p|
    ensures InRange(r, |p|) && |r| == n
  {
    if n == 0 then [] else Place(p, Order(p, n - 1), n - 1)
  }

  /** The visiting order of all the scripts. */
  function StableOrder(p: seq<int>): (r: seq<nat>)
    ensures InRange(r, |p|) && |r| == |p|
  {
    Order(p, |p|)
  }

  // ---------------------------------------------------------------------
  // The sort is a permutation and orders by priority, ties by discovery

  lemma OrderedCons(p: seq<int>, a: nat, s: seq<nat>)
    requires a < |p| && InRange(s, |p|) && Ordered(p, s)
    requires forall k :: 0 <= k < |s| ==> Before(p, a, s[k])
    ensures InRange([a] + s, |p|) && Ordered(p, [a] + s)
  {
    var r := [a] + s;
    forall x, y | 0 <= x < y < |r| ensures Before(p, r[x], r[y]) {
      assert r[y] == s[y - 1];
      if x > 0 {
        assert r[x] == s[x - 1];
      }
    }
  }

  /** Placing a fresh, larger index into a sorted order keeps it sorted. */
  lemma {:induction false} PlaceOrdered(p: seq<int>, ord: seq<nat>, i: nat)
    requires i < |p| && InRange(ord, |p|) && Ordered(p, ord)
    requires forall k :: 0 <= k < |ord| ==> ord[k] < i
    ensures Ordered(p, Place(p, ord, i))
  {
    if |ord| == 0 {
    } else if p[ord[0]] >= p[i] {
      var rest := ord[1..];
      assert Ordered(p, rest) by {
        forall x, y | 0 <= x < y < |rest| ensures Before(p, rest[x], rest[y]) {
          assert rest[x] == ord[x + 1] && rest[y] == ord[y + 1];
        }
      }
      PlaceOrdered(p, rest, i);
      var placed := Place(p, rest, i);
      forall k | 0 <= k < |placed| ensures Before(p, ord[0], placed[k]) {
        assert placed[k] in multiset(placed);
        assert placed[k] in multiset(rest) + multiset{i};
        if placed[k] != i {
          assert placed[k] in rest;
          var m :| 0 <= m < |rest| && rest[m] == placed[k];
          assert ord[m + 1] == placed[k];
        }
      }
      OrderedCons(p, ord[0], placed);
    } else {
      forall k | 0 <= k < |ord| ensures Before(p, i, ord[k]) {
        if k > 0 {
          assert Before(p, ord[0], ord[k]);
        }
      }
      OrderedCons(p, i, ord);
    }
  }

  lemma IndicesBelow(n: nat, x: nat)
    requires x in multiset(Indices(n))
    ensures x < n
  {
    var r := Indices(n);
    assert x in r;
  }

  /** The first `n` indices, each once. */
  lemma {:induction false} OrderPermutation(p: seq<int>, n: nat)
    requires n <= |p|
    ensures multiset(Order(p, n)) == multiset(Indices(n))
  {
    if n > 0 {
      OrderPermutation(p, n - 1);
      assert Indices(n) == Indices(n - 1) + [n - 1];
    }
  }

  /** Every entry of the first `n` is below `n`. */
  lemma OrderBelow(p: seq<int>, n: nat)
    requires n <= |p|
    ensures forall k :: 0 <= k < |Order(p, n)| ==> Order(p, n)[k] < n
  {
    OrderPermutation(p, n);
    var r := Order(p, n);
    forall k | 0 <= k < |r| ensures r[k] < n {
      assert r[k] in multiset(r);
      IndicesBelow(n, r[k]);
    }
  }

  /** The first `n` indices, sorted. */
  lemma {:induction false} OrderSorted(p: seq<int>, n: nat)
    requires n <= |p|
    ensures Ordered(p, Order(p, n))
  {
    if n > 0 {
      var prev := Order(p, n - 1);
      assert Ordered(p, prev) by {
        OrderSorted(p, n - 1);
      }
      assert forall k :: 0 <= k < |prev| ==> prev[k] < n - 1 by {
        OrderBelow(p, n - 1);
      }
      PlaceOrdered(p, prev, n - 1);
    }
  }

  /**
   * The visiting order holds every script exactly once; a script with a
   * higher priority comes first, and of two with the same priority the one
   * discovered first comes first.
   */
  lemma StableOrderCorrect(p: seq<int>)
    ensures multiset(StableOrder(p)) == multiset(Indices(|p|))
    ensures forall a, b :: 0 <= a < b < |p| ==>
              var i, j := StableOrder(p)[a], StableOrder(p)[b];
              p[i] > p[j] || (p[i] == p[j] && i < j)
  {
    OrderPermutation(p, |p|);
    OrderSorted(p, |p|);
  }

  /** Priorities 5, 10, 10, 1 are visited as the second, third, first and fourth script. */
  lemma StableOrderExample()
    ensures StableOrder([5, 10, 10, 1]) == [1, 2, 0, 3]
  {
    ExampleThree();
    ExampleLastPlaced();
  }

  lemma ExampleTwo()
    ensures Order([5, 10, 10, 1], 2) == [1, 0]
  {
    var p := [5, 10, 10, 1];
    assert Order(p, 1) == [0];
    assert Place(p, [0], 1) == [1, 0];
  }

  lemma ExampleThree()
    ensures Order([5, 10, 10, 1], 3) == [1, 2, 0]
  {
    var p := [5, 10, 10, 1];
    ExampleTwo();
    assert Place(p, [0], 2) == [2, 0];
    assert [1, 0][1..] == [0];
    assert Place(p, [1, 0], 2) == [1, 2, 0];
  }

  lemma ExampleLastPlaced()
    ensures Place([5, 10, 10, 1], [1, 2, 0], 3) == [1, 2, 0, 3]
  {
    ExampleLastAfterTwo();
    assert [1, 2, 0][1..] == [2, 0];
  }

  lemma ExampleLastAfterTwo()
    ensures Place([5, 10, 10, 1], [2, 0], 3) == [2, 0, 3]
  {
    ExampleLastAfterZero();
    assert [2, 0][1..] == [0];
  }

  lemma ExampleLastAfterZero()
    ensures Place([5, 10, 10, 1], [0], 3) == [0, 3]
  {
    assert [0][1..] == [];
  }
}
