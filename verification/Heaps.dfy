/** Binary max-heaps in sequences: what sifting up and down does, one exchange at a time. */
module Heaps {

  function Parent(i: nat): nat
    requires i > 0
  {
    (i - 1) / 2
  }

  function Exchanged<T>(s: seq<T>, i: nat, j: nat): seq<T>
    requires i < |s| && j < |s|
  {
    s[i := s[j]][j := s[i]]
  }

  predicate Dominates<T>(s: seq<T>, key: T -> int, i: nat, k: nat)
    requires i < |s| && k < |s|
  {
    key(s[i]) >= key(s[k])
  }

  /** No element of the first `n` has a greater key than its parent. */
  predicate IsHeap<T>(s: seq<T>, key: T -> int, n: nat)
    requires n <= |s|
  {
    forall k: nat {:trigger Parent(k)} :: 0 < k < n ==> Dominates(s, key, Parent(k), k)
  }

  /** A heap but for element `j`, which may be too great for its place. */
  predicate HeapBelow<T>(s: seq<T>, key: T -> int, j: nat)
    requires j < |s|
  {
    && (forall k: nat {:trigger Parent(k)} :: 0 < k < |s| && k != j ==> Dominates(s, key, Parent(k), k))
    && (forall k: nat {:trigger Parent(k)} :: 0 < k < |s| && j > 0 && Parent(k) == j ==> Dominates(s, key, Parent(j), k))
  }

  /** A heap but for element `j`, which may be too small for its place. */
  predicate HeapAbove<T>(s: seq<T>, key: T -> int, n: nat, j: nat)
    requires n <= |s| && j < |s|
  {
    && (forall k: nat {:trigger Parent(k)} :: 0 < k < n && Parent(k) != j ==> Dominates(s, key, Parent(k), k))
    && (forall k: nat {:trigger Parent(k)} :: 0 < k < n && 0 < j < n && Parent(k) == j ==> Dominates(s, key, Parent(j), k))
  }

  lemma ExchangeKeeps<T>(s: seq<T>, i: nat, j: nat)
    requires i < |s| && j < |s|
    ensures multiset(Exchanged(s, i, j)) == multiset(s)
  {
  }

  lemma UpStep<T>(s: seq<T>, key: T -> int, j: nat)
    requires 0 < j < |s| && HeapBelow(s, key, j) && key(s[j]) > key(s[Parent(j)])
    ensures HeapBelow(Exchanged(s, Parent(j), j), key, Parent(j))
  {
    var p := Parent(j);
    var t := Exchanged(s, p, j);
    forall k: nat | 0 < k < |t| && k != p ensures Dominates(t, key, Parent(k), k) {
      assert k != j ==> Dominates(s, key, Parent(k), k);
      assert Parent(k) == j ==> Dominates(s, key, Parent(j), k);
    }
    forall k: nat | 0 < k < |t| && p > 0 && Parent(k) == p ensures Dominates(t, key, Parent(p), k) {
      assert Dominates(s, key, Parent(p), p);
      assert k != j ==> Dominates(s, key, Parent(k), k);
    }
  }

  lemma UpDone<T>(s: seq<T>, key: T -> int, j: nat)
    requires j < |s| && HeapBelow(s, key, j) && (j > 0 ==> key(s[j]) <= key(s[Parent(j)]))
    ensures IsHeap(s, key, |s|)
  {
    forall k: nat | 0 < k < |s| ensures Dominates(s, key, Parent(k), k) {
      assert k != j ==> Dominates(s, key, Parent(k), k);
    }
  }

  /** The child of `i` with the greater key, below `n`. */
  predicate IsGreaterChild<T>(s: seq<T>, key: T -> int, n: nat, i: nat, j: nat)
    requires n <= |s|
  {
    && i < j < n && Parent(j) == i
    && forall k: nat {:trigger Parent(k)} :: 0 < k < n && Parent(k) == i ==> Dominates(s, key, j, k)
  }

  lemma GreaterChild<T>(s: seq<T>, key: T -> int, n: nat, i: nat, j: nat)
    requires n <= |s| && i < |s| && 2 * i + 1 <= j <= 2 * i + 2 && j < n
    requires key(s[2 * i + 1]) <= key(s[j]) && (2 * i + 2 < n ==> key(s[2 * i + 2]) <= key(s[j]))
    ensures IsGreaterChild(s, key, n, i, j)
    ensures key(s[j]) <= key(s[i]) ==>
              forall k: nat {:trigger Parent(k)} :: 0 < k < n && Parent(k) == i ==> Dominates(s, key, i, k)
  {
  }

  lemma DownStep<T>(s: seq<T>, key: T -> int, n: nat, i: nat, j: nat)
    requires n <= |s| && i < n && HeapAbove(s, key, n, i) && IsGreaterChild(s, key, n, i, j) && key(s[j]) > key(s[i])
    ensures HeapAbove(Exchanged(s, i, j), key, n, j)
  {
    var t := Exchanged(s, i, j);
    forall k: nat | 0 < k < n && Parent(k) != j ensures Dominates(t, key, Parent(k), k) {
      if Parent(k) == i {
        assert Dominates(s, key, j, k);
      } else if k == i {
        assert Dominates(s, key, Parent(i), j);
      } else {
        assert Dominates(s, key, Parent(k), k);
      }
    }
    forall k: nat | 0 < k < n && 0 < j < n && Parent(k) == j ensures Dominates(t, key, Parent(j), k) {
      assert Dominates(s, key, Parent(k), k);
    }
  }

  lemma DownDone<T>(s: seq<T>, key: T -> int, n: nat, i: nat)
    requires n <= |s| && i < |s| && HeapAbove(s, key, n, i)
    requires forall k: nat {:trigger Parent(k)} :: 0 < k < n && Parent(k) == i ==> Dominates(s, key, i, k)
    ensures IsHeap(s, key, n)
  {
    forall k: nat | 0 < k < n ensures Dominates(s, key, Parent(k), k) {
      if Parent(k) == i { assert Dominates(s, key, i, k); } else { assert Dominates(s, key, Parent(k), k); }
    }
  }

  lemma {:induction false} TopIsGreatest<T>(s: seq<T>, key: T -> int, n: nat, k: nat)
    requires n <= |s| && IsHeap(s, key, n) && k < n
    ensures key(s[k]) <= key(s[0])
    decreases k
  {
    if k > 0 {
      TopIsGreatest(s, key, n, Parent(k));
      assert Dominates(s, key, Parent(k), k);
    }
  }

  /** Exchanging the top with the last element leaves a heap but for its top. */
  lemma TopExchanged<T>(s: seq<T>, key: T -> int)
    requires s != [] && IsHeap(s, key, |s|)
    ensures HeapAbove(Exchanged(s, 0, |s| - 1), key, |s| - 1, 0)
  {
    var t := Exchanged(s, 0, |s| - 1);
    forall k: nat | 0 < k < |s| - 1 && Parent(k) != 0 ensures Dominates(t, key, Parent(k), k) {
      assert Dominates(s, key, Parent(k), k);
    }
  }

  lemma Appended<T>(s: seq<T>, key: T -> int, x: T)
    requires IsHeap(s, key, |s|)
    ensures HeapBelow(s + [x], key, |s|)
  {
    var t := s + [x];
    forall k: nat | 0 < k < |t| && k != |s| ensures Dominates(t, key, Parent(k), k) {
      assert Dominates(s, key, Parent(k), k);
    }
  }

  // ----- Heaps kept in a slice

  method Push<T>(s: seq<T>, key: T -> int, x: T) returns (t: seq<T>)
    requires IsHeap(s, key, |s|)
    ensures IsHeap(t, key, |t|) && multiset(t) == multiset(s) + multiset{x}
  {
    t := s + [x];
    Appended(s, key, x);
    var j := |s|;
    while j > 0 && key(t[j]) > key(t[Parent(j)])
      invariant 0 <= j < |t| && HeapBelow(t, key, j)
      invariant multiset(t) == multiset(s) + multiset{x}
    {
      UpStep(t, key, j);
      ExchangeKeeps(t, Parent(j), j);
      t := Exchanged(t, Parent(j), j);
      j := Parent(j);
    }
    UpDone(t, key, j);
  }

  /** The greater child of `i`, if it has one and it is greater than `i`. */
  method ChildAbove<T>(s: seq<T>, key: T -> int, n: nat, i: nat) returns (j: nat)
    requires n <= |s| && i < |s|
    ensures j == i ==> forall k: nat {:trigger Parent(k)} :: 0 < k < n && Parent(k) == i ==> Dominates(s, key, i, k)
    ensures j != i ==> IsGreaterChild(s, key, n, i, j) && key(s[j]) > key(s[i])
  {
    j := 2 * i + 1;
    if j >= n { return i; }
    if j + 1 < n && key(s[j + 1]) > key(s[j]) { j := j + 1; }
    GreaterChild(s, key, n, i, j);
    if key(s[j]) <= key(s[i]) { return i; }
  }

  method Pop<T>(s: seq<T>, key: T -> int) returns (x: T, t: seq<T>)
    requires s != [] && IsHeap(s, key, |s|)
    ensures IsHeap(t, key, |t|) && multiset(s) == multiset(t) + multiset{x}
    ensures forall y :: y in s ==> key(y) <= key(x)
  {
    var n := |s| - 1;
    x := s[0];
    forall y | y in s ensures key(y) <= key(x) {
      var k: nat :| k < |s| && s[k] == y;
      TopIsGreatest(s, key, |s|, k);
    }
    t := Exchanged(s, 0, n);
    TopExchanged(s, key);
    ExchangeKeeps(s, 0, n);
    var i := 0;
    while true
      invariant 0 <= i <= n && |t| == n + 1 && t[n] == x && HeapAbove(t, key, n, i) && (n > 0 ==> i < n)
      invariant multiset(t) == multiset(s)
      decreases n - i
    {
      var j := ChildAbove(t, key, n, i);
      if j == i { break; }
      DownStep(t, key, n, i, j);
      ExchangeKeeps(t, i, j);
      t := Exchanged(t, i, j);
      i := j;
    }
    DownDone(t, key, n, i);
    assert t == t[..n] + [x];
    forall k: nat | 0 < k < n ensures Dominates(t[..n], key, Parent(k), k) { assert Dominates(t, key, Parent(k), k); }
    t := t[..n];
  }
}
