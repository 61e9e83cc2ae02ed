/** The pruning queue: a heap over a stack that is kept in blocks of fixed size, and the split of retained and
    prunable state heights. */
module PruneQueue {

  import opened Heaps

  const BLOCK_SIZE: nat := 4096
  const TWO63: int := 0x8000_0000_0000_0000

  type i64 = x: int | -TWO63 <= x < TWO63

  datatype Item = Item(value: nat, priority: i64)

  datatype Slot = Nil | Cell(item: Item)

  // ----- Priorities that wrap around

  function Wrap64(x: int): int { (x + TWO63) % (2 * TWO63) - TWO63 }

  /** `x` comes first when the 64-bit difference of the priorities is positive. */
  predicate Ahead(x: Item, y: Item) { Wrap64(x.priority - y.priority) > 0 }

  predicate Close(x: Item, y: Item) { -TWO63 < x.priority - y.priority < TWO63 }

  function Priority(x: Item): int { x.priority }

  lemma AheadIsGreater(x: Item, y: Item)
    requires Close(x, y)
    ensures Ahead(x, y) <==> x.priority > y.priority
  {
  }

  /** The comparison is right if and only if the difference of the priorities fits in 64 bits. */
  lemma AheadExactly(x: Item, y: Item)
    ensures (Ahead(x, y) <==> x.priority > y.priority) <==> -TWO63 <= x.priority - y.priority < TWO63
  {
  }

  ghost predicate InWindow(items: seq<Item>) {
    forall x, y {:trigger Close(x, y)} :: x in items && y in items ==> Close(x, y)
  }

  // ----- The segmented stack

  class SegmentedStack {
    var size: nat
    var capacity: nat
    var offset: int
    var blocks: seq<array<Slot>>
    var active: array<Slot>
    ghost var items: seq<Item>
    ghost var current: nat

    /** The cells below the size hold the items in order; the active block and the offset address the next cell. */
    ghost predicate Valid()
      reads this, blocks
    {
      && size == |items| && capacity == |blocks| * BLOCK_SIZE && size <= capacity
      && (forall k {:trigger blocks[k]} :: 0 <= k < |blocks| ==> blocks[k].Length == BLOCK_SIZE)
      && (forall k, l {:trigger blocks[k], blocks[l]} :: 0 <= k < l < |blocks| ==> blocks[k] != blocks[l])
      && current < |blocks| && active == blocks[current]
      && 0 <= offset <= BLOCK_SIZE && current * BLOCK_SIZE + offset == size
      && (forall i {:trigger items[i]} :: 0 <= i < size ==> blocks[i / BLOCK_SIZE][i % BLOCK_SIZE] == Cell(items[i]))
    }

    constructor ()
      ensures Valid() && items == [] && fresh(blocks)
    {
      size := 0;
      capacity := BLOCK_SIZE;
      offset := 0;
      active := new Slot[BLOCK_SIZE](_ => Nil);
      items := [];
      current := 0;
      new;
      blocks := [active];
    }

    method Push(x: Item)
      requires Valid()
      modifies this, blocks
      ensures Valid() && items == old(items) + [x]
      ensures forall k {:trigger blocks[k]} :: 0 <= k < |blocks| ==> blocks[k] in old(blocks) || fresh(blocks[k])
    {
      if size == capacity {
        active := new Slot[BLOCK_SIZE](_ => Nil);
        blocks := blocks + [active];
        capacity := capacity + BLOCK_SIZE;
        offset := 0;
        current := |blocks| - 1;
      } else if offset == BLOCK_SIZE {
        active := blocks[size / BLOCK_SIZE];
        offset := 0;
        current := current + 1;
      }
      active[offset] := Cell(x);
      offset := offset + 1;
      size := size + 1;
      items := items + [x];
    }

    method Pop() returns (x: Item)
      requires Valid() && items != []
      modifies this, blocks
      ensures Valid() && old(items) == items + [x] && blocks == old(blocks)
    {
      size := size - 1;
      offset := offset - 1;
      if offset < 0 {
        offset := BLOCK_SIZE - 1;
        active := blocks[size / BLOCK_SIZE];
        current := current - 1;
      }
      assert blocks[size / BLOCK_SIZE][size % BLOCK_SIZE] == Cell(items[size]);
      x := active[offset].item;
      active[offset] := Nil;
      items := items[..size];
    }

    method Less(i: nat, j: nat) returns (b: bool)
      requires Valid() && i < size && j < size
      ensures b == Ahead(items[i], items[j])
    {
      assert blocks[i / BLOCK_SIZE][i % BLOCK_SIZE] == Cell(items[i]);
      assert blocks[j / BLOCK_SIZE][j % BLOCK_SIZE] == Cell(items[j]);
      b := Wrap64(blocks[i / BLOCK_SIZE][i % BLOCK_SIZE].item.priority
                  - blocks[j / BLOCK_SIZE][j % BLOCK_SIZE].item.priority) > 0;
    }

    method Swap(i: nat, j: nat)
      requires Valid() && i < size && j < size
      modifies this`items, blocks
      ensures Valid() && items == Exchanged(old(items), i, j)
    {
      assert blocks[i / BLOCK_SIZE][i % BLOCK_SIZE] == Cell(items[i]);
      assert blocks[j / BLOCK_SIZE][j % BLOCK_SIZE] == Cell(items[j]);
      var a, b := blocks[j / BLOCK_SIZE][j % BLOCK_SIZE], blocks[i / BLOCK_SIZE][i % BLOCK_SIZE];
      blocks[i / BLOCK_SIZE][i % BLOCK_SIZE] := a;
      blocks[j / BLOCK_SIZE][j % BLOCK_SIZE] := b;
      items := Exchanged(items, i, j);
    }
  }

  // ----- The queue

  /** Descending priorities. */
  predicate Descending(items: seq<Item>) {
    forall i, j :: 0 <= i < j < |items| ==> items[i].priority >= items[j].priority
  }

  lemma WindowOf(items: seq<Item>, items': seq<Item>)
    requires InWindow(items) && multiset(items') <= multiset(items)
    ensures InWindow(items')
  {
    forall x, y | x in items' && y in items' ensures Close(x, y) {
      assert x in multiset(items') && y in multiset(items');
      assert x in multiset(items) && y in multiset(items);
    }
  }

  class PriorityQueue {
    const cont: SegmentedStack

    ghost predicate Valid()
      reads cont, cont.blocks
    {
      cont.Valid() && IsHeap(cont.items, Priority, |cont.items|) && InWindow(cont.items)
    }

    constructor ()
      ensures Valid() && cont.items == [] && fresh(cont) && fresh(cont.blocks)
    {
      cont := new SegmentedStack();
    }

    predicate Empty()
      reads cont
    {
      cont.size == 0
    }

    /** Compares two items; inside the window the wrapping comparison is the true one. */
    method Greater(i: nat, j: nat) returns (b: bool)
      requires cont.Valid() && InWindow(cont.items) && i < |cont.items| && j < |cont.items|
      ensures b == (cont.items[i].priority > cont.items[j].priority)
    {
      b := cont.Less(i, j);
      assert Close(cont.items[i], cont.items[j]);
      AheadIsGreater(cont.items[i], cont.items[j]);
    }

    /** Exchanges two items. */
    method Exchange(i: nat, j: nat)
      requires cont.Valid() && InWindow(cont.items) && i < |cont.items| && j < |cont.items|
      modifies cont`items, cont.blocks
      ensures cont.Valid() && InWindow(cont.items) && cont.items == Exchanged(old(cont.items), i, j)
      ensures multiset(cont.items) == multiset(old(cont.items))
    {
      ExchangeKeeps(cont.items, i, j);
      WindowOf(cont.items, Exchanged(cont.items, i, j));
      cont.Swap(i, j);
    }

    /** One step up: the item at `j` changes places with its parent, or the heap is in order. */
    method StepUp(j: nat) returns (moved: bool)
      requires cont.Valid() && InWindow(cont.items) && 0 < j < |cont.items| && HeapBelow(cont.items, Priority, j)
      modifies cont`items, cont.blocks
      ensures cont.Valid() && InWindow(cont.items)
      ensures multiset(cont.items) == multiset(old(cont.items)) && |cont.items| == |old(cont.items)|
      ensures if moved then HeapBelow(cont.items, Priority, Parent(j)) else IsHeap(cont.items, Priority, |cont.items|)
    {
      var less := Greater(j, Parent(j));
      if !less {
        UpDone(cont.items, Priority, j);
        return false;
      }
      UpStep(cont.items, Priority, j);
      Exchange(Parent(j), j);
      return true;
    }

    method SiftUp(from: nat)
      requires cont.Valid() && InWindow(cont.items) && from < |cont.items| && HeapBelow(cont.items, Priority, from)
      modifies cont`items, cont.blocks
      ensures Valid() && multiset(cont.items) == multiset(old(cont.items))
    {
      var j := from;
      while j > 0
        invariant 0 <= j < |cont.items| && cont.Valid() && InWindow(cont.items) && HeapBelow(cont.items, Priority, j)
        invariant multiset(cont.items) == multiset(old(cont.items))
      {
        var moved := StepUp(j);
        if !moved { return; }
        j := Parent(j);
      }
      UpDone(cont.items, Priority, 0);
    }

    /** Adds an item whose priority is within the window of the others. */
    method Push(x: Item)
      requires Valid() && InWindow(cont.items + [x])
      modifies cont, cont.blocks
      ensures Valid() && multiset(cont.items) == multiset(old(cont.items)) + multiset{x}
      ensures forall k {:trigger cont.blocks[k]} ::
                0 <= k < |cont.blocks| ==> cont.blocks[k] in old(cont.blocks) || fresh(cont.blocks[k])
    {
      Appended(cont.items, Priority, x);
      cont.Push(x);
      assert forall k {:trigger cont.blocks[k]} ::
          0 <= k < |cont.blocks| ==> cont.blocks[k] in old(cont.blocks) || fresh(cont.blocks[k]);
      SiftUp(cont.size - 1);
    }

    /** The item with the greatest priority. */
    method Peek() returns (x: Item)
      requires Valid() && !Empty()
      ensures x in cont.items && forall y :: y in cont.items ==> y.priority <= x.priority
    {
      assert cont.blocks[0][0] == Cell(cont.items[0]);
      x := cont.blocks[0][0].item;
      forall y | y in cont.items ensures y.priority <= x.priority {
        var k: nat :| k < |cont.items| && cont.items[k] == y;
        TopIsGreatest(cont.items, Priority, |cont.items|, k);
      }
    }

    /** The child that `i` must change places with, or `i` itself. */
    method ChildAhead(n: nat, i: nat) returns (j: nat)
      requires cont.Valid() && InWindow(cont.items) && n <= |cont.items| && i < |cont.items|
      ensures j == i ==> forall k: nat {:trigger Parent(k)} :: 0 < k < n && Parent(k) == i ==> Dominates(cont.items, Priority, i, k)
      ensures j != i ==> IsGreaterChild(cont.items, Priority, n, i, j) && cont.items[j].priority > cont.items[i].priority
    {
      j := 2 * i + 1;
      if j >= n { return i; }
      if j + 1 < n {
        var right := Greater(j + 1, j);
        if right { j := j + 1; }
      }
      GreaterChild(cont.items, Priority, n, i, j);
      var less := Greater(j, i);
      if !less { return i; }
    }

    /** One step down: the item at `i` changes places with its greater child, or the heap is in order. */
    method StepDown(n: nat, i: nat) returns (j: nat)
      requires cont.Valid() && InWindow(cont.items) && n + 1 == |cont.items| && i <= n && (n > 0 ==> i < n)
      requires HeapAbove(cont.items, Priority, n, i)
      modifies cont`items, cont.blocks
      ensures cont.Valid() && InWindow(cont.items) && |cont.items| == n + 1 && cont.items[n] == old(cont.items[n])
      ensures multiset(cont.items) == multiset(old(cont.items))
      ensures if j == i then IsHeap(cont.items, Priority, n) else i < j < n && HeapAbove(cont.items, Priority, n, j)
    {
      j := ChildAhead(n, i);
      if j == i {
        DownDone(cont.items, Priority, n, i);
        return;
      }
      DownStep(cont.items, Priority, n, i, j);
      Exchange(i, j);
    }

    method SiftDown(n: nat)
      requires cont.Valid() && InWindow(cont.items) && n + 1 == |cont.items| && HeapAbove(cont.items, Priority, n, 0)
      modifies cont`items, cont.blocks
      ensures cont.Valid() && InWindow(cont.items) && |cont.items| == n + 1 && cont.items[n] == old(cont.items[n])
      ensures IsHeap(cont.items, Priority, n) && multiset(cont.items) == multiset(old(cont.items))
    {
      var i := 0;
      while true
        invariant 0 <= i <= n && |cont.items| == n + 1 && cont.items[n] == old(cont.items[n]) && (n > 0 ==> i < n)
        invariant cont.Valid() && InWindow(cont.items) && HeapAbove(cont.items, Priority, n, i)
        invariant multiset(cont.items) == multiset(old(cont.items))
        decreases n - i
      {
        var j := StepDown(n, i);
        if j == i { return; }
        i := j;
      }
    }

    /** Takes out an item of greatest priority. */
    method Pop() returns (x: Item)
      requires Valid() && !Empty()
      modifies cont, cont.blocks
      ensures Valid() && multiset(old(cont.items)) == multiset(cont.items) + multiset{x}
      ensures forall y :: y in old(cont.items) ==> y.priority <= x.priority
      ensures cont.blocks == old(cont.blocks)
    {
      ghost var was := cont.items;
      var n := cont.size - 1;
      forall y | y in was ensures y.priority <= was[0].priority {
        var k: nat :| k < |was| && was[k] == y;
        TopIsGreatest(was, Priority, |was|, k);
      }
      TopExchanged(was, Priority);
      Exchange(0, n);
      SiftDown(n);
      ghost var sifted := cont.items;
      x := cont.Pop();
      WindowOf(sifted, cont.items);
      forall k: nat | 0 < k < n ensures Dominates(cont.items, Priority, Parent(k), k) {
        assert Dominates(sifted, Priority, Parent(k), k);
      }
    }
  }

  // ----- Which heights are pruned

  /** The distinct heights below the checkpoint. */
  ghost function HeightsBelow(items: multiset<Item>, cp: int): set<int> {
    set x | x in items && x.priority < cp :: Priority(x)
  }

  ghost function AtLeast(heights: set<int>, h: int): set<int> {
    set d | d in heights && d >= h
  }

  /** An item is retained at or above the checkpoint, and below it when its height is among the `minSize` highest
      distinct ones. */
  ghost predicate Retained(items: multiset<Item>, cp: int, minSize: nat, x: Item) {
    x.priority >= cp || |AtLeast(HeightsBelow(items, cp), x.priority)| <= minSize
  }

  /** The split of the drained items so far: `temp` are the distinct heights seen below the checkpoint. */
  ghost predicate Split(
      all: multiset<Item>, left: multiset<Item>, cp: int, minSize: nat, back: seq<Item>, crop: seq<Item>, temp: set<int>)
  {
    && all == left + multiset(back) + multiset(crop)
    && temp == HeightsBelow(multiset(back) + multiset(crop), cp)
    && (forall x :: x in back ==> Retained(all, cp, minSize, x))
    && (forall x :: x in crop ==> !Retained(all, cp, minSize, x))
    && (forall x, y {:trigger Priority(x), Priority(y)} :: (x in back || x in crop) && y in left ==> Priority(y) <= Priority(x))
    && Descending(crop)
  }

  lemma SeenHeights(all: multiset<Item>, left: multiset<Item>, done: multiset<Item>, cp: int, x: Item)
    requires all == left + multiset{x} + done && x.priority < cp
    requires forall y :: y in left ==> y.priority <= x.priority
    requires forall y :: y in done ==> y.priority >= x.priority
    ensures AtLeast(HeightsBelow(all, cp), x.priority) == HeightsBelow(done, cp) + {Priority(x)}
  {
    var now := HeightsBelow(done, cp) + {Priority(x)};
    forall d | d in AtLeast(HeightsBelow(all, cp), x.priority) ensures d in now {
      var y :| y in all && y.priority < cp && Priority(y) == d;
      assert y in left || y == x || y in done;
    }
    forall d | d in now ensures d in AtLeast(HeightsBelow(all, cp), x.priority) {
      if d != Priority(x) {
        var y :| y in done && y.priority < cp && Priority(y) == d;
        assert y in all;
      } else {
        assert x in all;
      }
    }
  }

  ghost predicate AllHeights(items: multiset<Item>) {
    forall x :: x in items ==> 0 <= x.priority
  }

  lemma HeightsInWindow(items: seq<Item>)
    requires AllHeights(multiset(items))
    ensures InWindow(items)
  {
    forall x, y | x in items && y in items ensures Close(x, y) {
      assert x in multiset(items) && y in multiset(items);
    }
  }

  /** Where the next drained item goes. */
  lemma SplitNext(
      all: multiset<Item>, left: multiset<Item>, cp: int, minSize: nat, back: seq<Item>, crop: seq<Item>, temp: set<int>,
      x: Item, left': multiset<Item>, temp': set<int>)
    requires Split(all, left, cp, minSize, back, crop, temp) && left == left' + multiset{x}
    requires forall y :: y in left ==> y.priority <= x.priority
    requires temp' == if x.priority < cp then temp + {Priority(x)} else temp
    ensures Retained(all, cp, minSize, x) <==> x.priority >= cp || |temp'| <= minSize
    ensures temp' == HeightsBelow(multiset(back) + multiset(crop) + multiset{x}, cp)
  {
    var done := multiset(back) + multiset(crop);
    forall y | y in done ensures y.priority >= x.priority {
      assert y in back || y in crop;
      assert x in left && Priority(x) <= Priority(y);
    }
    if x.priority < cp { SeenHeights(all, left', done, cp, x); }
    AddHeight(done, cp, x);
  }

  lemma AddHeight(done: multiset<Item>, cp: int, x: Item)
    ensures HeightsBelow(done + multiset{x}, cp)
            == if x.priority < cp then HeightsBelow(done, cp) + {Priority(x)} else HeightsBelow(done, cp)
  {
    var more := done + multiset{x};
    assert x in more;
    forall y | y in done ensures y in more {
    }
    forall y | y in more ensures y in done || y == x {
    }
  }

  lemma SplitBack(
      all: multiset<Item>, left: multiset<Item>, cp: int, minSize: nat, back: seq<Item>, crop: seq<Item>, temp: set<int>,
      x: Item, left': multiset<Item>, temp': set<int>)
    requires Split(all, left, cp, minSize, back, crop, temp) && left == left' + multiset{x}
    requires forall y :: y in left ==> y.priority <= x.priority
    requires Retained(all, cp, minSize, x) && temp' == HeightsBelow(multiset(back) + multiset(crop) + multiset{x}, cp)
    ensures Split(all, left', cp, minSize, back + [x], crop, temp')
  {
    assert multiset(back + [x]) + multiset(crop) == multiset(back) + multiset(crop) + multiset{x};
    forall y | y in left' ensures y in left {
    }
  }

  lemma SplitCrop(
      all: multiset<Item>, left: multiset<Item>, cp: int, minSize: nat, back: seq<Item>, crop: seq<Item>, temp: set<int>,
      x: Item, left': multiset<Item>, temp': set<int>)
    requires Split(all, left, cp, minSize, back, crop, temp) && left == left' + multiset{x}
    requires forall y :: y in left ==> y.priority <= x.priority
    requires !Retained(all, cp, minSize, x) && temp' == HeightsBelow(multiset(back) + multiset(crop) + multiset{x}, cp)
    ensures Split(all, left', cp, minSize, back, crop + [x], temp')
  {
    assert multiset(back) + multiset(crop + [x]) == multiset(back) + multiset(crop) + multiset{x};
    forall y | y in left' ensures y in left {
    }
    forall i | 0 <= i < |crop| ensures crop[i].priority >= x.priority {
      assert crop[i] in crop && x in left && Priority(x) <= Priority(crop[i]);
    }
  }

  /** Empties the queue and sorts its items into those that go back and those to prune. */
  method Drain(q: PriorityQueue, cp: nat, minSize: nat) returns (back: seq<Item>, crop: seq<Item>)
    requires q.Valid()
    modifies q.cont, q.cont.blocks
    ensures q.Valid() && q.cont.items == [] && q.cont.blocks == old(q.cont.blocks)
    ensures exists temp :: Split(multiset(old(q.cont.items)), multiset{}, cp, minSize, back, crop, temp)
  {
    ghost var all := multiset(q.cont.items);
    back, crop := [], [];
    var temp: set<int> := {};
    assert HeightsBelow(multiset([]) + multiset([]), cp) == {};
    while !q.Empty()
      invariant q.Valid() && q.cont.blocks == old(q.cont.blocks)
      invariant Split(all, multiset(q.cont.items), cp, minSize, back, crop, temp)
      decreases |q.cont.items|
    {
      ghost var left := multiset(q.cont.items);
      assert forall y :: y in left ==> y in q.cont.items;
      assert |left| == |q.cont.items|;
      ghost var temp0 := temp;
      var x := q.Pop();
      assert |left| == |multiset(q.cont.items)| + 1;
      if x.priority < cp { temp := temp + {x.priority}; }
      SplitNext(all, left, cp, minSize, back, crop, temp0, x, multiset(q.cont.items), temp);
      if x.priority >= cp || |temp| <= minSize {
        SplitBack(all, left, cp, minSize, back, crop, temp0, x, multiset(q.cont.items), temp);
        back := back + [x];
      } else {
        SplitCrop(all, left, cp, minSize, back, crop, temp0, x, multiset(q.cont.items), temp);
        crop := crop + [x];
      }
    }
    assert q.cont.items == [];
  }

  method Refill(q: PriorityQueue, back: seq<Item>)
    requires q.Valid() && q.cont.items == [] && AllHeights(multiset(back))
    modifies q.cont, q.cont.blocks
    ensures q.Valid() && multiset(q.cont.items) == multiset(back)
  {
    var i := 0;
    while i < |back|
      invariant 0 <= i <= |back| && q.Valid() && multiset(q.cont.items) == multiset(back[..i])
      invariant forall k {:trigger q.cont.blocks[k]} ::
                  0 <= k < |q.cont.blocks| ==> q.cont.blocks[k] in old(q.cont.blocks) || fresh(q.cont.blocks[k])
    {
      assert back[..i + 1] == back[..i] + [back[i]];
      assert multiset(q.cont.items + [back[i]]) == multiset(back[..i + 1]);
      assert back == back[..i + 1] + back[i + 1..];
      HeightsInWindow(q.cont.items + [back[i]]);
      q.Push(back[i]);
      i := i + 1;
    }
    assert back[..i] == back;
  }

  /** Nothing is pruned while the queue is empty, the checkpoint low, or all heights below the checkpoint. */
  ghost predicate NothingToPrune(items: seq<Item>, cp: nat, minSize: nat) {
    items == [] || cp <= minSize || forall x :: x in items ==> x.priority < cp
  }

  /** The split of all items into those kept in the queue and those returned. */
  ghost predicate IsSplit(all: multiset<Item>, kept: seq<Item>, crop: seq<Item>, cp: nat, minSize: nat) {
    && all == multiset(kept) + multiset(crop)
    && (forall x :: x in kept ==> Retained(all, cp, minSize, x))
    && (forall x :: x in crop ==> !Retained(all, cp, minSize, x))
    && Descending(crop)
  }

  lemma KeptIsBack(all: multiset<Item>, back: seq<Item>, kept: seq<Item>, crop: seq<Item>, cp: nat, minSize: nat, temp: set<int>)
    requires Split(all, multiset{}, cp, minSize, back, crop, temp) && multiset(kept) == multiset(back)
    ensures IsSplit(all, kept, crop, cp, minSize)
  {
    forall x | x in kept ensures Retained(all, cp, minSize, x) {
      assert x in multiset(kept);
    }
  }

  method Prune(q: PriorityQueue, cp: nat, minSize: nat) returns (crop: seq<Item>)
    requires q.Valid() && AllHeights(multiset(q.cont.items))
    modifies q.cont, q.cont.blocks
    ensures q.Valid() && IsSplit(multiset(old(q.cont.items)), q.cont.items, crop, cp, minSize)
  {
    ghost var all := multiset(q.cont.items);
    var back: seq<Item>;
    back, crop := Drain(q, cp, minSize);
    ghost var temp :| Split(all, multiset{}, cp, minSize, back, crop, temp);
    assert AllHeights(multiset(back)) by {
      forall x: Item | x in multiset(back) ensures 0 <= x.priority { assert x in all; }
    }
    Refill(q, back);
    KeptIsBack(all, back, q.cont.items, crop, cp, minSize, temp);
  }

  /** Splits the queue: what stays are exactly the retained items, what is returned exactly the others, in
      descending order. */
  method GetPruneHeights(q: PriorityQueue, cp: nat, minSize: nat) returns (crop: seq<Item>)
    requires q.Valid() && AllHeights(multiset(q.cont.items))
    modifies q.cont, q.cont.blocks
    ensures q.Valid()
    ensures if NothingToPrune(old(q.cont.items), cp, minSize) then q.cont.items == old(q.cont.items) && crop == []
            else IsSplit(multiset(old(q.cont.items)), q.cont.items, crop, cp, minSize)
  {
    if q.Empty() { return []; }
    if cp <= minSize { return []; }
    var top := q.Peek();
    if top.priority < cp { return []; }
    crop := Prune(q, cp, minSize);
  }

  /** Equal heights share one fate. */
  lemma SameHeightSameFate(all: multiset<Item>, kept: seq<Item>, crop: seq<Item>, cp: nat, minSize: nat, x: Item, y: Item)
    requires IsSplit(all, kept, crop, cp, minSize) && x.priority == y.priority && x in kept
    ensures y !in crop
  {
    assert Retained(all, cp, minSize, x);
  }
}
