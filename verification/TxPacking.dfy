/** Packing: the order in which pending transactions are offered to a block, and the size cap on a block. */
module TxPacking {

  import opened Collections
  import opened TxPool
  import Heaps

  /** The transactions of a source, in the order in which they appear. */
  function Taken(order: seq<Tx>, a: Address): seq<Tx> {
    if order == [] then []
    else
      var rest := Taken(order[..|order| - 1], a);
      if order[|order| - 1].source == a then rest + [order[|order| - 1]] else rest
  }

  lemma TakenNext(order: seq<Tx>, x: Tx, a: Address)
    ensures Taken(order + [x], a) == if x.source == a then Taken(order, a) + [x] else Taken(order, a)
  {
    assert (order + [x])[..|order|] == order;
  }

  /** The first transaction of source `a` that is not in `order` yet. */
  predicate IsHead(w: Waiting, order: seq<Tx>, x: Tx) {
    && x.source in w && |Taken(order, x.source)| < |w[x.source]|
    && w[x.source][|Taken(order, x.source)|] == x
  }

  /** Each transaction has the highest price among the heads at its turn. */
  ghost predicate Greedy(w: Waiting, order: seq<Tx>) {
    forall i, y {:trigger IsHead(w, order[..i], y)} ::
      0 <= i < |order| && IsHead(w, order[..i], y) ==> y.price <= order[i].price
  }

  /** A packing order: every pending transaction once, in nonce order per source, greedily by price. */
  ghost predicate IsPacking(w: Waiting, order: seq<Tx>) {
    (forall a {:trigger Taken(order, a)} :: Taken(order, a) == ListOf(w, a)) && Greedy(w, order)
  }

  function Price(x: Tx): int { x.price }

  /** The heap holds exactly the heads, each once. */
  ghost predicate Heads(w: Waiting, order: seq<Tx>, heads: seq<Tx>) {
    && (forall x {:trigger IsHead(w, order, x)} :: IsHead(w, order, x) <==> x in multiset(heads))
    && (forall x {:trigger multiset(heads)[x]} :: multiset(heads)[x] <= 1)
    && (forall a {:trigger Taken(order, a)} :: Taken(order, a) <= ListOf(w, a))
  }

  ghost function Remaining(w: Waiting, order: seq<Tx>): set<(Address, nat)> {
    set a, i: nat | a in w && i < |w[a]| && |Taken(order, a)| <= i :: (a, i)
  }

  lemma HeadNext(w: Waiting, order: seq<Tx>, x: Tx, y: Tx)
    requires WaitingOk(w) && IsHead(w, order, x)
    ensures IsHead(w, order + [x], y) <==>
            if y.source == x.source then
              |Taken(order, x.source)| + 1 < |w[x.source]| && w[x.source][|Taken(order, x.source)| + 1] == y
            else IsHead(w, order, y)
  {
    TakenNext(order, x, y.source);
  }

  lemma OneHeadPerSource(w: Waiting, order: seq<Tx>, x: Tx, y: Tx)
    requires IsHead(w, order, x) && IsHead(w, order, y) && x.source == y.source
    ensures x == y
  {
  }

  lemma RemainingFalls(w: Waiting, order: seq<Tx>, x: Tx)
    requires IsHead(w, order, x)
    ensures Remaining(w, order + [x]) < Remaining(w, order)
  {
    forall a ensures |Taken(order, a)| <= |Taken(order + [x], a)| { TakenNext(order, x, a); }
    TakenNext(order, x, x.source);
    assert (x.source, |Taken(order, x.source)|) in Remaining(w, order);
    assert (x.source, |Taken(order, x.source)|) !in Remaining(w, order + [x]);
  }

  /** The bag of heads after `x` was taken: its successor, if it has one, comes in. */
  ghost predicate Replaced(w: Waiting, order: seq<Tx>, heads: multiset<Tx>, x: Tx, heads': multiset<Tx>) {
    var n := |Taken(order, x.source)| + 1;
    && heads[x] == 1
    && heads' == heads - multiset{x} + (if n < |ListOf(w, x.source)| then multiset{ListOf(w, x.source)[n]} else multiset{})
  }

  lemma SuccessorSource(w: Waiting, a: Address, n: nat)
    requires WaitingOk(w) && n < |ListOf(w, a)|
    ensures ListOf(w, a)[n].source == a
  {
    assert ListOf(w, a)[n] in w[a];
  }

  lemma HeadsReplaced(w: Waiting, order: seq<Tx>, heads: multiset<Tx>, x: Tx, heads': multiset<Tx>, y: Tx)
    requires WaitingOk(w) && IsHead(w, order, x) && Replaced(w, order, heads, x, heads')
    requires IsHead(w, order, y) <==> y in heads
    requires heads[y] <= 1
    ensures IsHead(w, order + [x], y) <==> y in heads'
    ensures heads'[y] <= 1
  {
    var n := |Taken(order, x.source)| + 1;
    HeadNext(w, order, x, y);
    if n < |ListOf(w, x.source)| { SuccessorSource(w, x.source, n); }
    if y.source == x.source && y in heads { OneHeadPerSource(w, order, x, y); }
  }

  /** Taking a head and putting in its successor, if it has one, keeps the heap. */
  lemma HeadsNext(w: Waiting, order: seq<Tx>, heads: seq<Tx>, x: Tx, heads': seq<Tx>)
    requires WaitingOk(w) && Heads(w, order, heads) && IsHead(w, order, x)
    requires Replaced(w, order, multiset(heads), x, multiset(heads'))
    ensures Heads(w, order + [x], heads')
  {
    var next := order + [x];
    forall y ensures (IsHead(w, next, y) <==> y in multiset(heads')) && multiset(heads')[y] <= 1 {
      assert multiset(heads)[y] <= 1;
      HeadsReplaced(w, order, multiset(heads), x, multiset(heads'), y);
    }
    forall a ensures Taken(next, a) <= ListOf(w, a) {
      TakenNext(order, x, a);
      assert Taken(order, a) <= ListOf(w, a);
    }
  }

  lemma GreedyNext(w: Waiting, order: seq<Tx>, heads: seq<Tx>, x: Tx)
    requires Greedy(w, order) && Heads(w, order, heads) && forall y :: y in heads ==> y.price <= x.price
    ensures Greedy(w, order + [x])
  {
    var next := order + [x];
    forall i, y | 0 <= i < |next| && IsHead(w, next[..i], y) ensures y.price <= next[i].price {
      if i < |order| {
        assert next[..i] == order[..i];
        assert IsHead(w, order[..i], y);
      } else {
        assert next[..i] == order;
        assert y in multiset(heads);
      }
    }
  }

  /** The heads of the first `n` listed sources, before anything is taken. */
  ghost predicate FirstOf(w: Waiting, keys: seq<Address>, n: nat, heads: seq<Tx>)
    requires n <= |keys|
  {
    && (forall x {:trigger multiset(heads)[x]} ::
          multiset(heads)[x] == if x.source in keys[..n] && IsHead(w, [], x) then 1 else 0)
  }

  lemma FirstNext(w: Waiting, keys: seq<Address>, n: nat, heads: seq<Tx>, heads': seq<Tx>)
    requires WaitingOk(w) && n < |keys| && keys[n] in w && keys[n] !in keys[..n] && FirstOf(w, keys, n, heads)
    requires multiset(heads') == multiset(heads) + multiset{w[keys[n]][0]}
    ensures FirstOf(w, keys, n + 1, heads')
  {
    var first := w[keys[n]][0];
    assert first in w[keys[n]];
    assert keys[..n + 1] == keys[..n] + [keys[n]];
    forall x ensures multiset(heads')[x] == if x.source in keys[..n + 1] && IsHead(w, [], x) then 1 else 0 {
      assert multiset(heads)[x] == if x.source in keys[..n] && IsHead(w, [], x) then 1 else 0;
    }
  }

  /** Starts the heap with the first transaction of every source. */
  method FirstHeads(w: Waiting) returns (heads: seq<Tx>)
    requires WaitingOk(w)
    ensures Heaps.IsHeap(heads, Price, |heads|) && Heads(w, [], heads)
  {
    var keys := Listing(w.Keys);
    heads := [];
    var i := 0;
    while i < |keys|
      invariant 0 <= i <= |keys| && Heaps.IsHeap(heads, Price, |heads|) && FirstOf(w, keys, i, heads)
    {
      ghost var was := heads;
      heads := Heaps.Push(heads, Price, w[keys[i]][0]);
      FirstNext(w, keys, i, was, heads);
      i := i + 1;
    }
    assert keys[..i] == keys;
    forall x ensures IsHead(w, [], x) <==> x in multiset(heads) {
      assert multiset(heads)[x] == if x.source in keys && IsHead(w, [], x) then 1 else 0;
    }
  }

  function PositionOf(position: map<Address, nat>, a: Address): nat {
    if a in position then position[a] else 0
  }

  /** Every source with a head is recorded at the position of that head. */
  ghost predicate Positioned(w: Waiting, order: seq<Tx>, position: map<Address, nat>) {
    forall x {:trigger IsHead(w, order, x)} :: IsHead(w, order, x) ==> PositionOf(position, x.source) == |Taken(order, x.source)|
  }

  lemma PositionsNext(w: Waiting, order: seq<Tx>, position: map<Address, nat>, x: Tx, position': map<Address, nat>)
    requires WaitingOk(w) && IsHead(w, order, x) && Positioned(w, order, position)
    requires var n := |Taken(order, x.source)| + 1;
             position' == if n < |w[x.source]| then position[x.source := n] else position
    ensures Positioned(w, order + [x], position')
  {
    forall y | IsHead(w, order + [x], y) ensures PositionOf(position', y.source) == |Taken(order + [x], y.source)| {
      HeadNext(w, order, x, y);
      TakenNext(order, x, y.source);
    }
  }

  lemma UntakenHasHead(w: Waiting, order: seq<Tx>, a: Address)
    requires WaitingOk(w) && |Taken(order, a)| < |ListOf(w, a)|
    ensures IsHead(w, order, ListOf(w, a)[|Taken(order, a)|])
  {
    SuccessorSource(w, a, |Taken(order, a)|);
  }

  lemma AllTaken(w: Waiting, order: seq<Tx>, a: Address)
    requires WaitingOk(w) && Heads(w, order, [])
    ensures Taken(order, a) == ListOf(w, a)
  {
    assert Taken(order, a) <= ListOf(w, a);
    if |Taken(order, a)| < |ListOf(w, a)| { UntakenHasHead(w, order, a); }
  }

  /** Takes a dearest head off the heap. */
  method PopHead(w: Waiting, ghost order: seq<Tx>, heads: seq<Tx>) returns (x: Tx, rest: seq<Tx>)
    requires heads != [] && Heaps.IsHeap(heads, Price, |heads|) && Heads(w, order, heads)
    ensures IsHead(w, order, x) && multiset(heads)[x] == 1 && multiset(rest) == multiset(heads) - multiset{x}
    ensures Heaps.IsHeap(rest, Price, |rest|) && forall y :: y in heads ==> y.price <= x.price
  {
    x, rest := Heaps.Pop(heads, Price);
    assert multiset(heads)[x] <= 1;
    assert x in multiset(heads) && IsHead(w, order, x);
    forall y | y in heads ensures y.price <= x.price { assert Price(y) <= Price(x); }
  }

  /** One turn: takes a dearest head and brings in its successor. */
  method TakeHead(w: Waiting, ghost order: seq<Tx>, heads: seq<Tx>, position: map<Address, nat>)
    returns (x: Tx, heads': seq<Tx>, position': map<Address, nat>)
    requires WaitingOk(w) && heads != [] && Heaps.IsHeap(heads, Price, |heads|) && Heads(w, order, heads)
    requires Positioned(w, order, position)
    ensures IsHead(w, order, x) && forall y :: y in heads ==> y.price <= x.price
    ensures Heaps.IsHeap(heads', Price, |heads'|) && Heads(w, order + [x], heads')
    ensures Positioned(w, order + [x], position')
  {
    position' := position;
    x, heads' := PopHead(w, order, heads);
    var next := PositionOf(position, x.source) + 1;
    if next < |w[x.source]| {
      position' := position[x.source := next];
      heads' := Heaps.Push(heads', Price, w[x.source][next]);
    }
    HeadsNext(w, order, heads, x, heads');
    PositionsNext(w, order, position, x, position');
  }

  /** Visits the pending transactions from a heap of per-source heads; here the visitor never stops. */
  method PackingOrder(w: Waiting) returns (order: seq<Tx>)
    requires WaitingOk(w)
    ensures IsPacking(w, order)
  {
    var heads := FirstHeads(w);
    order := [];
    var position: map<Address, nat> := map[];
    while heads != []
      invariant Heaps.IsHeap(heads, Price, |heads|) && Heads(w, order, heads) && Greedy(w, order)
      invariant Positioned(w, order, position)
      decreases Remaining(w, order)
    {
      ghost var was := heads;
      var x;
      x, heads, position := TakeHead(w, order, heads, position);
      GreedyNext(w, order, was, x);
      RemainingFalls(w, order, x);
      order := order + [x];
    }
    forall a ensures Taken(order, a) == ListOf(w, a) { AllTaken(w, order, a); }
  }

  // ----- The size cap

  const MAX_BLOCK_SIZE: nat := 1024 * 1024

  function SizeOf(txs: seq<Tx>): nat {
    if txs == [] then 0 else SizeOf(txs[..|txs| - 1]) + txs[|txs| - 1].size
  }

  /** The transactions that a predicate admits, in order. */
  function Admitted(txs: seq<Tx>, ok: Tx -> bool): seq<Tx> {
    if txs == [] then []
    else
      var rest := Admitted(txs[..|txs| - 1], ok);
      if ok(txs[|txs| - 1]) then rest + [txs[|txs| - 1]] else rest
  }

  lemma SizeNext(txs: seq<Tx>, x: Tx)
    ensures SizeOf(txs + [x]) == SizeOf(txs) + x.size
  {
    assert (txs + [x])[..|txs|] == txs;
  }

  /** Adds admitted transactions to a block until the next one would exceed the cap. */
  method Fill(txs: seq<Tx>, offered: seq<Tx>, ok: Tx -> bool) returns (r: seq<Tx>, accumulated: nat, n: nat)
    requires SizeOf(txs) <= MAX_BLOCK_SIZE
    ensures n <= |offered| && r == txs + Admitted(offered[..n], ok) && SizeOf(r) <= MAX_BLOCK_SIZE
    ensures n < |offered| ==> ok(offered[n]) && SizeOf(r) + offered[n].size == accumulated > MAX_BLOCK_SIZE
    ensures n == |offered| ==> accumulated == SizeOf(r)
  {
    r, accumulated, n := txs, SizeOf(txs), 0;
    while n < |offered|
      invariant 0 <= n <= |offered| && r == txs + Admitted(offered[..n], ok)
      invariant accumulated == SizeOf(r) <= MAX_BLOCK_SIZE
    {
      var x := offered[n];
      assert offered[..n + 1][..n] == offered[..n];
      if ok(x) {
        accumulated := accumulated + x.size;
        if accumulated > MAX_BLOCK_SIZE { return; }
        SizeNext(r, x);
        r := r + [x];
      }
      n := n + 1;
    }
  }

  /** Packs a block: one reward transaction per rewarded block first, then pending transactions in packing order
      that meet the price bound. The block stays within the cap, and each of the two parts ends only at its end or
      at a transaction that would exceed the cap. */
  method PackTx(rewards: seq<Tx>, w: Waiting, ok: Tx -> bool) returns (txs: seq<Tx>, order: seq<Tx>, k: nat, n: nat)
    requires WaitingOk(w)
    ensures IsPacking(w, order) && k <= |rewards| && n <= |order|
    ensures txs == rewards[..k] + Admitted(order[..n], ok) && SizeOf(txs) <= MAX_BLOCK_SIZE
    ensures k < |rewards| ==> SizeOf(rewards[..k]) + rewards[k].size > MAX_BLOCK_SIZE && n == 0
    ensures k == |rewards| && SizeOf(rewards) < MAX_BLOCK_SIZE && n < |order| ==>
              ok(order[n]) && SizeOf(txs) + order[n].size > MAX_BLOCK_SIZE
  {
    var accumulated;
    txs, accumulated, k := Fill([], rewards, _ => true);
    AdmitsAll(rewards[..k]);
    assert txs == rewards[..k];
    order := PackingOrder(w);
    n := 0;
    assert order[..0] == [];
    if accumulated < MAX_BLOCK_SIZE {
      assert rewards[..k] == rewards;
      txs, accumulated, n := Fill(txs, order, ok);
    }
  }

  lemma {:induction false} AdmitsAll(txs: seq<Tx>)
    ensures Admitted(txs, _ => true) == txs
    decreases |txs|
  {
    if txs != [] { AdmitsAll(txs[..|txs| - 1]); }
  }
}
