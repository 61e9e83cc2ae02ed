/** The transaction pool: pending transactions in nonce order per source, and a queue of transactions that
    cannot be packed yet. */
module TxPool {

  import opened Collections
  import opened MapSums

  type Hash = nat
  type Address = nat

  datatype Tx = Tx(hash: Hash, source: Address, nonce: nat, price: nat, size: nat)

  predicate SameSlot(x: Tx, y: Tx) { x.source == y.source && x.nonce == y.nonce }

  // ----- One source's list

  predicate Before(x: Tx, y: Tx) { x.nonce < y.nonce }

  predicate ByNonce(list: seq<Tx>) {
    forall i, j {:trigger Before(list[i], list[j])} :: 0 <= i < j < |list| ==> Before(list[i], list[j])
  }

  /** A list of a source: not empty, all of that source, with strictly increasing nonces. */
  predicate ListOk(a: Address, list: seq<Tx>) {
    list != [] && ByNonce(list) && forall x :: x in list ==> x.source == a
  }

  function Find(list: seq<Tx>, nonce: nat): (r: Option<Tx>)
    ensures r.Some? ==> r.value in list && r.value.nonce == nonce
    ensures r.None? ==> forall x :: x in list ==> x.nonce != nonce
  {
    if list == [] then None
    else if list[|list| - 1].nonce == nonce then Some(list[|list| - 1])
    else Find(list[..|list| - 1], nonce)
  }

  /** The list with `tx` in its place, instead of one with the same nonce if there is one. */
  function Put(list: seq<Tx>, tx: Tx): seq<Tx> {
    if list == [] || list[|list| - 1].nonce < tx.nonce then list + [tx]
    else if list[|list| - 1].nonce == tx.nonce then list[..|list| - 1] + [tx]
    else Put(list[..|list| - 1], tx) + [list[|list| - 1]]
  }

  function Drop(list: seq<Tx>, nonce: nat): seq<Tx> {
    if list == [] then []
    else if list[|list| - 1].nonce == nonce then list[..|list| - 1]
    else Drop(list[..|list| - 1], nonce) + [list[|list| - 1]]
  }

  lemma FrontByNonce(list: seq<Tx>)
    requires list != [] && ByNonce(list)
    ensures ByNonce(list[..|list| - 1])
    ensures forall x :: x in list[..|list| - 1] ==> x.nonce < list[|list| - 1].nonce
    ensures forall x :: x in list <==> x in list[..|list| - 1] || x == list[|list| - 1]
  {
    var n := |list| - 1;
    var front := list[..n];
    forall i, j | 0 <= i < j < n ensures Before(front[i], front[j]) { assert Before(list[i], list[j]); }
    forall x | x in front ensures x.nonce < list[n].nonce {
      var i :| 0 <= i < n && front[i] == x;
      assert Before(list[i], list[n]);
    }
    forall x | x in list ensures x in front || x == list[n] {
      var i :| 0 <= i < |list| && list[i] == x;
      if i < n { assert front[i] == x; }
    }
  }

  lemma AppendByNonce(list: seq<Tx>, tx: Tx)
    requires ByNonce(list) && forall x :: x in list ==> x.nonce < tx.nonce
    ensures ByNonce(list + [tx])
  {
    var next := list + [tx];
    forall i, j | 0 <= i < j < |next| ensures Before(next[i], next[j]) {
      if j < |list| { assert Before(list[i], list[j]); }
    }
  }

  lemma {:induction false} PutIs(list: seq<Tx>, tx: Tx)
    requires ByNonce(list)
    ensures ByNonce(Put(list, tx)) && Put(list, tx) != []
    ensures forall x :: x in Put(list, tx) <==> x == tx || (x in list && x.nonce != tx.nonce)
    ensures |Put(list, tx)| == |list| + if Find(list, tx.nonce).Some? then 0 else 1
    decreases |list|
  {
    if list == [] {
    } else {
      FrontByNonce(list);
      var front, last := list[..|list| - 1], list[|list| - 1];
      if last.nonce < tx.nonce {
        AppendByNonce(list, tx);
      } else if last.nonce == tx.nonce {
        AppendByNonce(front, tx);
      } else {
        PutIs(front, tx);
        AppendByNonce(Put(front, tx), last);
      }
    }
  }

  lemma {:induction false} DropIs(list: seq<Tx>, nonce: nat)
    requires ByNonce(list)
    ensures ByNonce(Drop(list, nonce))
    ensures forall x :: x in Drop(list, nonce) <==> x in list && x.nonce != nonce
    ensures |Drop(list, nonce)| == |list| - if Find(list, nonce).Some? then 1 else 0
    decreases |list|
  {
    if list != [] {
      FrontByNonce(list);
      var front, last := list[..|list| - 1], list[|list| - 1];
      if last.nonce != nonce {
        DropIs(front, nonce);
        AppendByNonce(Drop(front, nonce), last);
      }
    }
  }

  // ----- The pending lists of all sources

  type Waiting = map<Address, seq<Tx>>

  predicate WaitingOk(w: Waiting) {
    forall a {:trigger w[a]} :: a in w ==> ListOk(a, w[a])
  }

  function Lengths(w: Waiting): map<Address, nat> {
    map a | a in w :: |w[a]|
  }

  predicate InPending(w: Waiting, x: Tx) { x.source in w && x in w[x.source] }

  function ListOf(w: Waiting, a: Address): seq<Tx> { if a in w then w[a] else [] }

  /** Stores a source's list; an empty one is dropped. */
  function Stored(w: Waiting, a: Address, list: seq<Tx>): Waiting {
    if list == [] then w - {a} else w[a := list]
  }

  lemma StoredIs(w: Waiting, a: Address, list: seq<Tx>)
    requires WaitingOk(w) && (list != [] ==> ListOk(a, list))
    ensures WaitingOk(Stored(w, a, list))
    ensures Total(Lengths(Stored(w, a, list))) + |ListOf(w, a)| == Total(Lengths(w)) + |list|
    ensures forall x {:trigger InPending(Stored(w, a, list), x)} ::
              InPending(Stored(w, a, list), x) <==> if x.source == a then x in list else InPending(w, x)
  {
    var was, now := Lengths(w), Lengths(Stored(w, a, list));
    assert now - {a} == was - {a};
    if a in was { TotalRemove(was, a); } else { assert was - {a} == was; }
    if a in now { TotalRemove(now, a); } else { assert now - {a} == now; }
  }

  /** The pending transaction with the same source and nonce. */
  function Occupant(w: Waiting, tx: Tx): (r: Option<Tx>)
    requires WaitingOk(w)
    ensures r.Some? ==> InPending(w, r.value) && SameSlot(r.value, tx)
    ensures r.None? ==> forall x {:trigger InPending(w, x)} :: InPending(w, x) ==> !SameSlot(x, tx)
  {
    Find(ListOf(w, tx.source), tx.nonce)
  }

  function WithTx(w: Waiting, tx: Tx): Waiting { Stored(w, tx.source, Put(ListOf(w, tx.source), tx)) }

  function WithoutSlot(w: Waiting, tx: Tx): Waiting { Stored(w, tx.source, Drop(ListOf(w, tx.source), tx.nonce)) }

  lemma WithTxIs(w: Waiting, tx: Tx)
    requires WaitingOk(w)
    ensures WaitingOk(WithTx(w, tx))
    ensures Total(Lengths(WithTx(w, tx))) == Total(Lengths(w)) + if Occupant(w, tx).Some? then 0 else 1
    ensures forall x {:trigger InPending(WithTx(w, tx), x)} ::
              InPending(WithTx(w, tx), x) <==> x == tx || (InPending(w, x) && !SameSlot(x, tx))
  {
    PutIs(ListOf(w, tx.source), tx);
    StoredIs(w, tx.source, Put(ListOf(w, tx.source), tx));
  }

  lemma WithoutSlotIs(w: Waiting, tx: Tx)
    requires WaitingOk(w)
    ensures WaitingOk(WithoutSlot(w, tx))
    ensures Total(Lengths(WithoutSlot(w, tx))) == Total(Lengths(w)) - if Occupant(w, tx).Some? then 1 else 0
    ensures forall x {:trigger InPending(WithoutSlot(w, tx), x)} ::
              InPending(WithoutSlot(w, tx), x) <==> InPending(w, x) && !SameSlot(x, tx)
  {
    DropIs(ListOf(w, tx.source), tx.nonce);
    StoredIs(w, tx.source, Drop(ListOf(w, tx.source), tx.nonce));
  }

  // ----- Pushing to the pending lists

  function LastOf(list: seq<Tx>): Tx
    requires list != []
  {
    list[|list| - 1]
  }

  /** A transaction can be packed after those of its source: it is the next one on the chain, or its nonce is at
      most one above the highest pending one. */
  predicate Fits(w: Waiting, tx: Tx, stateNonce: nat)
    requires WaitingOk(w)
  {
    tx.nonce == stateNonce + 1 || (tx.source in w && tx.nonce <= LastOf(w[tx.source]).nonce + 1)
  }

  /** A last transaction of a source whose price no other source's last transaction undercuts. */
  predicate IsCheapestLast(w: Waiting, low: Tx)
    requires WaitingOk(w)
  {
    && low.source in w && LastOf(w[low.source]) == low
    && forall a {:trigger LastOf(w[a])} :: a in w ==> low.price <= LastOf(w[a]).price
  }

  /** What a push that fits does: an occupied slot goes to the higher price, with the newcomer losing a tie; a
      free slot is taken, and a full pool then loses a cheapest last transaction. */
  ghost predicate Pushed(w: Waiting, w': Waiting, tx: Tx, evicted: Option<Tx>, full: bool)
    requires WaitingOk(w)
  {
    match Occupant(w, tx)
    case Some(x) =>
      if x.price < tx.price then w' == WithTx(w, tx) && evicted == Some(x)
      else w' == w && evicted == Some(tx)
    case None =>
      if !full then w' == WithTx(w, tx) && evicted == None
      else
        && evicted.Some? && WaitingOk(WithTx(w, tx)) && IsCheapestLast(WithTx(w, tx), evicted.value)
        && w' == WithoutSlot(WithTx(w, tx), evicted.value)
  }

  lemma LastIs(w: Waiting, x: Tx)
    requires WaitingOk(w) && InPending(w, x)
    ensures InPending(w, LastOf(w[x.source])) && LastOf(w[x.source]).source == x.source
    ensures x.nonce <= LastOf(w[x.source]).nonce
    ensures x == LastOf(w[x.source]) || x.nonce < LastOf(w[x.source]).nonce
  {
    var list := w[x.source];
    var i :| 0 <= i < |list| && list[i] == x;
    if i < |list| - 1 { assert Before(list[i], list[|list| - 1]); }
  }

  /** A transaction fits exactly if it is the next one on the chain or directly follows or precedes a pending one of its
      source. */
  lemma FitsIs(w: Waiting, tx: Tx, stateNonce: nat)
    requires WaitingOk(w)
    ensures Fits(w, tx, stateNonce) <==>
              || tx.nonce == stateNonce + 1
              || exists x {:trigger InPending(w, x)} :: InPending(w, x) && x.source == tx.source && tx.nonce <= x.nonce + 1
  {
    if tx.source in w {
      assert InPending(w, LastOf(w[tx.source]));
    }
    forall x | InPending(w, x) && x.source == tx.source && tx.nonce <= x.nonce + 1 ensures Fits(w, tx, stateNonce) {
      LastIs(w, x);
    }
  }

  /** The highest nonce its source has, among the pending transactions and `tx`. */
  ghost predicate IsTop(w: Waiting, tx: Tx, x: Tx) {
    && (x == tx || InPending(w, x))
    && (tx.source == x.source ==> tx.nonce <= x.nonce)
    && forall y {:trigger InPending(w, y)} :: InPending(w, y) && y.source == x.source ==> y.nonce <= x.nonce
  }

  /** Of two transactions for one slot the dearer stays, and the earlier one on a tie; a new slot is taken, and if that
      fills the pool, it is paid for by a transaction that no other waits behind and that is a cheapest of those. */
  lemma PriceDecides(w: Waiting, w': Waiting, tx: Tx, evicted: Option<Tx>, full: bool)
    requires WaitingOk(w) && Pushed(w, w', tx, evicted, full) && !InPending(w, tx)
    ensures forall x {:trigger InPending(w', x)} :: InPending(w', x) <==> (x == tx || InPending(w, x)) && evicted != Some(x)
    ensures forall x {:trigger InPending(w, x)} :: InPending(w, x) && SameSlot(x, tx) ==>
              evicted == Some(if x.price < tx.price then x else tx)
    ensures (forall x {:trigger InPending(w, x)} :: InPending(w, x) ==> !SameSlot(x, tx)) ==>
              && (evicted.Some? <==> full)
              && (full ==> IsTop(w, tx, evicted.value) && forall y :: IsTop(w, tx, y) ==> evicted.value.price <= y.price)
  {
    WithTxIs(w, tx);
    var w1 := WithTx(w, tx);
    forall x | InPending(w, x) && SameSlot(x, tx) ensures Occupant(w, tx) == Some(x) {
      OneInSlot(w, x, Occupant(w, tx).value);
    }
    if full && Occupant(w, tx).None? {
      var low := evicted.value;
      assert InPending(w1, low);
      WithoutSlotIs(w1, low);
      forall x | InPending(w1, x) && SameSlot(x, low) ensures x == low { OneInSlot(w1, x, low); }
      TopIsLast(w, w1, tx, low);
      forall y | IsTop(w, tx, y) ensures low.price <= y.price { TopIsLast(w, w1, tx, y); }
    }
  }

  lemma OneInSlot(w: Waiting, x: Tx, y: Tx)
    requires WaitingOk(w) && InPending(w, x) && InPending(w, y) && SameSlot(x, y)
    ensures x == y
  {
    var list := w[x.source];
    var i :| 0 <= i < |list| && list[i] == x;
    var j :| 0 <= j < |list| && list[j] == y;
    assert (i < j ==> Before(list[i], list[j])) && (j < i ==> Before(list[j], list[i]));
  }

  lemma TopIsLast(w: Waiting, w1: Waiting, tx: Tx, x: Tx)
    requires WaitingOk(w1)
    requires forall y {:trigger InPending(w1, y)} {:trigger InPending(w, y)} :: InPending(w1, y) <==> y == tx || InPending(w, y)
    requires x == tx || InPending(w, x)
    ensures x.source in w1 && (IsTop(w, tx, x) <==> LastOf(w1[x.source]) == x)
  {
    assert InPending(w1, x) && InPending(w1, tx);
    LastIs(w1, x);
    var last := LastOf(w1[x.source]);
    if last == x {
      forall y | InPending(w, y) && y.source == x.source ensures y.nonce <= x.nonce { LastIs(w1, y); }
      if tx.source == x.source { LastIs(w1, tx); }
    }
  }

  class PendingContainer {
    const limit: nat
    var size: nat
    var waiting: Waiting

    /** The size is the number of pending transactions and stays below the limit. */
    ghost predicate Valid()
      reads this
    {
      WaitingOk(waiting) && size == Total(Lengths(waiting)) && size < limit
    }

    constructor (limit: nat)
      requires limit > 0
      ensures Valid() && waiting == map[] && this.limit == limit
    {
      this.limit := limit;
      size := 0;
      waiting := map[];
      new;
      assert Lengths(waiting) == map[];
    }

    /** Takes out the transaction with the source and nonce of `tx`, whatever its hash. */
    method Remove(tx: Tx)
      requires WaitingOk(waiting) && size == Total(Lengths(waiting))
      modifies this
      ensures WaitingOk(waiting) && size == Total(Lengths(waiting)) && size <= old(size)
      ensures Occupant(old(waiting), tx).Some? ==> size == old(size) - 1
      ensures waiting == WithoutSlot(old(waiting), tx)
    {
      WithoutSlotIs(waiting, tx);
      if tx.source in waiting {
        var list := waiting[tx.source];
        if Find(list, tx.nonce).Some? { size := size - 1; }
        waiting := if Drop(list, tx.nonce) == [] then waiting - {tx.source} else waiting[tx.source := Drop(list, tx.nonce)];
      } else {
        assert waiting - {tx.source} == waiting;
      }
    }

    /** Scans the last transactions of all sources for a lowest price. */
    method CheapestLast() returns (low: Tx)
      requires WaitingOk(waiting) && waiting != map[]
      ensures IsCheapestLast(waiting, low)
    {
      var sources := Listing(waiting.Keys);
      assert exists a :: a in waiting;
      assert sources != [];
      low := LastOf(waiting[sources[0]]);
      var i := 1;
      while i < |sources|
        invariant 1 <= i <= |sources|
        invariant low.source in waiting && LastOf(waiting[low.source]) == low
        invariant forall k :: 0 <= k < i ==> low.price <= LastOf(waiting[sources[k]]).price
      {
        var last := LastOf(waiting[sources[i]]);
        if low.price > last.price { low := last; }
        i := i + 1;
      }
      forall a | a in waiting ensures low.price <= LastOf(waiting[a]).price {
        assert a in sources;
      }
    }

    method Push(tx: Tx, stateNonce: nat) returns (added: bool, evicted: Option<Tx>)
      requires Valid()
      modifies this
      ensures Valid()
      ensures added == Fits(old(waiting), tx, stateNonce)
      ensures !added ==> waiting == old(waiting) && evicted == None
      ensures added ==> Pushed(old(waiting), waiting, tx, evicted, old(size) + 1 >= limit)
    {
      if tx.nonce != stateNonce + 1 {
        if tx.source !in waiting { return false, None; }
        if tx.nonce > LastOf(waiting[tx.source]).nonce + 1 { return false, None; }
      }
      WithTxIs(waiting, tx);
      var list := ListOf(waiting, tx.source);
      var occupant := Find(list, tx.nonce);
      if occupant.Some? {
        if occupant.value.price >= tx.price { return true, Some(tx); }
        PutIs(list, tx);
        waiting := waiting[tx.source := Put(list, tx)];
        return true, occupant;
      }
      PutIs(list, tx);
      waiting := waiting[tx.source := Put(list, tx)];
      size := size + 1;
      if size < limit { return true, None; }
      assert tx.source in waiting;
      var low := CheapestLast();
      Remove(low);
      return true, Some(low);
    }
  }

  // ----- The whole pool

  predicate Held(txs: map<Hash, Tx>, x: Tx) { x.hash in txs && txs[x.hash] == x }

  /** Pending and queued transactions are held and disjoint, and the queue has one transaction per slot. The map
      of held transactions may have more. */
  ghost predicate PoolOk(w: Waiting, queue: map<Hash, Tx>, txs: map<Hash, Tx>) {
    && (forall h {:trigger txs[h]} :: h in txs ==> txs[h].hash == h)
    && (forall x {:trigger InPending(w, x)} :: InPending(w, x) ==> Held(txs, x) && x.hash !in queue)
    && (forall h {:trigger queue[h]} :: h in queue ==> queue[h].hash == h && Held(txs, queue[h]))
    && (forall h, h' {:trigger SameSlot(queue[h], queue[h'])} ::
          h in queue && h' in queue && SameSlot(queue[h], queue[h']) ==> h == h')
  }

  function HashSet(x: Option<Tx>): set<Hash> { if x.Some? then {x.value.hash} else {} }

  /** What the pool's invariant needs to know of a push. */
  ghost predicate Moved(w: Waiting, w': Waiting, tx: Tx, evicted: Option<Tx>) {
    && (forall x {:trigger InPending(w', x)} :: InPending(w', x) ==> (x == tx || InPending(w, x)) && evicted != Some(x))
    && (evicted.Some? ==> evicted.value == tx || InPending(w, evicted.value))
  }

  lemma PushedMoves(w: Waiting, w': Waiting, tx: Tx, evicted: Option<Tx>, full: bool)
    requires WaitingOk(w) && Pushed(w, w', tx, evicted, full) && !InPending(w, tx)
    ensures Moved(w, w', tx, evicted)
  {
    WithTxIs(w, tx);
    if evicted.Some? && Occupant(w, tx).None? {
      assert InPending(WithTx(w, tx), evicted.value);
      WithoutSlotIs(WithTx(w, tx), evicted.value);
    }
  }

  lemma PushKeepsPool(w: Waiting, w': Waiting, queue: map<Hash, Tx>, txs: map<Hash, Tx>, tx: Tx, evicted: Option<Tx>)
    requires Moved(w, w', tx, evicted) && PoolOk(w, queue, txs) && tx.hash !in txs
    ensures PoolOk(w', queue, txs[tx.hash := tx] - HashSet(evicted))
  {
    var txs' := txs[tx.hash := tx] - HashSet(evicted);
    assert tx.hash in queue ==> Held(txs, queue[tx.hash]);
    forall h | h in queue ensures Held(txs', queue[h]) {
      assert Held(txs, queue[h]);
    }
    forall x | InPending(w', x) ensures Held(txs', x) && x.hash !in queue {
      assert x != tx ==> InPending(w, x);
    }
  }

  lemma PromoteKeepsPool(w: Waiting, w': Waiting, queue: map<Hash, Tx>, txs: map<Hash, Tx>, tx: Tx, evicted: Option<Tx>)
    requires Moved(w, w', tx, evicted) && PoolOk(w, queue, txs) && Held(queue, tx)
    ensures PoolOk(w', queue - HashSet(evicted) - {tx.hash}, txs - HashSet(evicted))
  {
    var queue', txs' := queue - HashSet(evicted) - {tx.hash}, txs - HashSet(evicted);
    assert Held(txs, queue[tx.hash]);
    forall h | h in queue' ensures queue'[h].hash == h && Held(txs', queue'[h]) {
      assert Held(txs, queue[h]);
    }
    forall h, h' | h in queue' && h' in queue' && SameSlot(queue'[h], queue'[h']) ensures h == h' {
      assert SameSlot(queue[h], queue[h']);
    }
    forall x | InPending(w', x) ensures Held(txs', x) && x.hash !in queue' {
      assert x != tx ==> InPending(w, x);
      assert evicted.Some? && evicted.value != tx ==> InPending(w, evicted.value);
    }
  }

  lemma EnqueueKeepsPool(w: Waiting, queue: map<Hash, Tx>, txs: map<Hash, Tx>, tx: Tx, evicted: Option<Tx>)
    requires PoolOk(w, queue, txs) && tx.hash !in txs
    requires evicted.Some? ==> Held(queue, evicted.value)
    requires forall h {:trigger queue[h]} :: h in queue && SameSlot(queue[h], tx) ==> evicted == Some(queue[h])
    ensures PoolOk(w, (queue - HashSet(evicted))[tx.hash := tx], txs[tx.hash := tx] - HashSet(evicted))
  {
    var queue', txs' := (queue - HashSet(evicted))[tx.hash := tx], txs[tx.hash := tx] - HashSet(evicted);
    if evicted.Some? { assert Held(txs, queue[evicted.value.hash]); }
    forall h | h in queue' ensures queue'[h].hash == h && Held(txs', queue'[h]) {
      if h != tx.hash { assert Held(txs, queue[h]); }
    }
    forall h, h' | h in queue' && h' in queue' && SameSlot(queue'[h], queue'[h']) ensures h == h' {
      if h != tx.hash && h' != tx.hash { assert SameSlot(queue[h], queue[h']); }
    }
    forall x | InPending(w, x) ensures Held(txs', x) && x.hash !in queue' {
      assert Held(txs, x);
    }
  }

  lemma RemoveKeepsPool(w: Waiting, queue: map<Hash, Tx>, txs: map<Hash, Tx>, tx: Tx)
    requires WaitingOk(w) && PoolOk(w, queue, txs) && Held(txs, tx)
    ensures PoolOk(WithoutSlot(w, tx), queue - {tx.hash}, txs - {tx.hash})
  {
    WithoutSlotIs(w, tx);
    var w', queue', txs' := WithoutSlot(w, tx), queue - {tx.hash}, txs - {tx.hash};
    forall h | h in queue' ensures queue'[h].hash == h && Held(txs', queue'[h]) {
      assert Held(txs, queue[h]);
    }
    forall h, h' | h in queue' && h' in queue' && SameSlot(queue'[h], queue'[h']) ensures h == h' {
      assert SameSlot(queue[h], queue[h']);
    }
    forall x | InPending(w', x) ensures Held(txs', x) && x.hash !in queue' {
      assert InPending(w, x);
    }
  }

  // ----- Pushing to the queue

  /** What adding to a queue that is not full does: a taken slot goes to the higher price. */
  ghost predicate Enqueued(queue: map<Hash, Tx>, queue': map<Hash, Tx>, tx: Tx, evicted: Option<Tx>) {
    || (queue' == queue && evicted == Some(tx)
        && exists h :: h in queue && SameSlot(queue[h], tx) && queue[h].price >= tx.price)
    || (queue' == (queue - HashSet(evicted))[tx.hash := tx]
        && (evicted.Some? ==> Held(queue, evicted.value) && SameSlot(evicted.value, tx) && evicted.value.price < tx.price)
        && forall h {:trigger queue[h]} :: h in queue && SameSlot(queue[h], tx) ==> evicted == Some(queue[h]))
  }

  /** Looks for the queued transaction in the slot of `tx`. */
  method QueueOccupant(queue: map<Hash, Tx>, tx: Tx) returns (r: Option<Tx>)
    requires forall h :: h in queue ==> queue[h].hash == h
    ensures r.Some? ==> Held(queue, r.value) && SameSlot(r.value, tx)
    ensures r.None? ==> forall h :: h in queue ==> !SameSlot(queue[h], tx)
  {
    var keys := Listing(queue.Keys);
    var i := 0;
    while i < |keys|
      invariant 0 <= i <= |keys|
      invariant forall k :: 0 <= k < i ==> !SameSlot(queue[keys[k]], tx)
    {
      if SameSlot(queue[keys[i]], tx) { return Some(queue[keys[i]]); }
      i := i + 1;
    }
    forall h | h in queue ensures !SameSlot(queue[h], tx) { assert h in keys; }
    return None;
  }

  lemma KeysSize(a: map<Hash, Tx>, b: map<Hash, Tx>)
    requires a.Keys <= b.Keys
    ensures |a| <= |b|
  {
    SubsetSize(a.Keys, b.Keys);
  }

  lemma AddedSize(queue: map<Hash, Tx>, queue': map<Hash, Tx>, h: Hash)
    requires queue'.Keys <= queue.Keys + {h}
    ensures |queue'| <= |queue| + 1
  {
    SubsetSize(queue'.Keys, queue.Keys + {h});
  }

  const NONCE_WINDOW: nat := 1000

  /** How a new transaction changes the pool: it goes to the pending lists if it fits there, otherwise to the queue
      unless that is over its limit; what it displaces is no longer held. */
  ghost predicate TakenIn(
      w: Waiting, queue: map<Hash, Tx>, txs: map<Hash, Tx>, w': Waiting, queue': map<Hash, Tx>, txs': map<Hash, Tx>,
      tx: Tx, stateNonce: nat, evicted: Option<Tx>, full: bool, queueFull: bool)
  {
    WaitingOk(w) &&
    if Fits(w, tx, stateNonce) then
      Pushed(w, w', tx, evicted, full) && queue' == queue && txs' == txs[tx.hash := tx] - HashSet(evicted)
    else if queueFull then w' == w && queue' == queue && txs' == txs
    else w' == w && Enqueued(queue, queue', tx, evicted) && txs' == txs[tx.hash := tx] - HashSet(evicted)
  }

  lemma DropKeepsPool(w: Waiting, queue: map<Hash, Tx>, txs: map<Hash, Tx>, tx: Tx)
    requires PoolOk(w, queue, txs) && Held(queue, tx)
    ensures PoolOk(w, queue - {tx.hash}, txs - {tx.hash})
  {
    var queue', txs' := queue - {tx.hash}, txs - {tx.hash};
    forall h | h in queue' ensures queue'[h].hash == h && Held(txs', queue'[h]) {
      assert Held(txs, queue[h]);
    }
    forall h, h' | h in queue' && h' in queue' && SameSlot(queue'[h], queue'[h']) ensures h == h' {
      assert SameSlot(queue[h], queue[h']);
    }
    forall x | InPending(w, x) ensures Held(txs', x) && x.hash !in queue' {
      assert x.hash !in queue;
    }
  }

  // ----- Promotion in nonce order

  predicate NotAbove(x: Tx, y: Tx) { x.nonce <= y.nonce && x != y }

  /** In nonce order and without repetition. */
  predicate NonceSorted(list: seq<Tx>) {
    forall i, j {:trigger NotAbove(list[i], list[j])} :: 0 <= i < j < |list| ==> NotAbove(list[i], list[j])
  }

  function InsertByNonce(list: seq<Tx>, tx: Tx): seq<Tx> {
    if list == [] || list[|list| - 1].nonce <= tx.nonce then list + [tx]
    else InsertByNonce(list[..|list| - 1], tx) + [list[|list| - 1]]
  }

  lemma {:induction false} InsertIs(list: seq<Tx>, tx: Tx)
    requires NonceSorted(list) && tx !in list
    ensures NonceSorted(InsertByNonce(list, tx))
    ensures forall x :: x in InsertByNonce(list, tx) <==> x in list || x == tx
    decreases |list|
  {
    var n := |list| - 1;
    if list == [] || list[n].nonce <= tx.nonce {
      var next := list + [tx];
      forall i, j | 0 <= i < j < |next| ensures NotAbove(next[i], next[j]) {
        if j < |list| {
          assert NotAbove(list[i], list[j]);
        } else {
          assert list[i] in list;
          if i < n { assert NotAbove(list[i], list[n]); }
        }
      }
    } else {
      var front, last := list[..n], list[n];
      forall i, j | 0 <= i < j < n ensures NotAbove(front[i], front[j]) { assert NotAbove(list[i], list[j]); }
      InsertIs(front, tx);
      var rest := InsertByNonce(front, tx);
      var next := rest + [last];
      forall x | x in front ensures NotAbove(x, last) {
        var i :| 0 <= i < n && front[i] == x;
        assert NotAbove(list[i], list[n]);
      }
      forall i, j | 0 <= i < j < |next| ensures NotAbove(next[i], next[j]) {
        if j < |rest| { assert NotAbove(rest[i], rest[j]); } else { assert rest[i] in rest; }
      }
      assert forall x :: x in list <==> x in front || x == last by {
        assert list == front + [last];
      }
    }
  }

  /** The queue as a list in nonce order. */
  method SortedQueue(queue: map<Hash, Tx>) returns (sl: seq<Tx>)
    requires forall h {:trigger queue[h]} :: h in queue ==> queue[h].hash == h
    ensures NonceSorted(sl)
    ensures forall k {:trigger sl[k]} :: 0 <= k < |sl| ==> Held(queue, sl[k])
    ensures forall h {:trigger queue[h]} :: h in queue ==> queue[h] in sl
  {
    var keys := Listing(queue.Keys);
    sl := [];
    var i := 0;
    while i < |keys|
      invariant 0 <= i <= |keys| && NonceSorted(sl)
      invariant forall x :: x in sl ==> Held(queue, x) && x.hash in keys[..i]
      invariant forall k :: 0 <= k < i ==> queue[keys[k]] in sl
    {
      var tx := queue[keys[i]];
      assert keys[..i + 1] == keys[..i] + [keys[i]];
      InsertIs(sl, tx);
      sl := InsertByNonce(sl, tx);
      i := i + 1;
    }
    forall h | h in queue ensures queue[h] in sl { assert h in keys; }
  }

  /** Ahead of the chain, but neither next on the chain nor next after the pending ones. */
  predicate Unfit(w: Waiting, x: Tx, stateNonce: nat) {
    WaitingOk(w) && stateNonce < x.nonce && !Fits(w, x, stateNonce)
  }

  lemma DropLast(w: Waiting, low: Tx, a: Address)
    requires WaitingOk(w) && low.source in w && LastOf(w[low.source]) == low
    ensures WaitingOk(WithoutSlot(w, low))
    ensures a in WithoutSlot(w, low) ==> a in w && LastOf(WithoutSlot(w, low)[a]).nonce <= LastOf(w[a]).nonce
  {
    WithoutSlotIs(w, low);
    var list := w[low.source];
    assert Drop(list, low.nonce) == list[..|list| - 1];
    if |list| > 1 { assert Before(list[|list| - 2], list[|list| - 1]); }
  }

  /** A push never makes room for another source's transaction, nor for a lower nonce of its own source. */
  lemma UnfitStays(w: Waiting, w': Waiting, tx: Tx, stateNonce: nat, evicted: Option<Tx>, full: bool, y: Tx, n: nat)
    requires WaitingOk(w) && WaitingOk(w') && Pushed(w, w', tx, evicted, full) && Fits(w, tx, stateNonce)
    requires Unfit(w, y, n) && y.nonce <= tx.nonce && (y.source == tx.source ==> n == stateNonce)
    ensures Unfit(w', y, n)
  {
    WithTxIs(w, tx);
    if Occupant(w, tx).None? && full { DropLast(WithTx(w, tx), evicted.value, y.source); }
  }

  lemma StillUnfit(
      w: Waiting, w': Waiting, queue: map<Hash, Tx>, queue': map<Hash, Tx>, sl: seq<Tx>, i: nat, nonces: Address -> nat)
    requires WaitingOk(w) && WaitingOk(w') && NonceSorted(sl) && i < |sl| && Held(queue, sl[i])
    requires forall k {:trigger sl[k]} :: i <= k < |sl| ==> Held(queue, sl[k])
    requires forall h {:trigger queue[h]} :: h in queue ==> queue[h] in sl
    requires forall k {:trigger sl[k]} :: 0 <= k < i && Held(queue, sl[k]) ==> Unfit(w, sl[k], nonces(sl[k].source))
    requires var tx, n := sl[i], nonces(sl[i].source);
             if tx.nonce <= n then queue' == queue - {tx.hash} && w' == w
             else if !Fits(w, tx, n) then queue' == queue && w' == w
             else queue' == queue - {tx.hash} && exists evicted, full :: Pushed(w, w', tx, evicted, full)
    ensures forall k {:trigger sl[k]} :: i < k < |sl| ==> Held(queue', sl[k])
    ensures forall h {:trigger queue'[h]} :: h in queue' ==> queue'[h] in sl
    ensures forall k {:trigger sl[k]} :: 0 <= k <= i && Held(queue', sl[k]) ==> Unfit(w', sl[k], nonces(sl[k].source))
  {
    var tx, n := sl[i], nonces(sl[i].source);
    forall k | i < k < |sl| ensures Held(queue', sl[k]) {
      assert NotAbove(sl[i], sl[k]) && Held(queue, sl[k]);
    }
    forall h | h in queue' ensures queue'[h] in sl {
      assert queue[h] in sl;
    }
    forall k | 0 <= k < i && Held(queue', sl[k]) ensures Unfit(w', sl[k], nonces(sl[k].source)) {
      assert Held(queue, sl[k]);
      assert NotAbove(sl[k], sl[i]);
      if tx.nonce > n && Fits(w, tx, n) {
        var evicted, full :| Pushed(w, w', tx, evicted, full);
        UnfitStays(w, w', tx, n, evicted, full, sl[k], nonces(sl[k].source));
      }
    }
  }

  class SimpleContainer {
    const pending: PendingContainer
    const queueLimit: nat
    var txs: map<Hash, Tx>
    var queue: map<Hash, Tx>

    ghost predicate Valid()
      reads this, pending
    {
      pending.Valid() && PoolOk(pending.waiting, queue, txs) && |queue| <= queueLimit + 1
    }

    constructor (pendingLimit: nat, queueLimit: nat)
      requires pendingLimit > 0
      ensures Valid() && fresh(pending)
    {
      pending := new PendingContainer(pendingLimit);
      this.queueLimit := queueLimit;
      txs := map[];
      queue := map[];
    }

    /** Queues a transaction; fails when the queue is over its limit. */
    method AddToQueue(tx: Tx) returns (ok: bool, evicted: Option<Tx>)
      requires Valid() && tx.hash !in txs
      modifies this`queue
      ensures ok == (|old(queue)| <= queueLimit)
      ensures !ok ==> queue == old(queue) && evicted == None
      ensures ok ==> Enqueued(old(queue), queue, tx, evicted) && |queue| <= queueLimit + 1
      ensures ok ==> PoolOk(pending.waiting, queue, txs[tx.hash := tx] - HashSet(evicted))
    {
      if |queue| > queueLimit { return false, None; }
      assert forall h {:trigger queue[h]} :: h in queue ==> queue[h].hash == h && Held(txs, queue[h]);
      var occupant := QueueOccupant(queue, tx);
      if occupant.Some? && occupant.value.price >= tx.price {
        assert txs[tx.hash := tx] - {tx.hash} == txs;
        return true, Some(tx);
      }
      assert forall h {:trigger queue[h]} :: h in queue && SameSlot(queue[h], tx) ==> occupant == Some(queue[h]) by {
        forall h | h in queue && SameSlot(queue[h], tx) ensures occupant == Some(queue[h]) {
          assert SameSlot(queue[h], queue[occupant.value.hash]);
        }
      }
      EnqueueKeepsPool(pending.waiting, queue, txs, tx, occupant);
      queue := (queue - HashSet(occupant))[tx.hash := tx];
      AddedSize(old(queue), queue, tx.hash);
      return true, occupant;
    }

    /** Pushes a transaction that is new and in the nonce window. */
    method PushNew(tx: Tx, stateNonce: nat) returns (ok: bool, evicted: Option<Tx>)
      requires Valid() && tx.hash !in txs
      modifies this, pending
      ensures Valid()
      ensures TakenIn(old(pending.waiting), old(queue), old(txs), pending.waiting, queue, txs, tx, stateNonce, evicted,
                       old(pending.size) + 1 >= pending.limit, |old(queue)| > queueLimit)
      ensures ok <==> tx.hash in txs
    {
      ghost var w := pending.waiting;
      ghost var full := pending.size + 1 >= pending.limit;
      var added;
      added, evicted := pending.Push(tx, stateNonce);
      if added {
        PushedMoves(w, pending.waiting, tx, evicted, full);
        PushKeepsPool(w, pending.waiting, queue, txs, tx, evicted);
      } else {
        ok, evicted := AddToQueue(tx);
        if !ok { return; }
      }
      ok := evicted.None? || evicted.value.hash != tx.hash;
      txs := txs[tx.hash := tx] - HashSet(evicted);
    }

    /** Offers a transaction to the pool; one that is known or outside the nonce window changes nothing. The push
        reports success exactly if the pool holds the transaction afterwards. */
    method Push(tx: Tx, stateNonce: nat) returns (ok: bool, evicted: Option<Tx>)
      requires Valid()
      modifies this, pending
      ensures Valid()
      ensures if tx.hash in old(txs) || tx.nonce <= stateNonce || tx.nonce > stateNonce + NONCE_WINDOW then
                txs == old(txs) && queue == old(queue) && pending.waiting == old(pending.waiting)
              else
                TakenIn(old(pending.waiting), old(queue), old(txs), pending.waiting, queue, txs, tx, stateNonce, evicted,
                         old(pending.size) + 1 >= pending.limit, |old(queue)| > queueLimit)
      ensures ok <==> tx.hash in txs
    {
      if tx.hash in txs { return true, None; }
      if tx.nonce <= stateNonce || tx.nonce > stateNonce + NONCE_WINDOW { return false, None; }
      ok, evicted := PushNew(tx, stateNonce);
    }

    /** Takes a transaction out of the pool. The pending one with its source and nonce goes too, even when its hash
        differs. */
    method Remove(key: Hash)
      requires Valid()
      modifies this, pending
      ensures Valid()
      ensures key !in old(txs) ==> txs == old(txs) && queue == old(queue) && pending.waiting == old(pending.waiting)
      ensures key in old(txs) ==>
                && txs == old(txs) - {key} && queue == old(queue) - {key}
                && pending.waiting == WithoutSlot(old(pending.waiting), old(txs)[key])
    {
      if key !in txs { return; }
      var tx := txs[key];
      RemoveKeepsPool(pending.waiting, queue, txs, tx);
      KeysSize(queue - {key}, queue);
      txs := txs - {tx.hash};
      pending.Remove(tx);
      queue := queue - {tx.hash};
    }

    /** Removes the given transactions one by one. */
    method RemoveAll(keys: seq<Hash>)
      requires Valid()
      modifies this, pending
      ensures Valid()
      ensures forall h :: h in txs <==> h in old(txs) && h !in keys
      ensures forall h :: h in queue <==> h in old(queue) && h !in keys
      ensures forall h :: h in queue ==> queue[h] == old(queue)[h]
      ensures forall x {:trigger InPending(pending.waiting, x)} ::
                InPending(pending.waiting, x) ==> InPending(old(pending.waiting), x) && x.hash !in keys
    {
      var i := 0;
      while i < |keys|
        invariant 0 <= i <= |keys| && Valid()
        invariant forall h :: h in txs <==> h in old(txs) && h !in keys[..i]
        invariant forall h :: h in queue <==> h in old(queue) && h !in keys[..i]
        invariant forall h :: h in queue ==> queue[h] == old(queue)[h]
        invariant forall x {:trigger InPending(pending.waiting, x)} ::
                    InPending(pending.waiting, x) ==> InPending(old(pending.waiting), x)
      {
        assert keys[..i + 1] == keys[..i] + [keys[i]];
        if keys[i] in txs { WithoutSlotIs(pending.waiting, txs[keys[i]]); }
        assert keys[i] !in txs ==> keys[i] !in queue;
        Remove(keys[i]);
        i := i + 1;
      }
      assert keys[..i] == keys;
    }

    /** Removes every transaction whose time is up. */
    method EvictTimeout(expired: set<Hash>)
      requires Valid()
      modifies this, pending
      ensures Valid()
      ensures txs.Keys == old(txs).Keys - expired && queue.Keys == old(queue).Keys - expired
      ensures forall x {:trigger InPending(pending.waiting, x)} ::
                InPending(pending.waiting, x) ==> InPending(old(pending.waiting), x) && x.hash !in expired
    {
      var due := Listing(txs.Keys * expired);
      assert forall h :: h in queue ==> h in txs by {
        forall h | h in queue ensures h in txs { assert Held(txs, queue[h]); }
      }
      RemoveAll(due);
      forall x | InPending(pending.waiting, x) ensures x.hash !in expired {
        assert Held(txs, x);
      }
    }

    /** Promotes one queued transaction: a stale one is dropped, one that fits moves to the pending lists. */
    method PromoteOne(tx: Tx, stateNonce: nat)
      requires Valid() && Held(queue, tx)
      modifies this, pending
      ensures Valid() && txs.Keys <= old(txs).Keys
      ensures tx.nonce <= stateNonce ==> queue == old(queue) - {tx.hash} && pending.waiting == old(pending.waiting)
      ensures tx.nonce > stateNonce && !Fits(old(pending.waiting), tx, stateNonce) ==>
                queue == old(queue) && txs == old(txs) && pending.waiting == old(pending.waiting)
      ensures tx.nonce > stateNonce && Fits(old(pending.waiting), tx, stateNonce) ==>
                && queue == old(queue) - {tx.hash}
                && exists evicted, full :: Pushed(old(pending.waiting), pending.waiting, tx, evicted, full)
    {
      KeysSize(queue - {tx.hash}, queue);
      if tx.nonce <= stateNonce {
        DropKeepsPool(pending.waiting, queue, txs, tx);
        txs := txs - {tx.hash};
        queue := queue - {tx.hash};
        return;
      }
      ghost var w := pending.waiting;
      ghost var full := pending.size + 1 >= pending.limit;
      var added, evicted := pending.Push(tx, stateNonce);
      if !added { return; }
      PushedMoves(w, pending.waiting, tx, evicted, full);
      PromoteKeepsPool(w, pending.waiting, queue, txs, tx, evicted);
      assert queue - HashSet(evicted) - {tx.hash} == queue - {tx.hash};
      txs := txs - HashSet(evicted);
      queue := queue - HashSet(evicted) - {tx.hash};
    }

    /** Moves the queued transactions that fit to the pending lists, lowest nonces first; none that fits is left. */
    method PromoteQueue(nonces: Address -> nat)
      requires Valid()
      modifies this, pending
      ensures Valid() && queue.Keys <= old(queue).Keys && txs.Keys <= old(txs).Keys
      ensures forall h {:trigger queue[h]} :: h in queue ==> Unfit(pending.waiting, queue[h], nonces(queue[h].source))
    {
      assert forall h {:trigger queue[h]} :: h in queue ==> queue[h].hash == h;
      var sl := SortedQueue(queue);
      var i := 0;
      while i < |sl|
        invariant 0 <= i <= |sl| && Valid()
        invariant queue.Keys <= old(queue).Keys && txs.Keys <= old(txs).Keys
        invariant forall k {:trigger sl[k]} :: i <= k < |sl| ==> Held(queue, sl[k])
        invariant forall h {:trigger queue[h]} :: h in queue ==> queue[h] in sl
        invariant forall k {:trigger sl[k]} :: 0 <= k < i && Held(queue, sl[k]) ==>
                    Unfit(pending.waiting, sl[k], nonces(sl[k].source))
      {
        var tx := sl[i];
        ghost var w := pending.waiting;
        ghost var before := queue;
        PromoteOne(tx, nonces(tx.source));
        StillUnfit(w, pending.waiting, before, queue, sl, i, nonces);
        i := i + 1;
      }
    }
  }
}
