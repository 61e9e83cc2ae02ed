/** The chain's indexes on disk: headers by hash, hashes by height, bodies by hash and the current block,
    kept together by committing and rewinding. */
module ChainStore {

  import opened Collections

  type Hash = nat
  type TxHash = nat

  datatype Header = Header(hash: Hash, preHash: Hash, height: nat)

  datatype Block = Block(header: Header, txs: seq<TxHash>)

  datatype Indexes = Indexes(
    headers: map<Hash, Header>, heights: map<nat, Hash>, bodies: map<Hash, seq<TxHash>>, current: Hash)

  // ----- The chain that the indexes describe

  predicate Ordered(a: Block, b: Block) {
    a.header.height < b.header.height && a.header.hash != b.header.hash
  }

  /** One hash-linked chain with rising heights and distinct hashes. */
  predicate Linked(chain: seq<Block>) {
    && |chain| > 0
    && (forall i, j {:trigger Ordered(chain[i], chain[j])} :: 0 <= i < j < |chain| ==> Ordered(chain[i], chain[j]))
    && (forall i {:trigger chain[i].header.preHash} ::
          0 < i < |chain| ==> chain[i].header.preHash == chain[i - 1].header.hash)
  }

  function Hashes(chain: seq<Block>): set<Hash> {
    set i | 0 <= i < |chain| :: chain[i].header.hash
  }

  function Heights(chain: seq<Block>): set<nat> {
    set i | 0 <= i < |chain| :: chain[i].header.height
  }

  predicate Recorded(ix: Indexes, b: Block) {
    && b.header.hash in ix.headers && ix.headers[b.header.hash] == b.header
    && b.header.height in ix.heights && ix.heights[b.header.height] == b.header.hash
    && b.header.hash in ix.bodies && ix.bodies[b.header.hash] == b.txs
  }

  predicate AllRecorded(ix: Indexes, chain: seq<Block>) {
    forall i {:trigger Recorded(ix, chain[i])} :: 0 <= i < |chain| ==> Recorded(ix, chain[i])
  }

  function Last(chain: seq<Block>): Block
    requires chain != []
  {
    chain[|chain| - 1]
  }

  /** The indexes hold the blocks of the chain and nothing else. */
  predicate Describes(ix: Indexes, chain: seq<Block>) {
    && Linked(chain)
    && ix.headers.Keys == Hashes(chain) && ix.heights.Keys == Heights(chain) && ix.bodies.Keys == Hashes(chain)
    && AllRecorded(ix, chain)
    && ix.current == Last(chain).header.hash
  }

  function Appended(ix: Indexes, b: Block): Indexes {
    Indexes(ix.headers[b.header.hash := b.header], ix.heights[b.header.height := b.header.hash],
            ix.bodies[b.header.hash := b.txs], b.header.hash)
  }

  lemma KeysAppend(chain: seq<Block>, b: Block)
    ensures Hashes(chain + [b]) == Hashes(chain) + {b.header.hash}
    ensures Heights(chain + [b]) == Heights(chain) + {b.header.height}
  {
    var next := chain + [b];
    assert next[|chain|] == b;
    forall i | 0 <= i < |chain| ensures chain[i].header.hash in Hashes(next) && chain[i].header.height in Heights(next) {
      assert next[i] == chain[i];
    }
  }

  lemma InChain(chain: seq<Block>, i: nat)
    requires i < |chain|
    ensures chain[i].header.hash in Hashes(chain) && chain[i].header.height in Heights(chain)
  {
  }

  lemma LinkedAppend(chain: seq<Block>, b: Block)
    requires Linked(chain) && b.header.hash !in Hashes(chain)
    requires b.header.preHash == Last(chain).header.hash && b.header.height > Last(chain).header.height
    ensures Linked(chain + [b])
  {
    var next := chain + [b];
    forall i, j | 0 <= i < j < |next| ensures Ordered(next[i], next[j]) {
      if j < |chain| {
        assert Ordered(chain[i], chain[j]);
      } else {
        InChain(chain, i);
        if i < |chain| - 1 { assert Ordered(chain[i], chain[|chain| - 1]); }
      }
    }
  }

  lemma RecordedAppend(ix: Indexes, chain: seq<Block>, b: Block)
    requires AllRecorded(ix, chain) && b.header.hash !in ix.headers && b.header.height !in ix.heights
    ensures AllRecorded(Appended(ix, b), chain + [b])
  {
    var next, ix' := chain + [b], Appended(ix, b);
    forall i | 0 <= i < |next| ensures Recorded(ix', next[i]) {
      if i < |chain| { assert Recorded(ix, chain[i]); }
    }
  }

  lemma NewHeight(chain: seq<Block>, height: nat)
    requires Linked(chain) && height > Last(chain).header.height
    ensures height !in Heights(chain)
  {
    forall i | 0 <= i < |chain| ensures chain[i].header.height != height {
      if i < |chain| - 1 { assert Ordered(chain[i], chain[|chain| - 1]); }
    }
  }

  lemma AppendDescribes(ix: Indexes, chain: seq<Block>, b: Block)
    requires Describes(ix, chain) && b.header.hash !in ix.headers
    requires b.header.preHash == Last(chain).header.hash && b.header.height > Last(chain).header.height
    ensures Describes(Appended(ix, b), chain + [b])
  {
    LinkedAppend(chain, b);
    KeysAppend(chain, b);
    NewHeight(chain, b.header.height);
    RecordedAppend(ix, chain, b);
  }

  /** The indexes without the given blocks, with `current` as the new top. */
  function Without(ix: Indexes, hashes: set<Hash>, heights: set<nat>, current: Hash): Indexes {
    Indexes(ix.headers - hashes, ix.heights - heights, ix.bodies - hashes, current)
  }

  lemma KeysSplit(chain: seq<Block>, n: nat)
    requires n <= |chain|
    ensures Hashes(chain) == Hashes(chain[..n]) + Hashes(chain[n..])
    ensures Heights(chain) == Heights(chain[..n]) + Heights(chain[n..])
  {
    var kept, gone := chain[..n], chain[n..];
    forall i | 0 <= i < |chain|
      ensures chain[i].header.hash in Hashes(kept) + Hashes(gone) && chain[i].header.height in Heights(kept) + Heights(gone)
    {
      if i < n { InChain(kept, i); } else { InChain(gone, i - n); }
    }
  }

  lemma KeysApart(chain: seq<Block>, n: nat, i: nat)
    requires Linked(chain) && i < n <= |chain|
    ensures chain[i].header.hash !in Hashes(chain[n..]) && chain[i].header.height !in Heights(chain[n..])
  {
    var gone := chain[n..];
    forall j | 0 <= j < |gone|
      ensures gone[j].header.hash != chain[i].header.hash && gone[j].header.height != chain[i].header.height
    {
      assert Ordered(chain[i], chain[n + j]);
    }
  }

  lemma KeptKeys(chain: seq<Block>, n: nat)
    requires Linked(chain) && n <= |chain|
    ensures Hashes(chain) - Hashes(chain[n..]) == Hashes(chain[..n])
    ensures Heights(chain) - Heights(chain[n..]) == Heights(chain[..n])
  {
    KeysSplit(chain, n);
    var kept := chain[..n];
    forall i | 0 <= i < |kept|
      ensures kept[i].header.hash !in Hashes(chain[n..]) && kept[i].header.height !in Heights(chain[n..])
    {
      KeysApart(chain, n, i);
    }
  }

  lemma LinkedPrefix(chain: seq<Block>, n: nat)
    requires Linked(chain) && 0 < n <= |chain|
    ensures Linked(chain[..n])
  {
    var kept := chain[..n];
    forall i, j | 0 <= i < j < |kept| ensures Ordered(kept[i], kept[j]) {
      assert Ordered(chain[i], chain[j]);
    }
  }

  lemma RecordedRewind(ix: Indexes, chain: seq<Block>, n: nat, hashes: set<Hash>, heights: set<nat>, current: Hash)
    requires AllRecorded(ix, chain) && n <= |chain|
    requires forall i :: 0 <= i < n ==> chain[i].header.hash !in hashes && chain[i].header.height !in heights
    ensures AllRecorded(Without(ix, hashes, heights, current), chain[..n])
  {
    var kept, ix' := chain[..n], Without(ix, hashes, heights, current);
    forall i | 0 <= i < |kept| ensures Recorded(ix', kept[i]) {
      assert Recorded(ix, chain[i]);
    }
  }

  lemma RewindDescribes(ix: Indexes, chain: seq<Block>, n: nat)
    requires Describes(ix, chain) && 0 < n <= |chain|
    ensures Describes(Without(ix, Hashes(chain[n..]), Heights(chain[n..]), chain[n - 1].header.hash), chain[..n])
  {
    LinkedPrefix(chain, n);
    KeptKeys(chain, n);
    forall i | 0 <= i < n
      ensures chain[i].header.hash !in Hashes(chain[n..]) && chain[i].header.height !in Heights(chain[n..])
    {
      KeysApart(chain, n, i);
    }
    RecordedRewind(ix, chain, n, Hashes(chain[n..]), Heights(chain[n..]), chain[n - 1].header.hash);
  }

  // ----- The store in memory and on disk

  /** The transactions of the blocks from the top down to index `n`. */
  function Recovered(chain: seq<Block>, n: nat): seq<TxHash>
    requires n <= |chain|
    decreases |chain| - n
  {
    if n == |chain| then [] else Recovered(chain, n + 1) + chain[n].txs
  }

  /** The cache holds only blocks of the chain, each under its hash. */
  predicate Cached(top: map<Hash, Block>, chain: seq<Block>) {
    forall h :: h in top ==> top[h] in chain && top[h].header.hash == h
  }

  lemma SplitLast(chain: seq<Block>, n: nat)
    requires n < |chain|
    ensures Hashes(chain[n..]) == Hashes(chain[n + 1..]) + {chain[n].header.hash}
    ensures Heights(chain[n..]) == Heights(chain[n + 1..]) + {chain[n].header.height}
  {
    var rest, all := chain[n + 1..], chain[n..];
    assert all == [chain[n]] + rest;
    assert all[0] == chain[n];
    forall i | 0 <= i < |rest| ensures rest[i].header.hash in Hashes(all) && rest[i].header.height in Heights(all) {
      assert all[i + 1] == rest[i];
    }
  }

  lemma HashIndex(chain: seq<Block>, i: nat, j: nat)
    requires Linked(chain) && i < |chain| && j < |chain| && chain[i].header.hash == chain[j].header.hash
    ensures i == j
  {
    assert i < j ==> Ordered(chain[i], chain[j]);
    assert j < i ==> Ordered(chain[j], chain[i]);
  }

  lemma InTail(chain: seq<Block>, n: nat, i: nat)
    requires n <= |chain| && i < |chain|
    ensures i >= n ==> chain[i].header.hash in Hashes(chain[n..])
  {
    if i >= n { InChain(chain[n..], i - n); }
  }

  lemma CacheDrops(top: map<Hash, Block>, chain: seq<Block>, n: nat)
    requires Linked(chain) && n <= |chain| && Cached(top, chain)
    requires forall h :: h in top ==> h !in Hashes(chain[n..])
    ensures Cached(top, chain[..n])
  {
    forall h | h in top ensures top[h] in chain[..n] {
      var i :| 0 <= i < |chain| && chain[i] == top[h];
      InTail(chain, n, i);
      assert chain[..n][i] == top[h];
    }
  }

  // ----- Nearest-block queries

  predicate OnChain(h: Header, chain: seq<Block>) {
    exists i :: 0 <= i < |chain| && chain[i].header == h
  }

  /** `r` is the highest block of the chain at or below `height`. */
  predicate IsFloor(r: Option<Header>, chain: seq<Block>, height: nat) {
    match r
    case None => forall i :: 0 <= i < |chain| ==> chain[i].header.height > height
    case Some(h) =>
      && OnChain(h, chain) && h.height <= height
      && forall i :: 0 <= i < |chain| && chain[i].header.height <= height ==> chain[i].header.height <= h.height
  }

  /** `r` is the lowest block of the chain at or above `height`. */
  predicate IsCeil(r: Option<Header>, chain: seq<Block>, height: nat) {
    match r
    case None => forall i :: 0 <= i < |chain| ==> chain[i].header.height < height
    case Some(h) =>
      && OnChain(h, chain) && h.height >= height
      && forall i :: 0 <= i < |chain| && chain[i].header.height >= height ==> chain[i].header.height >= h.height
  }

  /** Positions an iterator over the sorted keys at the first key that is at least `height`. */
  method Seek(keys: seq<nat>, height: nat) returns (pos: nat)
    requires forall i, j :: 0 <= i < j < |keys| ==> keys[i] < keys[j]
    ensures pos <= |keys|
    ensures forall i :: 0 <= i < pos ==> keys[i] < height
    ensures forall i :: pos <= i < |keys| ==> keys[i] >= height
  {
    pos := 0;
    while pos < |keys| && keys[pos] < height
      invariant 0 <= pos <= |keys|
      invariant forall i :: 0 <= i < pos ==> keys[i] < height
    {
      pos := pos + 1;
    }
  }

  /** The key an iterator stands on after seeking `height` and, unless it hit that key, stepping back once. */
  method SeekFloor(keys: seq<nat>, height: nat) returns (k: Option<nat>)
    requires forall i, j :: 0 <= i < j < |keys| ==> keys[i] < keys[j]
    ensures k.None? ==> forall x :: x in keys ==> x > height
    ensures k.Some? ==> k.value in keys && k.value <= height && forall x :: x in keys && x <= height ==> x <= k.value
  {
    var pos := Seek(keys, height);
    if pos < |keys| && keys[pos] == height { return Some(keys[pos]); }
    if pos > 0 { return Some(keys[pos - 1]); }
    return None;
  }

  method SeekCeil(keys: seq<nat>, height: nat) returns (k: Option<nat>)
    requires forall i, j :: 0 <= i < j < |keys| ==> keys[i] < keys[j]
    ensures k.None? ==> forall x :: x in keys ==> x < height
    ensures k.Some? ==> k.value in keys && k.value >= height && forall x :: x in keys && x >= height ==> x >= k.value
  {
    var pos := Seek(keys, height);
    if pos < |keys| { return Some(keys[pos]); }
    return None;
  }

  method HeaderAt(ix: Indexes, height: nat, ghost chain: seq<Block>) returns (h: Header)
    requires Describes(ix, chain) && height in ix.heights
    ensures OnChain(h, chain) && h.height == height
  {
    ghost var i :| 0 <= i < |chain| && chain[i].header.height == height;
    assert Recorded(ix, chain[i]);
    return ix.headers[ix.heights[height]];
  }

  /** The nearest block at or below a height, found on the sorted height index. */
  method QueryFloor(ix: Indexes, height: nat, ghost chain: seq<Block>) returns (r: Option<Header>)
    requires Describes(ix, chain)
    ensures IsFloor(r, chain, height)
  {
    ListingSorted(ix.heights.Keys);
    var k := SeekFloor(Listing(ix.heights.Keys), height);
    assert forall i: nat :: i < |chain| ==> chain[i].header.height in Heights(chain);
    if k.None? { return None; }
    var h := HeaderAt(ix, k.value, chain);
    return Some(h);
  }

  /** The nearest block at or above a height. */
  method QueryCeil(ix: Indexes, height: nat, ghost chain: seq<Block>) returns (r: Option<Header>)
    requires Describes(ix, chain)
    ensures IsCeil(r, chain, height)
  {
    ListingSorted(ix.heights.Keys);
    var k := SeekCeil(Listing(ix.heights.Keys), height);
    assert forall i: nat :: i < |chain| ==> chain[i].header.height in Heights(chain);
    if k.None? { return None; }
    var h := HeaderAt(ix, k.value, chain);
    return Some(h);
  }

  // ----- Rewinding

  /** Walks from the top block down to the target at index `k`, reading the indexes on disk, and collects what
      must be deleted. */
  method WalkBack(ix: Indexes, latest: Header, target: Header, ghost chain: seq<Block>, ghost k: nat)
    returns (hashes: set<Hash>, heights: set<nat>, recovered: seq<TxHash>)
    requires Describes(ix, chain) && latest == Last(chain).header && k < |chain| - 1 && chain[k].header == target
    ensures hashes == Hashes(chain[k + 1..]) && heights == Heights(chain[k + 1..]) && recovered == Recovered(chain, k + 1)
  {
    hashes, heights, recovered := {}, {}, [];
    var curr := latest;
    ghost var n := |chain|;
    while curr.hash != target.hash
      invariant k < n <= |chain| && curr == chain[n - 1].header
      invariant hashes == Hashes(chain[n..]) && heights == Heights(chain[n..]) && recovered == Recovered(chain, n)
      decreases n
    {
      assert Recorded(ix, chain[n - 1]);
      SplitLast(chain, n - 1);
      hashes := hashes + {curr.hash};
      heights := heights + {curr.height};
      recovered := recovered + ix.bodies[curr.hash];
      n := n - 1;
      assert chain[n].header.preHash == chain[n - 1].header.hash;
      if curr.preHash == target.hash { break; }
      assert Recorded(ix, chain[n - 1]);
      curr := ix.headers[curr.preHash];
    }
    HashIndex(chain, k, n - 1);
  }

  class BlockStore {
    var ix: Indexes
    var latest: Header
    var topBlocks: map<Hash, Block>
    ghost var chain: seq<Block>

    ghost predicate Valid()
      reads this
    {
      Describes(ix, chain) && latest == Last(chain).header && Cached(topBlocks, chain)
    }

    constructor (genesis: Block)
      ensures Valid() && chain == [genesis]
    {
      var h := genesis.header;
      ix := Indexes(map[h.hash := h], map[h.height := h.hash], map[h.hash := genesis.txs], h.hash);
      latest := h;
      topBlocks := map[];
      chain := [genesis];
      new;
      assert chain[0] == genesis;
      assert Hashes(chain) == {h.hash} && Heights(chain) == {h.height};
    }

    /** Writes a block in one batch; when the write fails nothing changes. */
    method CommitBlock(b: Block, writes: bool) returns (ok: bool)
      requires Valid() && b.header.hash !in ix.headers
      requires b.header.preHash == latest.hash && b.header.height > latest.height
      modifies this
      ensures Valid() && ok == writes && topBlocks == old(topBlocks)
      ensures chain == if ok then old(chain) + [b] else old(chain)
    {
      if !writes { return false; }
      AppendDescribes(ix, chain, b);
      ix := Indexes(ix.headers[b.header.hash := b.header], ix.heights[b.header.height := b.header.hash],
                    ix.bodies[b.header.hash := b.txs], b.header.hash);
      latest := b.header;
      chain := chain + [b];
      return true;
    }

    /** Puts a block of the chain in the cache, which may drop any others. */
    method AddTopBlock(b: Block, dropped: set<Hash>)
      requires Valid() && b in chain
      modifies this`topBlocks
      ensures Valid() && b.header.hash in topBlocks
    {
      topBlocks := (topBlocks - dropped)[b.header.hash := b];
    }

    /** Rewinds to the block at index `k`: removes exactly the blocks above it, in one batch, and gives back
        their transactions. When the write fails the indexes stay, but the cache has dropped the blocks already. */
    method ResetTop(target: Option<Header>, ghost k: nat, writes: bool) returns (ok: bool, recovered: seq<TxHash>)
      requires Valid() && (target.Some? ==> k < |chain| && chain[k].header == target.value)
      modifies this
      ensures Valid()
      ensures ok == (target.Some? && (writes || target.value == old(latest)))
      ensures topBlocks == if target.Some? then old(topBlocks) - Hashes(old(chain)[k + 1..]) else old(topBlocks)
      ensures !ok ==> chain == old(chain) && ix == old(ix) && latest == old(latest)
      ensures ok ==> chain == old(chain)[..k + 1] && recovered == Recovered(old(chain), k + 1)
    {
      if target.None? { return false, []; }
      if target.value.hash == latest.hash {
        HashIndex(chain, k, |chain| - 1);
        assert chain[..k + 1] == chain && chain[k + 1..] == [];
        assert topBlocks == topBlocks - Hashes(chain[k + 1..]);
        return true, [];
      }
      var hashes, heights;
      hashes, heights, recovered := WalkBack(ix, latest, target.value, chain, k);
      topBlocks := topBlocks - hashes;
      if !writes { return false, []; }
      RewindDescribes(ix, chain, k + 1);
      CacheDrops(topBlocks, chain, k + 1);
      ix := Indexes(ix.headers - hashes, ix.heights - heights, ix.bodies - hashes, target.value.hash);
      latest := target.value;
      chain := chain[..k + 1];
      return true, recovered;
    }
  }
}
