/** Adding blocks: one at a time with a checkpoint test before any rewind, and a whole slice of a fork. */
module ChainAction {

  import opened ChainStore
  import opened Collections

  datatype AddResult = Succ | Failed | Existed | LessWeight

  datatype Weighing = LocalHeavier | Equal | LocalLighter

  /** What lies outside the model when a block comes in: its consensus and transaction checks, the height of
      the latest checkpoint, the comparison of weights with the top block, and whether execution and the
      database writes succeed. */
  datatype Judgement = Judgement(
    verified: bool, checkpoint: nat, weighing: Weighing, executes: bool, resets: bool, commits: bool, dropped: set<Hash>)

  /** Headers are determined by their hashes, and heights rise along previous hashes. */
  ghost predicate Genuine(h: Header, chain: seq<Block>) {
    && (forall i {:trigger chain[i]} :: 0 <= i < |chain| && chain[i].header.hash == h.hash ==> chain[i].header == h)
    && (forall i {:trigger chain[i]} ::
          0 <= i < |chain| && chain[i].header.hash == h.preHash ==> chain[i].header.height < h.height)
  }

  /** Block `p` of the chain is the parent of `h`. */
  predicate IsParent(chain: seq<Block>, p: nat, h: Header) {
    p < |chain| && chain[p].header.hash == h.preHash
  }

  lemma FindParent(ix: Indexes, chain: seq<Block>, hash: Hash) returns (p: nat)
    requires Describes(ix, chain) && hash in ix.headers
    ensures p < |chain| && chain[p].header.hash == hash && ix.headers[hash] == chain[p].header
  {
    assert hash in Hashes(chain);
    p :| p < |chain| && chain[p].header.hash == hash;
    assert Recorded(ix, chain[p]);
  }

  /** The block's parent, which is not below the checkpoint unless there is only genesis, is the top and the block
      follows it if it was added. */
  ghost predicate Placed(was: seq<Block>, now: seq<Block>, b: Block, checkpoint: nat, ret: AddResult, p: nat) {
    && IsParent(was, p, b.header) && now == was[..p + 1] + (if ret == Succ then [b] else [])
    && (was[|was| - 1].header.height == 0 || checkpoint <= was[p].header.height)
  }

  /** How a chain may change when a block comes in: nothing happens, or the block is placed on its parent. */
  ghost predicate AddedOrKept(was: seq<Block>, now: seq<Block>, b: Block, checkpoint: nat, ret: AddResult) {
    (ret != Succ && now == was) || exists p: nat :: Placed(was, now, b, checkpoint, ret, p)
  }

  /** The block may be put on its parent `p`: the local chain is not heavier and, once there is more than genesis,
      the block is verified and its parent is not below the checkpoint. */
  predicate Admissible(was: seq<Block>, p: nat, b: Block, j: Judgement) {
    && IsParent(was, p, b.header) && j.weighing != LocalHeavier
    && (was[|was| - 1].header.height == 0 || (j.verified && j.checkpoint <= was[p].header.height))
  }

  /** The parent is the top already, or the local chain is lighter and can be rewound. */
  predicate Reached(was: seq<Block>, p: nat, j: Judgement) {
    p == |was| - 1 || (j.weighing == LocalLighter && j.resets)
  }

  /** The answer to a block and the chain after it. A held block and one without an admissible place change nothing;
      otherwise the chain ends at the parent if that can be reached, and the block follows if it executes and
      commits. */
  ghost predicate Answered(was: seq<Block>, now: seq<Block>, b: Block, j: Judgement, ret: AddResult) {
    if b.header.hash in Hashes(was) then ret == Existed && now == was
    else if !exists p: nat :: Admissible(was, p, b, j) then ret == Failed && now == was
    else exists p: nat :: Admissible(was, p, b, j) && Settled(was, now, b, j, ret, p)
  }

  ghost predicate Settled(was: seq<Block>, now: seq<Block>, b: Block, j: Judgement, ret: AddResult, p: nat) {
    p < |was| &&
    if !Reached(was, p, j) then now == was && ret == (if j.weighing == Equal then Existed else Failed)
    else if j.executes && j.commits then now == was[..p + 1] + [b] && ret == Succ
    else now == was[..p + 1] && ret == Failed
  }

  /** Executes and commits a block on top of its parent. */
  method TransitAndCommit(store: BlockStore, b: Block, j: Judgement) returns (ok: bool)
    requires store.Valid() && b.header.hash !in store.ix.headers
    requires b.header.preHash == store.latest.hash && b.header.height > store.latest.height
    modifies store
    ensures store.Valid() && ok == (j.executes && j.commits)
    ensures store.chain == if ok then old(store.chain) + [b] else old(store.chain)
  {
    if !j.executes { return false; }
    ok := store.CommitBlock(b, j.commits);
  }

  /** The tests made before the chain is touched. */
  method ValidateBlock(store: BlockStore, b: Block, j: Judgement) returns (ok: bool)
    requires store.Valid()
    ensures ok <==> b.header.preHash in store.ix.headers && j.weighing != LocalHeavier
                    && (store.latest.height == 0
                        || (j.verified && j.checkpoint <= store.ix.headers[b.header.preHash].height))
  {
    if b.header.preHash !in store.ix.headers { return false; }
    if j.weighing == LocalHeavier { return false; }
    if store.latest.height == 0 { return true; }
    var pre := store.ix.headers[b.header.preHash];
    if pre.height < j.checkpoint { return false; }
    return j.verified;
  }

  /** Makes the parent of a block the top, or says why not. */
  method RewindToParent(store: BlockStore, b: Block, j: Judgement, ghost p: nat) returns (stop: Option<AddResult>)
    requires store.Valid() && IsParent(store.chain, p, b.header) && b.header.preHash in store.ix.headers
    requires store.ix.headers[b.header.preHash] == store.chain[p].header
    modifies store
    ensures store.Valid() && (stop.Some? ==> stop.value != Succ && store.chain == old(store.chain))
    ensures stop.None? ==> store.chain == old(store.chain)[..p + 1] && store.latest == old(store.chain)[p].header
    ensures stop.None? <==> Reached(old(store.chain), p, j)
    ensures stop.Some? ==> stop.value == match j.weighing
                                         case LocalHeavier => LessWeight
                                         case Equal => Existed
                                         case LocalLighter => Failed
  {
    if b.header.preHash == store.latest.hash {
      HashIndex(store.chain, p, |store.chain| - 1);
      assert store.chain[..p + 1] == store.chain;
      return None;
    }
    if j.weighing == LocalHeavier { return Some(LessWeight); }
    if j.weighing == Equal { return Some(Existed); }
    var newTop := store.ix.headers[b.header.preHash];
    var reset, _ := store.ResetTop(Some(newTop), p, j.resets);
    if !reset { return Some(Failed); }
    return None;
  }

  lemma StillNew(ix: Indexes, chain: seq<Block>, hash: Hash, ix': Indexes, n: nat)
    requires Describes(ix, chain) && n <= |chain| && Describes(ix', chain[..n]) && hash !in ix.headers
    ensures hash !in ix'.headers
  {
    KeysSplit(chain, n);
  }

  /** Puts a block on its parent, rewinding to it if need be. */
  method PlaceBlock(store: BlockStore, b: Block, j: Judgement, ghost p: nat) returns (ret: AddResult)
    requires store.Valid() && IsParent(store.chain, p, b.header) && b.header.preHash in store.ix.headers
    requires store.ix.headers[b.header.preHash] == store.chain[p].header
    requires b.header.hash !in store.ix.headers && store.chain[p].header.height < b.header.height
    modifies store
    ensures store.Valid()
    ensures store.chain == old(store.chain)[..p + 1] + (if ret == Succ then [b] else [])
            || (ret != Succ && store.chain == old(store.chain))
    ensures j.weighing != LocalHeavier ==> Settled(old(store.chain), store.chain, b, j, ret, p)
  {
    ghost var was, ix := store.chain, store.ix;
    var stop := RewindToParent(store, b, j, p);
    if stop.Some? { return stop.value; }
    StillNew(ix, was, b.header.hash, store.ix, p + 1);
    var ok := TransitAndCommit(store, b, j);
    if !ok { return Failed; }
    store.AddTopBlock(b, j.dropped);
    return Succ;
  }

  lemma AdmissibleIs(ix: Indexes, chain: seq<Block>, b: Block, j: Judgement, valid: bool)
    requires Describes(ix, chain)
    requires valid <==> b.header.preHash in ix.headers && j.weighing != LocalHeavier
                        && (Last(chain).header.height == 0
                            || (j.verified && j.checkpoint <= ix.headers[b.header.preHash].height))
    ensures valid ==> forall p: nat :: IsParent(chain, p, b.header) ==> Admissible(chain, p, b, j)
    ensures !valid ==> forall p: nat :: !Admissible(chain, p, b, j)
  {
    forall p: nat | IsParent(chain, p, b.header) ensures Admissible(chain, p, b, j) <==> valid {
      InChain(chain, p);
      assert Recorded(ix, chain[p]);
    }
  }

  /** When a block is added: exactly when it is new, has an admissible parent that can be reached, and executes and
      commits. */
  lemma AddedExactly(was: seq<Block>, now: seq<Block>, b: Block, j: Judgement, ret: AddResult)
    requires Linked(was) && Answered(was, now, b, j, ret)
    ensures ret == Succ <==> b.header.hash !in Hashes(was) && j.executes && j.commits
                             && exists p: nat :: Admissible(was, p, b, j) && Reached(was, p, j)
    ensures j.weighing == LocalHeavier ==> now == was
    ensures j.weighing == Equal && b.header.preHash != Last(was).header.hash ==> now == was
    ensures ret == Succ ==> exists p: nat :: IsParent(was, p, b.header) && now == was[..p + 1] + [b]
  {
    forall p: nat, q: nat | Admissible(was, p, b, j) && Admissible(was, q, b, j) ensures p == q { HashIndex(was, p, q); }
  }

  /** Adds a block. A rewind never goes below the checkpoint that the block was checked against. */
  method AddBlockOnChain(store: BlockStore, b: Block, j: Judgement) returns (ret: AddResult)
    requires store.Valid() && Genuine(b.header, store.chain)
    modifies store
    ensures store.Valid() && AddedOrKept(old(store.chain), store.chain, b, j.checkpoint, ret)
    ensures Answered(old(store.chain), store.chain, b, j, ret)
  {
    if b.header.hash in store.ix.headers { return Existed; }
    var valid := ValidateBlock(store, b, j);
    AdmissibleIs(store.ix, store.chain, b, j, valid);
    if !valid { return Failed; }
    ghost var p := FindParent(store.ix, store.chain, b.header.preHash);
    ret := PlaceBlock(store, b, j, p);
    assert store.chain == old(store.chain) || Placed(old(store.chain), store.chain, b, j.checkpoint, ret, p);
  }

  // ----- A slice of a fork

  /** Each block's previous hash is the hash of the block before it. */
  predicate Chained(blocks: seq<Block>) {
    forall i {:trigger blocks[i].header.preHash} ::
      0 < i < |blocks| ==> blocks[i].header.preHash == blocks[i - 1].header.hash
  }

  method EnsureChained(blocks: seq<Block>) returns (ok: bool)
    ensures ok <==> Chained(blocks)
  {
    var i := 1;
    while i < |blocks|
      invariant 1 <= i
      invariant forall k {:trigger blocks[k].header.preHash} ::
                  0 < k < |blocks| && k < i ==> blocks[k].header.preHash == blocks[k - 1].header.hash
    {
      if blocks[i].header.preHash != blocks[i - 1].header.hash { return false; }
      i := i + 1;
    }
    return true;
  }

  /** The first block that is not held yet; all blocks before it are. */
  method FirstMissing(store: BlockStore, blocks: seq<Block>) returns (i: nat)
    ensures i <= |blocks| && (i < |blocks| ==> blocks[i].header.hash !in store.ix.headers)
    ensures forall k :: 0 <= k < i ==> blocks[k].header.hash in store.ix.headers
  {
    i := 0;
    while i < |blocks| && blocks[i].header.hash in store.ix.headers
      invariant 0 <= i <= |blocks|
      invariant forall k :: 0 <= k < i ==> blocks[k].header.hash in store.ix.headers
    {
      i := i + 1;
    }
  }

  predicate SameHash(b: Block, b': Block) { b.header.hash == b'.header.hash }

  /** No block of `blocks` has a hash of the chain's first `n` blocks. */
  ghost predicate NoneOf(blocks: seq<Block>, chain: seq<Block>, n: nat)
    requires n <= |chain|
  {
    forall k, q {:trigger SameHash(blocks[k], chain[q])} ::
      0 <= k < |blocks| && 0 <= q < n ==> !SameHash(blocks[k], chain[q])
  }

  ghost predicate AllGenuine(blocks: seq<Block>, chain: seq<Block>) {
    && (forall k {:trigger Genuine(blocks[k].header, chain)} :: 0 <= k < |blocks| ==> Genuine(blocks[k].header, chain))
    && (forall k, l {:trigger SameHash(blocks[k], blocks[l])} ::
          0 <= k < |blocks| && 0 <= l < |blocks| && SameHash(blocks[k], blocks[l]) ==>
            blocks[k].header == blocks[l].header)
    && RisingHeights(blocks)
  }

  predicate RisingHeights(blocks: seq<Block>) {
    forall k {:trigger blocks[k].header.preHash} ::
      0 < k < |blocks| ==> blocks[k].header.height > blocks[k - 1].header.height
  }

  /** When the first block of a chained slice is missing, so are all others. */
  lemma {:induction false} MissingStays(blocks: seq<Block>, chain: seq<Block>, k: nat, q: nat)
    requires Linked(chain) && chain[0].header.height == 0
    requires Chained(blocks) && AllGenuine(blocks, chain) && k < |blocks| && q < |chain|
    requires forall i :: 0 <= i < |chain| ==> chain[i].header.hash != blocks[0].header.hash
    ensures blocks[k].header.hash != chain[q].header.hash
    decreases k
  {
    if k > 0 && blocks[k].header.hash == chain[q].header.hash {
      assert Genuine(blocks[k].header, chain);
      assert blocks[k].header.preHash == blocks[k - 1].header.hash;
      if q > 0 {
        assert chain[q].header.preHash == chain[q - 1].header.hash;
        MissingStays(blocks, chain, k - 1, q - 1);
      }
    }
  }

  lemma {:induction false} HeightsRise(blocks: seq<Block>, k: nat)
    requires k < |blocks| && RisingHeights(blocks)
    ensures blocks[0].header.height <= blocks[k].header.height
    decreases k
  {
    if k > 0 {
      var parent := blocks[k].header.preHash;
      HeightsRise(blocks, k - 1);
    }
  }

  lemma TailChained(blocks: seq<Block>, i: nat)
    requires i <= |blocks| && Chained(blocks) && RisingHeights(blocks)
    ensures Chained(blocks[i..]) && RisingHeights(blocks[i..])
  {
    var tail := blocks[i..];
    forall k | 0 < k < |tail|
      ensures tail[k].header.height > tail[k - 1].header.height && tail[k].header.preHash == tail[k - 1].header.hash
    {
      assert blocks[i + k].header.preHash == tail[k].header.preHash;
    }
  }

  lemma TailGenuine(blocks: seq<Block>, chain: seq<Block>, i: nat)
    requires i <= |blocks| && AllGenuine(blocks, chain) && Chained(blocks)
    ensures AllGenuine(blocks[i..], chain) && Chained(blocks[i..])
  {
    var tail := blocks[i..];
    TailChained(blocks, i);
    forall k | 0 <= k < |tail| ensures Genuine(tail[k].header, chain) {
      assert Genuine(blocks[i + k].header, chain);
    }
    forall k, l | 0 <= k < |tail| && 0 <= l < |tail| && SameHash(tail[k], tail[l]) ensures tail[k].header == tail[l].header {
      assert SameHash(blocks[i + k], blocks[i + l]);
    }
  }

  /** The parent of the first missing block is never below the parent of the whole slice. */
  lemma MissingAboveAncestor(blocks: seq<Block>, chain: seq<Block>, a: nat, i: nat, p: nat)
    requires Linked(chain) && Chained(blocks) && AllGenuine(blocks, chain) && i < |blocks|
    requires IsParent(chain, a, blocks[0].header) && IsParent(chain, p, blocks[i].header)
    ensures a <= p
  {
    if i == 0 {
      HashIndex(chain, a, p);
    } else {
      assert blocks[i].header.preHash == blocks[i - 1].header.hash;
      assert Genuine(blocks[i - 1].header, chain) && Genuine(blocks[0].header, chain);
      HeightsRise(blocks, i - 1);
      assert p < a ==> Ordered(chain[p], chain[a]);
    }
  }

  /** While a slice is added: the first `n` blocks of `was`, then the first `c` blocks of the slice. */
  ghost predicate Growing(was: seq<Block>, now: seq<Block>, n: nat, blocks: seq<Block>, c: nat) {
    0 < n <= |was| && c <= |blocks| && now == was[..n] + blocks[..c]
  }

  lemma GenuineNext(was: seq<Block>, now: seq<Block>, n: nat, blocks: seq<Block>, c: nat, m: nat)
    requires Chained(blocks) && AllGenuine(blocks, was) && c <= m < |blocks| && Growing(was, now, n, blocks, c)
    ensures Genuine(blocks[m].header, now)
  {
    var h := blocks[m].header;
    assert Genuine(h, was);
    forall i | 0 <= i < |now|
      ensures now[i].header.hash == h.hash ==> now[i].header == h
      ensures now[i].header.hash == h.preHash ==> now[i].header.height < h.height
    {
      if i < n {
        assert now[i] == was[i];
      } else {
        assert now[i] == blocks[i - n];
        assert blocks[m].header.preHash == blocks[m - 1].header.hash;
        assert SameHash(blocks[i - n], blocks[m]) ==> now[i].header == h;
        assert SameHash(blocks[i - n], blocks[m - 1]) ==> now[i].header == blocks[m - 1].header;
      }
    }
  }

  lemma {:induction false} BlocksDiffer(blocks: seq<Block>, k: nat, l: nat)
    requires RisingHeights(blocks) && k < l < |blocks|
    ensures blocks[k].header.height < blocks[l].header.height
    decreases l
  {
    var parent := blocks[l].header.preHash;
    if k < l - 1 { BlocksDiffer(blocks, k, l - 1); }
  }

  /** Only a block whose parent is the top can be added. */
  lemma ParentIsTop(was: seq<Block>, now: seq<Block>, n: nat, blocks: seq<Block>, c: nat, m: nat, p: nat)
    requires Linked(now) && Chained(blocks) && AllGenuine(blocks, was) && c <= m < |blocks| && Growing(was, now, n, blocks, c)
    requires blocks[0].header.preHash == was[n - 1].header.hash && NoneOf(blocks, was, n)
    requires IsParent(now, p, blocks[m].header)
    ensures c == m && p == |now| - 1
  {
    assert m > 0 ==> blocks[m].header.preHash == blocks[m - 1].header.hash;
    assert p < n ==> now[p] == was[p];
    assert m > 0 && p < n ==> !SameHash(blocks[m - 1], was[p]);
    if m == 0 {
      assert now[n - 1] == was[n - 1];
      HashIndex(now, p, n - 1);
    } else if p >= n {
      assert now[p] == blocks[p - n] && SameHash(blocks[p - n], blocks[m - 1]);
      if p - n < m - 1 { BlocksDiffer(blocks, p - n, m - 1); }
    }
  }

  /** Adding the next block of the slice either extends the chain by it or changes nothing. */
  lemma GrowNext(
      was: seq<Block>, now: seq<Block>, next: seq<Block>, n: nat, blocks: seq<Block>, c: nat, m: nat, cp: nat, ret: AddResult)
    requires Linked(now) && Chained(blocks) && AllGenuine(blocks, was) && c <= m < |blocks| && Growing(was, now, n, blocks, c)
    requires blocks[0].header.preHash == was[n - 1].header.hash && NoneOf(blocks, was, n)
    requires AddedOrKept(now, next, blocks[m], cp, ret)
    ensures Growing(was, next, n, blocks, c) || (c == m && Growing(was, next, n, blocks, m + 1))
  {
    if next != now {
      var p: nat :| Placed(now, next, blocks[m], cp, ret, p);
      ParentIsTop(was, now, n, blocks, c, m, p);
      GrowOne(was, now, next, n, blocks, m, ret == Succ);
    }
  }

  lemma GrowOne(was: seq<Block>, now: seq<Block>, next: seq<Block>, n: nat, blocks: seq<Block>, m: nat, added: bool)
    requires m < |blocks| && Growing(was, now, n, blocks, m)
    requires next == now[..|now|] + if added then [blocks[m]] else []
    ensures Growing(was, next, n, blocks, if added then m + 1 else m)
  {
    assert blocks[..m + 1] == blocks[..m] + [blocks[m]];
    assert now[..|now|] == now;
  }

  /** The next block after the top `top` is added. */
  predicate Willing(j: Judgement, top: Header) {
    && j.weighing != LocalHeavier && (top.height == 0 || (j.verified && j.checkpoint <= top.height))
    && j.executes && j.commits
  }

  function TopBefore(top: Header, blocks: seq<Block>, k: nat): Header
    requires k <= |blocks|
  {
    if k == 0 then top else blocks[k - 1].header
  }

  predicate WillingAt(top: Header, blocks: seq<Block>, judge: Hash -> Judgement, k: nat)
    requires k < |blocks|
  {
    Willing(judge(blocks[k].header.hash), TopBefore(top, blocks, k))
  }

  /** The first `c` blocks are added, and the next one is not because it is refused or because the caller stops after
      a success. */
  ghost predicate AddedUpTo(top: Header, blocks: seq<Block>, judge: Hash -> Judgement, proceed: AddResult -> bool, c: nat) {
    && c <= |blocks| && (forall k :: 0 <= k < c ==> WillingAt(top, blocks, judge, k))
    && (c < |blocks| ==> !WillingAt(top, blocks, judge, c) || (c > 0 && !proceed(Succ)))
  }

  lemma OnTop(now: seq<Block>, next: seq<Block>, b: Block, j: Judgement, ret: AddResult)
    requires Linked(now) && Answered(now, next, b, j, ret)
    requires b.header.hash !in Hashes(now) && b.header.preHash == Last(now).header.hash
    ensures ret == Succ <==> Willing(j, Last(now).header)
    ensures next == if ret == Succ then now + [b] else now
  {
    forall p: nat | IsParent(now, p, b.header) ensures p == |now| - 1 { HashIndex(now, p, |now| - 1); }
    assert now[..|now|] == now;
    if Willing(j, Last(now).header) { assert Admissible(now, |now| - 1, b, j); }
  }

  lemma NotYetHeld(was: seq<Block>, now: seq<Block>, n: nat, blocks: seq<Block>, m: nat)
    requires AllGenuine(blocks, was) && m < |blocks| && Growing(was, now, n, blocks, m) && NoneOf(blocks, was, n)
    ensures blocks[m].header.hash !in Hashes(now)
  {
    forall i | 0 <= i < |now| ensures now[i].header.hash != blocks[m].header.hash {
      if i < n {
        assert !SameHash(blocks[m], was[i]);
      } else {
        BlocksDiffer(blocks, i - n, m);
        assert !SameHash(blocks[i - n], blocks[m]);
      }
    }
  }

  /** Offering the next block on top adds it exactly when it is willing. */
  lemma GrowExactly(
      was: seq<Block>, now: seq<Block>, next: seq<Block>, n: nat, blocks: seq<Block>, m: nat, j: Judgement, ret: AddResult)
    requires Linked(now) && Chained(blocks) && AllGenuine(blocks, was) && m < |blocks| && Growing(was, now, n, blocks, m)
    requires blocks[0].header.preHash == was[n - 1].header.hash && NoneOf(blocks, was, n)
    requires Answered(now, next, blocks[m], j, ret)
    ensures ret == Succ <==> Willing(j, TopBefore(was[n - 1].header, blocks, m))
    ensures ret == Succ <==> !Growing(was, next, n, blocks, m)
  {
    NotYetHeld(was, now, n, blocks, m);
    assert Last(now).header == TopBefore(was[n - 1].header, blocks, m);
    if m > 0 { assert blocks[m].header.preHash == blocks[m - 1].header.hash; }
    OnTop(now, next, blocks[m], j, ret);
  }

  /** The first `c` of the `m` blocks offered so far were added, and the next of them was refused. */
  ghost predicate Offered(top: Header, blocks: seq<Block>, judge: Hash -> Judgement, c: nat, m: nat) {
    && c <= m <= |blocks| && (forall k :: 0 <= k < c ==> WillingAt(top, blocks, judge, k))
    && (c < m ==> !WillingAt(top, blocks, judge, c))
  }

  lemma OfferedNext(
      was: seq<Block>, now: seq<Block>, next: seq<Block>, n: nat, blocks: seq<Block>, c: nat, m: nat, judge: Hash -> Judgement,
      ret: AddResult)
    returns (c': nat)
    requires Linked(now) && Chained(blocks) && AllGenuine(blocks, was) && c <= m < |blocks|
    requires Growing(was, now, n, blocks, c) && NoneOf(blocks, was, n)
    requires blocks[0].header.preHash == was[n - 1].header.hash && Offered(was[n - 1].header, blocks, judge, c, m)
    requires AddedOrKept(now, next, blocks[m], judge(blocks[m].header.hash).checkpoint, ret)
    requires Answered(now, next, blocks[m], judge(blocks[m].header.hash), ret)
    ensures Growing(was, next, n, blocks, c')
    ensures Offered(was[n - 1].header, blocks, judge, c', m + 1) && ((ret == Succ && c' == m + 1) || c' <= m)
  {
    GrowNext(was, now, next, n, blocks, c, m, judge(blocks[m].header.hash).checkpoint, ret);
    c' := c;
    if c == m {
      GrowExactly(was, now, next, n, blocks, m, judge(blocks[m].header.hash), ret);
      if ret == Succ { c' := m + 1; }
    }
  }

  /** Offers the next block of a slice. */
  method OfferOne(
      store: BlockStore, blocks: seq<Block>, m: nat, judge: Hash -> Judgement, ghost was: seq<Block>, ghost n: nat, ghost c: nat)
    returns (ret: AddResult, ghost c': nat)
    requires store.Valid() && Chained(blocks) && AllGenuine(blocks, was) && c <= m < |blocks|
    requires Growing(was, store.chain, n, blocks, c) && NoneOf(blocks, was, n)
    requires blocks[0].header.preHash == was[n - 1].header.hash && Offered(was[n - 1].header, blocks, judge, c, m)
    modifies store
    ensures store.Valid() && Growing(was, store.chain, n, blocks, c')
    ensures Offered(was[n - 1].header, blocks, judge, c', m + 1) && ((ret == Succ && c' == m + 1) || c' <= m)
  {
    GenuineNext(was, store.chain, n, blocks, c, m);
    ghost var now := store.chain;
    var j := judge(blocks[m].header.hash);
    ret := AddBlockOnChain(store, blocks[m], j);
    c' := OfferedNext(was, now, store.chain, n, blocks, c, m, judge, ret);
  }

  /** Offers the blocks of a slice one by one; what the chain gains is the longest initial part that is willing. */
  method AddChainSlice(
      store: BlockStore, blocks: seq<Block>, judge: Hash -> Judgement, proceed: AddResult -> bool, ghost was: seq<Block>)
    returns (ghost c: nat)
    requires store.Valid() && blocks != [] && Chained(blocks) && AllGenuine(blocks, was)
    requires |store.chain| <= |was| && store.chain == was[..|store.chain|] && NoneOf(blocks, was, |store.chain|)
    requires blocks[0].header.preHash == store.latest.hash
    modifies store
    ensures store.Valid() && Growing(was, store.chain, old(|store.chain|), blocks, c)
    ensures AddedUpTo(old(store.latest), blocks, judge, proceed, c)
  {
    ghost var n := |store.chain|;
    assert store.latest == was[n - 1].header;
    c := 0;
    assert was[..n] + blocks[..0] == was[..n];
    var m := 0;
    while m < |blocks|
      invariant store.Valid() && Growing(was, store.chain, n, blocks, c)
      invariant Offered(was[n - 1].header, blocks, judge, c, m)
    {
      var ret;
      ret, c := OfferOne(store, blocks, m, judge, was, n, c);
      m := m + 1;
      if !proceed(ret) { break; }
    }
  }

  lemma NoneHeld(ix: Indexes, blocks: seq<Block>, chain: seq<Block>, n: nat)
    requires Describes(ix, chain) && chain[0].header.height == 0 && n <= |chain|
    requires blocks != [] && blocks[0].header.hash !in ix.headers && Chained(blocks) && AllGenuine(blocks, chain)
    ensures NoneOf(blocks, chain, n)
  {
    forall i | 0 <= i < |chain| ensures chain[i].header.hash != blocks[0].header.hash { InChain(chain, i); }
    forall k, q | 0 <= k < |blocks| && 0 <= q < n ensures !SameHash(blocks[k], chain[q]) {
      MissingStays(blocks, chain, k, q);
    }
  }

  /** Rewinds to the parent of the first missing block, if that is allowed and needed. */
  method ReachParent(store: BlockStore, first: Block, canReset: bool, resets: bool) returns (ok: bool, ghost p: nat)
    requires store.Valid()
    modifies store
    ensures store.Valid() && (!ok ==> store.chain == old(store.chain))
    ensures ok ==> IsParent(old(store.chain), p, first.header) && store.chain == old(store.chain)[..p + 1]
    ensures ok ==> p == |old(store.chain)| - 1 || (canReset && resets)
    ensures ok ==> first.header.preHash == store.latest.hash
    ensures ok <==> first.header.preHash == old(store.latest).hash
                    || (canReset && resets && first.header.preHash in old(store.ix).headers)
  {
    if first.header.preHash == store.latest.hash {
      assert store.chain[..|store.chain|] == store.chain;
      return true, |store.chain| - 1;
    }
    if !canReset || first.header.preHash !in store.ix.headers { return false, 0; }
    p := FindParent(store.ix, store.chain, first.header.preHash);
    var pre := store.ix.headers[first.header.preHash];
    var done, _ := store.ResetTop(Some(pre), p, resets);
    ok := done;
  }

  /** The chain is as before, or it now is its part up to the parent of the slice's first missing block
      followed by a stretch of the slice from that block on. */
  ghost predicate SliceAdded(was: seq<Block>, now: seq<Block>, raw: seq<Block>, p: nat, from: nat, to: nat) {
    || now == was
    || (from <= to <= |raw| && from < |raw| && IsParent(was, p, raw[from].header)
        && (forall q :: 0 <= q < |was| ==> was[q].header.hash != raw[from].header.hash)
        && now == was[..p + 1] + raw[from..to])
  }

  /** Exactly what comes of a batch: nothing if it is not chained, all held, or its first missing block `from` has no
      parent that can be reached; otherwise the chain is cut at that parent and gains the willing blocks. */
  ghost predicate Batched(
      was: seq<Block>, now: seq<Block>, canReset: bool, resets: bool, raw: seq<Block>, judge: Hash -> Judgement,
      proceed: AddResult -> bool, p: nat, from: nat, to: nat)
  {
    if !Chained(raw) || (forall k :: 0 <= k < |raw| ==> raw[k].header.hash in Hashes(was)) then now == was
    else
      && from < |raw| && raw[from].header.hash !in Hashes(was)
      && (forall k :: 0 <= k < from ==> raw[k].header.hash in Hashes(was))
      && if IsParent(was, p, raw[from].header) && (p == |was| - 1 || (canReset && resets)) then
           from <= to <= |raw| && now == was[..p + 1] + raw[from..to]
           && AddedUpTo(was[p].header, raw[from..], judge, proceed, to - from)
         else now == was && forall q: nat :: IsParent(was, q, raw[from].header) ==> q < |was| - 1 && !(canReset && resets)
  }

  lemma NoWay(ix: Indexes, was: seq<Block>, h: Header, canReset: bool, resets: bool)
    requires Describes(ix, was)
    requires h.preHash != Last(was).header.hash && !(canReset && resets && h.preHash in ix.headers)
    ensures forall q: nat :: IsParent(was, q, h) ==> q < |was| - 1 && !(canReset && resets)
  {
    forall q: nat | IsParent(was, q, h) ensures q < |was| - 1 && !(canReset && resets) { InChain(was, q); }
  }

  /** `i` is the first block of the slice that is not on the chain. */
  ghost predicate FirstNew(was: seq<Block>, raw: seq<Block>, i: nat) {
    && i < |raw| && raw[i].header.hash !in Hashes(was) && (forall k :: 0 <= k < i ==> raw[k].header.hash in Hashes(was))
  }

  lemma BatchDone(
      was: seq<Block>, now: seq<Block>, canReset: bool, resets: bool, raw: seq<Block>, judge: Hash -> Judgement,
      proceed: AddResult -> bool, p: nat, i: nat, c: nat)
    requires Chained(raw) && FirstNew(was, raw, i) && IsParent(was, p, raw[i].header)
    requires p == |was| - 1 || (canReset && resets)
    requires Growing(was, now, p + 1, raw[i..], c) && AddedUpTo(was[p].header, raw[i..], judge, proceed, c)
    ensures Batched(was, now, canReset, resets, raw, judge, proceed, p, i, i + c)
    ensures SliceAdded(was, now, raw, p, i, i + c)
  {
    assert raw[i..][..c] == raw[i..i + c];
    forall q | 0 <= q < |was| ensures was[q].header.hash != raw[i].header.hash { InChain(was, q); }
  }

  lemma BatchIdle(
      ix: Indexes, was: seq<Block>, canReset: bool, resets: bool, raw: seq<Block>, judge: Hash -> Judgement,
      proceed: AddResult -> bool, i: nat)
    requires Describes(ix, was) && Chained(raw) && FirstNew(was, raw, i)
    requires raw[i].header.preHash != Last(was).header.hash && !(canReset && resets && raw[i].header.preHash in ix.headers)
    ensures Batched(was, was, canReset, resets, raw, judge, proceed, |was|, i, 0)
    ensures SliceAdded(was, was, raw, |was|, i, 0)
  {
    NoWay(ix, was, raw[i].header, canReset, resets);
  }

  /** Adds a slice from its first missing block on. */
  method AddMissing(
      store: BlockStore, canReset: bool, raw: seq<Block>, i: nat, resets: bool, judge: Hash -> Judgement,
      proceed: AddResult -> bool)
    returns (ghost p: nat, ghost to: nat)
    requires store.Valid() && store.chain[0].header.height == 0 && AllGenuine(raw, store.chain)
    requires Chained(raw) && FirstNew(store.chain, raw, i)
    modifies store
    ensures store.Valid() && SliceAdded(old(store.chain), store.chain, raw, p, i, to)
    ensures Batched(old(store.chain), store.chain, canReset, resets, raw, judge, proceed, p, i, to)
  {
    ghost var was, ix := store.chain, store.ix;
    var add := raw[i..];
    TailGenuine(raw, was, i);
    var ok;
    ok, p := ReachParent(store, add[0], canReset, resets);
    if !ok {
      BatchIdle(ix, was, canReset, resets, raw, judge, proceed, i);
      return |was|, 0;
    }
    NoneHeld(ix, add, was, |was|);
    ghost var c := AddChainSlice(store, add, judge, proceed, was);
    to := i + c;
    BatchDone(was, store.chain, canReset, resets, raw, judge, proceed, p, i, c);
  }

  /** Adds the blocks of a chained slice, skipping those already held. */
  method BatchAddBlocks(
      store: BlockStore, canReset: bool, raw: seq<Block>, resets: bool, judge: Hash -> Judgement, proceed: AddResult -> bool)
    returns (ghost p: nat, ghost from: nat, ghost to: nat)
    requires store.Valid() && store.chain[0].header.height == 0 && AllGenuine(raw, store.chain)
    modifies store
    ensures store.Valid() && SliceAdded(old(store.chain), store.chain, raw, p, from, to)
    ensures Batched(old(store.chain), store.chain, canReset, resets, raw, judge, proceed, p, from, to)
  {
    p, from, to := 0, 0, 0;
    var chained := EnsureChained(raw);
    if !chained { return; }
    var i := FirstMissing(store, raw);
    if i == |raw| { return; }
    from := i;
    p, to := AddMissing(store, canReset, raw, i, resets, judge, proceed);
  }

  /** Whatever becomes of the slice, the chain up to the block that the slice hangs on stays. */
  lemma AncestorStays(was: seq<Block>, now: seq<Block>, raw: seq<Block>, p: nat, from: nat, to: nat, a: nat)
    requires Linked(was) && Chained(raw) && AllGenuine(raw, was) && SliceAdded(was, now, raw, p, from, to)
    requires raw != [] && IsParent(was, a, raw[0].header)
    ensures was[..a + 1] <= now
  {
    if now != was {
      MissingAboveAncestor(raw, was, a, from, p);
      assert was[..a + 1] == was[..p + 1][..a + 1];
    }
  }

  /** When the block that stays is not below a checkpoint, no block up to the checkpoint is lost. */
  lemma NothingBelowLost(was: seq<Block>, now: seq<Block>, a: nat, checkpoint: nat, i: nat)
    requires Linked(was) && a < |was| && was[..a + 1] <= now && checkpoint <= was[a].header.height
    requires i < |was| && was[i].header.height <= checkpoint
    ensures i < |now| && now[i] == was[i]
  {
    assert a < i ==> Ordered(was[a], was[i]);
    assert was[..a + 1][i] == was[i];
  }
}
