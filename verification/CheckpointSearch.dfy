/** The checkpoint computations as the program runs them, and how their results relate. */
module CheckpointSearch {

  import opened Bytes
  import opened Collections
  import opened Epochs
  import opened Checkpoint

  // ----- Updating the votes

  class CpChecker {
    const cfg: Config
    var ctxEpoch: nat
    var ctxGroups: seq<Group>

    /** The cached groups are those of the cached epoch. */
    ghost predicate Valid()
      reads this
    {
      ctxGroups == cfg.groups(ctxEpoch)
    }

    constructor (cfg: Config, height: nat)
      ensures Valid() && this.cfg == cfg
    {
      this.cfg := cfg;
      ctxEpoch := Epoch(cfg, height);
      ctxGroups := cfg.groups(Epoch(cfg, height));
    }

    method Reset(e: nat)
      modifies this
      ensures Valid() && ctxEpoch == e
    {
      ctxEpoch := e;
      ctxGroups := cfg.groups(e);
    }

    /** Records a block in the votes read from the database; `None` stands for a panic. */
    method Update(v: Votes, bh: Header) returns (r: Option<Votes>)
      requires Valid()
      modifies this
      ensures Valid() && r == UpdateVotes(cfg, v, bh)
    {
      var e := Epoch(cfg, bh.height);
      var last: seq<u16>;
      if e >= NextEpoch(cfg.epochLength, v.epoch) {
        Reset(e);
        last := Zeros(|ctxGroups|);
      } else if e == v.epoch {
        last := v.last;
        if e != ctxEpoch { Reset(e); }
      } else {
        return None;
      }
      var k := IndexOf(ctxGroups, bh.group);
      if k.None? { return None; }
      if |last| != |ctxGroups| { return None; }
      EpochBounds(cfg, bh.height);
      return Some(Votes(e, last[k.value := bh.height - EpochStart(cfg, e) + 1]));
    }
  }

  // ----- One epoch

  method CollectValid(last: seq<u16>) returns (valid: seq<nat>)
    ensures valid == ValidVotes(last)
  {
    valid := [];
    var i := 0;
    while i < |last|
      invariant 0 <= i <= |last|
      invariant valid == ValidVotes(last[..i])
    {
      assert last[..i + 1][..i] == last[..i];
      if last[i] > 0 { valid := valid + [last[i]]; }
      i := i + 1;
    }
    assert last[..i] == last;
  }

  method CalcByVotes(cfg: Config, v: Votes, e: nat, threshold: nat) returns (r: Option<nat>)
    requires threshold > 0
    ensures r == ByVotes(cfg, v, e, threshold)
  {
    if v.epoch != e { return None; }
    var valid := CollectValid(v.last);
    if |valid| < threshold { return None; }
    ValidVotesAre(v.last);
    return Some(VoteHeight(cfg, e, RankedVote(valid, threshold)));
  }

  method CalcByBlocks(cfg: Config, blocks: seq<Header>, e: nat, threshold: nat) returns (r: Option<nat>)
    ensures r == ByBlocks(cfg, blocks, e, threshold)
  {
    var votes: set<Group> := {};
    var visit := |blocks|;
    while visit > 0
      invariant 0 <= visit <= |blocks|
      invariant ByBlocks(cfg, blocks, e, threshold) == ScanBlocks(cfg, blocks, e, threshold, visit, votes)
    {
      visit := visit - 1;
      if Epoch(cfg, blocks[visit].height) == e {
        votes := votes + {blocks[visit].group};
        if |votes| >= threshold { return Some(blocks[visit].height); }
      }
    }
    return None;
  }

  // ----- The search over epochs

  /** How many blocks have height at most `h`. */
  function Below(chain: seq<Header>, h: nat): (n: nat)
    requires Rising(chain)
    ensures n <= |chain|
    ensures forall i :: 0 <= i < n ==> chain[i].height <= h
    ensures forall i :: n <= i < |chain| ==> chain[i].height > h
  {
    if chain == [] then 0
    else if chain[|chain| - 1].height <= h then |chain|
    else Below(chain[..|chain| - 1], h)
  }

  lemma BelowIs(chain: seq<Header>, h: nat, n: nat)
    requires Rising(chain) && n <= |chain|
    requires (n > 0 ==> chain[n - 1].height <= h) && (n < |chain| ==> chain[n].height > h)
    ensures Below(chain, h) == n
  {
    var b := Below(chain, h);
    if b < |chain| { assert chain[b].height > h; }
    if b > 0 { assert chain[b - 1].height <= h; }
  }

  /** How many blocks lie at least the block buffer below `h`. */
  function Settled(chain: seq<Header>, h: nat): (n: nat)
    requires Rising(chain)
    ensures n <= |chain|
  {
    if h <= BLOCK_BUFFER then 0 else Below(chain, h - BLOCK_BUFFER)
  }

  /** A block is settled exactly if it lies 20 or more below a height above 20. */
  lemma SettledIs(chain: seq<Header>, h: nat, i: nat)
    requires Rising(chain) && i < |chain|
    ensures i < Settled(chain, h) <==> h > 20 && chain[i].height + 20 <= h
  {
  }

  /** `r` is the index of the checkpoint for height `h`: the last settled block with a quorum of its epoch,
      within the ten epochs that end at the last settled block. */
  ghost predicate IsCheckpoint(cfg: Config, chain: seq<Header>, h: nat, r: Option<nat>)
    requires IsChain(cfg, chain)
  {
    var n := Settled(chain, h);
    if n == 0 then r == None
    else IsLatest(cfg, chain, 0, Epoch(cfg, chain[n - 1].height) - MAX_SCAN_EPOCHS + 1, n, r)
  }

  function HeightOf(chain: seq<Header>, r: Option<nat>): nat
    requires r.Some? ==> r.value < |chain|
  {
    if r.Some? then chain[r.value].height else 0
  }

  lemma LatestUnique(cfg: Config, chain: seq<Header>, lo: nat, first: int, n: nat, r: Option<nat>, r': Option<nat>)
    requires n <= |chain| && IsLatest(cfg, chain, lo, first, n, r) && IsLatest(cfg, chain, lo, first, n, r')
    ensures r == r'
  {
  }

  /** A height has one checkpoint. */
  lemma CheckpointUnique(cfg: Config, chain: seq<Header>, h: nat, r: Option<nat>, r': Option<nat>)
    requires IsChain(cfg, chain) && IsCheckpoint(cfg, chain, h, r) && IsCheckpoint(cfg, chain, h, r')
    ensures r == r'
  {
    var n := Settled(chain, h);
    if n > 0 { LatestUnique(cfg, chain, 0, Epoch(cfg, chain[n - 1].height) - MAX_SCAN_EPOCHS + 1, n, r, r'); }
  }

  lemma SettledRises(chain: seq<Header>, h: nat, h': nat)
    requires Rising(chain) && h <= h'
    ensures Settled(chain, h) <= Settled(chain, h')
  {
    var n' := Settled(chain, h');
    if h > BLOCK_BUFFER && n' < |chain| { assert chain[n'].height > h' - BLOCK_BUFFER; }
  }

  /** Checkpoints only rise: if one is found for the greater height, it is not below that of the lesser. */
  lemma CheckpointMonotone(cfg: Config, chain: seq<Header>, h: nat, h': nat, r: Option<nat>, r': Option<nat>)
    requires IsChain(cfg, chain) && h <= h'
    requires IsCheckpoint(cfg, chain, h, r) && IsCheckpoint(cfg, chain, h', r') && r'.Some?
    ensures r.Some? ==> r.value <= r'.value < |chain| && chain[r.value].height <= chain[r'.value].height
  {
    SettledRises(chain, h, h');
    if r.Some? {
      QuorateStays(cfg, chain, r.value, Settled(chain, h), Settled(chain, h'));
    }
  }

  // ----- The search method

  /** The state of the database at a height: readable, pruned away, or failing otherwise. */
  datatype DbAnswer = Present(votes: Votes) | Missing | Broken

  /** The database at `h`, if it can be read, holds the votes after the last block at or below `h`. */
  ghost predicate DbFaithful(cfg: Config, chain: seq<Header>, dbAt: nat -> DbAnswer)
    requires IsChain(cfg, chain)
  {
    forall h: nat :: Below(chain, h) > 0 &&
      (dbAt(h).Present? ==> VotesAt(cfg, chain, Below(chain, h)) == Some(dbAt(h).votes))
  }

  lemma PrefixIsChain(cfg: Config, chain: seq<Header>, n: nat)
    requires IsChain(cfg, chain) && 0 < n <= |chain|
    ensures IsChain(cfg, chain[..n])
  {
  }

  lemma {:induction false} PrefixVotes(cfg: Config, chain: seq<Header>, m: nat, n: nat)
    requires 0 < m <= n <= |chain|
    ensures VotesAt(cfg, chain[..n], m) == VotesAt(cfg, chain, m)
    decreases m
  {
    if m > 1 { PrefixVotes(cfg, chain, m - 1, n); }
  }

  /** The index of the first block of epoch `e` or later. */
  function FirstOf(cfg: Config, chain: seq<Header>, e: nat): (lo: nat)
    requires Rising(chain)
    ensures lo <= |chain|
    ensures forall i :: 0 <= i < lo ==> Epoch(cfg, chain[i].height) < e
    ensures forall i :: lo <= i < |chain| ==> Epoch(cfg, chain[i].height) >= e
  {
    if e == 0 then 0
    else
      var start := EpochStart(cfg, e);
      assert start > 0 by { TimesRises(1, e, cfg.epochLength); }
      var lo := Below(chain, start - 1);
      assert forall i {:trigger chain[i]} :: 0 <= i < |chain| ==> (i < lo <==> Epoch(cfg, chain[i].height) < e) by {
        forall i | 0 <= i < |chain| ensures i < lo <==> Epoch(cfg, chain[i].height) < e {
          EpochIs(cfg, chain[i].height, e);
        }
      }
      lo
  }

  /** Both ways of computing one epoch's checkpoint, on the blocks up to height `h`. */
  lemma EpochWays(cfg: Config, chain: seq<Header>, h: nat, n: nat, e: nat, lo: nat, threshold: nat)
    requires ValidConfig(cfg) && IsChain(cfg, chain) && n == Below(chain, h) > 0 && e == Epoch(cfg, h)
    requires lo == FirstOf(cfg, chain[..n], e) && threshold > 0
    ensures VotesAt(cfg, chain, n).Some?
    ensures ByVotes(cfg, VotesAt(cfg, chain, n).value, e, threshold) == ByBlocks(cfg, chain[lo..n], e, threshold)
    ensures IsQuorumHeight(cfg, chain[..n], e, threshold, ByBlocks(cfg, chain[lo..n], e, threshold))
  {
    var prefix := chain[..n];
    PrefixIsChain(cfg, chain, n);
    PrefixVotes(cfg, chain, n, n);
    EpochRises(cfg, chain[n - 1].height, h);
    assert prefix[lo..] == chain[lo..n];
    VotesAgreeWithBlocks(cfg, prefix, lo, e, threshold);
  }

  /** What the blocks before `m` say of epoch `e` holds for all `n` when the blocks in between are later. */
  lemma EpochSettled(cfg: Config, chain: seq<Header>, m: nat, n: nat, e: nat, i: nat)
    requires m <= n <= |chain| && forall j: nat :: m <= j < n ==> Epoch(cfg, chain[j].height) != e
    requires i <= m
    ensures Seen(cfg, chain[..m], e, i, m) == Seen(cfg, chain, e, i, n)
  {
    var head := chain[..m];
    assert forall j: nat :: j < m ==> head[j] == chain[j];
    forall g | g in Seen(cfg, chain, e, i, n) ensures g in Seen(cfg, head, e, i, m) {
      var j: nat :| i <= j < n && Epoch(cfg, chain[j].height) == e && chain[j].group == g;
      assert head[j] == chain[j];
    }
  }

  lemma NoneQuorate(cfg: Config, chain: seq<Header>, m: nat, n: nat, e: nat, lo: nat)
    requires m <= n <= |chain| && lo <= m && forall j: nat :: m <= j < n ==> Epoch(cfg, chain[j].height) != e
    requires |Seen(cfg, chain[..m], e, lo, m)| < Quorum(cfg, e)
    ensures forall i: nat :: lo <= i < n && Epoch(cfg, chain[i].height) == e ==> !Quorate(cfg, chain, i, n)
  {
    EpochSettled(cfg, chain, m, n, e, lo);
    forall i: nat | lo <= i < n && Epoch(cfg, chain[i].height) == e ensures !Quorate(cfg, chain, i, n) {
      SeenGrows(cfg, chain, e, lo, i, n, n);
    }
  }

  lemma FoundQuorate(cfg: Config, chain: seq<Header>, m: nat, n: nat, e: nat, c: nat) returns (k: nat)
    requires m <= n <= |chain| && forall j: nat :: m <= j < n ==> Epoch(cfg, chain[j].height) != e
    requires GroupsEnough(cfg, e) && IsQuorumHeight(cfg, chain[..m], e, Quorum(cfg, e), Some(c))
    ensures k < m && chain[k].height == c && Epoch(cfg, chain[k].height) == e && Quorate(cfg, chain, k, n)
    ensures forall i: nat :: k < i < n && Epoch(cfg, chain[i].height) == e ==> !Quorate(cfg, chain, i, n)
  {
    k :| QuorumFrom(cfg, chain[..m], e, Quorum(cfg, e), k) && chain[..m][k].height == c;
    EpochSettled(cfg, chain, m, n, e, k);
    NoneQuorate(cfg, chain, m, n, e, k + 1);
  }

  lemma EpochBefore(cfg: Config, e: nat)
    requires e > 0
    ensures EpochStart(cfg, e) > 0 && Epoch(cfg, EpochStart(cfg, e) - 1) == e - 1
  {
    TimesRises(e - 1, e - 1, cfg.epochLength);
    EpochIs(cfg, EpochStart(cfg, e) - 1, e);
    EpochIs(cfg, EpochStart(cfg, e) - 1, e - 1);
  }

  /** Everything above the epoch of `x` is ruled out, and everything else lies at or below `x`. */
  ghost predicate Narrowed(cfg: Config, chain: seq<Header>, n: nat, x: nat)
    requires n <= |chain|
  {
    && (forall i: nat {:trigger Quorate(cfg, chain, i, n)} ::
          i < n && Epoch(cfg, chain[i].height) > Epoch(cfg, x) ==> !Quorate(cfg, chain, i, n))
    && (forall i: nat :: i < n && Epoch(cfg, chain[i].height) <= Epoch(cfg, x) ==> chain[i].height <= x)
  }

  lemma NarrowedStart(cfg: Config, chain: seq<Header>, n: nat)
    requires Rising(chain) && 0 < n <= |chain|
    ensures Narrowed(cfg, chain, n, chain[n - 1].height)
  {
    forall i: nat | i < n ensures Epoch(cfg, chain[i].height) <= Epoch(cfg, chain[n - 1].height) {
      EpochRises(cfg, chain[i].height, chain[n - 1].height);
    }
  }

  lemma NarrowedNext(cfg: Config, chain: seq<Header>, n: nat, x: nat)
    requires n <= |chain| && Narrowed(cfg, chain, n, x) && Epoch(cfg, x) > 0
    requires IsLatest(cfg, chain, 0, Epoch(cfg, x), n, None)
    ensures EpochStart(cfg, Epoch(cfg, x)) > 0 && Epoch(cfg, EpochStart(cfg, Epoch(cfg, x)) - 1) == Epoch(cfg, x) - 1
    ensures EpochStart(cfg, Epoch(cfg, x)) <= x
    ensures Narrowed(cfg, chain, n, EpochStart(cfg, Epoch(cfg, x)) - 1)
  {
    var e := Epoch(cfg, x);
    EpochBefore(cfg, e);
    EpochBounds(cfg, x);
    forall i: nat | i < n && Epoch(cfg, chain[i].height) <= e - 1 ensures chain[i].height <= EpochStart(cfg, e) - 1 {
      EpochIs(cfg, chain[i].height, e);
    }
  }

  lemma LaterEpochs(cfg: Config, chain: seq<Header>, n: nat, x: nat, m: nat)
    requires Rising(chain) && 0 < n <= |chain| && Narrowed(cfg, chain, n, x)
    requires m == Below(chain, x) && x <= chain[n - 1].height
    ensures m <= n && forall j: nat :: m <= j < n ==> Epoch(cfg, chain[j].height) > Epoch(cfg, x)
  {
    if n < |chain| { assert chain[n - 1].height < chain[n].height; }
    forall j: nat | m <= j < n ensures Epoch(cfg, chain[j].height) > Epoch(cfg, x) {
      assert chain[j].height > x;
    }
  }

  lemma LatestFound(cfg: Config, chain: seq<Header>, n: nat, x: nat, m: nat, c: nat) returns (k: nat)
    requires Rising(chain) && 0 < n <= |chain| && Narrowed(cfg, chain, n, x)
    requires m == Below(chain, x) && x <= chain[n - 1].height && GroupsEnough(cfg, Epoch(cfg, x))
    requires IsQuorumHeight(cfg, chain[..m], Epoch(cfg, x), Quorum(cfg, Epoch(cfg, x)), Some(c))
    ensures k < n && chain[k].height == c && IsLatest(cfg, chain, 0, Epoch(cfg, x), n, Some(k))
  {
    LaterEpochs(cfg, chain, n, x, m);
    k := FoundQuorate(cfg, chain, m, n, Epoch(cfg, x), c);
    forall i: nat | k < i < n ensures !Quorate(cfg, chain, i, n) {
      EpochRises(cfg, chain[k].height, chain[i].height);
    }
  }

  lemma EpochFails(cfg: Config, chain: seq<Header>, n: nat, x: nat, m: nat)
    requires Rising(chain) && 0 < n <= |chain| && Narrowed(cfg, chain, n, x)
    requires m == Below(chain, x) && x <= chain[n - 1].height
    requires GroupsEnough(cfg, Epoch(cfg, x)) ==>
               IsQuorumHeight(cfg, chain[..m], Epoch(cfg, x), Quorum(cfg, Epoch(cfg, x)), None)
    ensures IsLatest(cfg, chain, 0, Epoch(cfg, x), n, None)
  {
    if GroupsEnough(cfg, Epoch(cfg, x)) {
      LaterEpochs(cfg, chain, n, x, m);
      NoneQuorate(cfg, chain, m, n, Epoch(cfg, x), 0);
    }
  }

  /** One epoch's checkpoint, from the votes when the database can be read and from the blocks otherwise. */
  method EpochCheckpoint(cfg: Config, chain: seq<Header>, x: nat, db: DbAnswer) returns (r: Option<nat>)
    requires ValidConfig(cfg) && IsChain(cfg, chain) && GroupsEnough(cfg, Epoch(cfg, x)) && !db.Broken?
    requires Below(chain, x) > 0
    requires db.Present? ==> VotesAt(cfg, chain, Below(chain, x)) == Some(db.votes)
    ensures IsQuorumHeight(cfg, chain[..Below(chain, x)], Epoch(cfg, x), Quorum(cfg, Epoch(cfg, x)), r)
  {
    var e, m := Epoch(cfg, x), Below(chain, x);
    var lo := FirstOf(cfg, chain[..m], e);
    EpochWays(cfg, chain, x, m, e, lo, Quorum(cfg, e));
    if db.Present? {
      r := CalcByVotes(cfg, db.votes, e, Quorum(cfg, e));
    } else {
      r := CalcByBlocks(cfg, chain[lo..m], e, Quorum(cfg, e));
    }
  }

  /** One turn of the search: the epoch of `x`, with the blocks read instead once a database is missing. */
  method TryEpoch(cfg: Config, chain: seq<Header>, ghost n: nat, x: nat, db: DbAnswer)
    returns (found: Option<nat>, ghost r: Option<nat>)
    requires ValidConfig(cfg) && IsChain(cfg, chain) && !db.Broken?
    requires 0 < n <= |chain| && x <= chain[n - 1].height && Narrowed(cfg, chain, n, x) && Below(chain, x) > 0
    requires db.Present? ==> VotesAt(cfg, chain, Below(chain, x)) == Some(db.votes)
    ensures IsLatest(cfg, chain, 0, Epoch(cfg, x), n, r)
    ensures r.Some? == found.Some? && (r.Some? ==> r.value < n && found.value == chain[r.value].height)
  {
    if GroupsEnough(cfg, Epoch(cfg, x)) {
      found := EpochCheckpoint(cfg, chain, x, db);
      if found.Some? {
        ghost var k := LatestFound(cfg, chain, n, x, Below(chain, x), found.value);
        return found, Some(k);
      }
    }
    EpochFails(cfg, chain, n, x, Below(chain, x));
    return None, None;
  }

  /** The height of the last settled block. */
  method SearchStart(chain: seq<Header>, h: nat) returns (x: nat)
    requires chain != [] && chain[0].height == 0 && Rising(chain) && h > BLOCK_BUFFER
    ensures Settled(chain, h) > 0 && x == chain[Settled(chain, h) - 1].height
  {
    x := h - BLOCK_BUFFER;
    assert Below(chain, x) > 0;
    if x > chain[|chain| - 1].height { x := chain[|chain| - 1].height; } else { x := chain[Below(chain, x) - 1].height; }
  }

  lemma WidenLatest(cfg: Config, chain: seq<Header>, first: int, first': int, n: nat, r: Option<nat>)
    requires n <= |chain| && IsLatest(cfg, chain, 0, first, n, r)
    requires if r.Some? then first' <= first else first <= first' || first == 0
    ensures IsLatest(cfg, chain, 0, first', n, r)
  {
  }

  /** The checkpoint for height `h`, whichever databases have been pruned; 0 when there is none. */
  method CheckpointAt(cfg: Config, chain: seq<Header>, dbAt: nat -> DbAnswer, h: nat)
    returns (height: nat, ghost r: Option<nat>)
    requires ValidConfig(cfg) && IsChain(cfg, chain) && DbFaithful(cfg, chain, dbAt)
    ensures (forall x :: !dbAt(x).Broken?) ==>
              IsCheckpoint(cfg, chain, h, r) && (r.Some? ==> r.value < |chain|) && height == HeightOf(chain, r)
  {
    if h <= BLOCK_BUFFER { return 0, None; }
    ghost var n := Settled(chain, h);
    var x: nat := SearchStart(chain, h);
    NarrowedStart(cfg, chain, n);
    ghost var first := Epoch(cfg, x) - MAX_SCAN_EPOCHS + 1;
    var byDb, scan := true, 0;
    while scan < MAX_SCAN_EPOCHS
      invariant 0 <= scan <= MAX_SCAN_EPOCHS
      invariant Epoch(cfg, x) + 1 == first + MAX_SCAN_EPOCHS - scan
      invariant x <= chain[n - 1].height && Narrowed(cfg, chain, n, x)
      invariant scan == MAX_SCAN_EPOCHS ==> IsLatest(cfg, chain, 0, first, n, None)
    {
      var e := Epoch(cfg, x);
      var db := if byDb && GroupsEnough(cfg, e) then dbAt(x) else Missing;
      if db.Broken? { return 0, None; }
      if GroupsEnough(cfg, e) && db.Missing? { byDb := false; }
      assert Below(chain, x) > 0;
      var found;
      found, r := TryEpoch(cfg, chain, n, x, db);
      if found.Some? {
        WidenLatest(cfg, chain, e, first, n, r);
        return found.value, r;
      }
      if e == 0 {
        WidenLatest(cfg, chain, e, first, n, r);
        return 0, None;
      }
      NarrowedNext(cfg, chain, n, x);
      x := EpochStart(cfg, e) - 1;
      scan := scan + 1;
    }
    return 0, None;
  }

  // ----- The checkpoint of a received slice

  /** How much of the slice is scanned: up to the block buffer below its top, or all of it when no block
      lies that deep. */
  function ScannedLength(slice: seq<Header>): (m: nat)
    requires Rising(slice) && slice != []
    ensures 0 < m <= |slice|
  {
    var m := Settled(slice, slice[|slice| - 1].height);
    if m == 0 then |slice| else m
  }

  /** `r` is the index of the slice's checkpoint. */
  ghost predicate IsSliceCheckpoint(cfg: Config, slice: seq<Header>, r: Option<nat>)
    requires Rising(slice)
  {
    if slice == [] || slice[|slice| - 1].height <= BLOCK_BUFFER then r == None
    else IsLatest(cfg, slice, 0, 0, ScannedLength(slice), r)
  }

  /** The state of the backward scan after visiting the blocks from `visit` on. */
  ghost predicate Scanning(cfg: Config, slice: seq<Header>, m: nat, visit: nat, e: nat, votes: set<Group>)
    requires m <= |slice|
  {
    && visit <= m && (visit < m ==> Epoch(cfg, slice[visit].height) == e)
    && (visit == m ==> m > 0 && Epoch(cfg, slice[m - 1].height) == e && votes == {})
    && (GroupsEnough(cfg, e) ==> votes == Seen(cfg, slice, e, visit, m) && |votes| < Quorum(cfg, e))
    && (forall i: nat :: visit <= i < m ==> !Quorate(cfg, slice, i, m))
  }

  lemma ScanSame(cfg: Config, slice: seq<Header>, m: nat, v: nat, e: nat, votes: set<Group>, next: set<Group>)
    requires v < m <= |slice| && Epoch(cfg, slice[v].height) == e && GroupsEnough(cfg, e)
    requires votes == Seen(cfg, slice, e, v + 1, m) && next == votes + {slice[v].group}
    ensures next == Seen(cfg, slice, e, v, m)
    ensures Quorate(cfg, slice, v, m) <==> |next| >= Quorum(cfg, e)
  {
    SeenNext(cfg, slice, e, v, m);
  }

  lemma ScanSwitch(cfg: Config, slice: seq<Header>, m: nat, visit: nat, e: nat, votes: set<Group>)
    requires ValidConfig(cfg) && Rising(slice) && m <= |slice| && 0 < visit && Scanning(cfg, slice, m, visit, e, votes)
    requires Epoch(cfg, slice[visit - 1].height) != e
    ensures Scanning(cfg, slice, m, visit - 1, Epoch(cfg, slice[visit - 1].height), {slice[visit - 1].group})
  {
    var e', g := Epoch(cfg, slice[visit - 1].height), slice[visit - 1].group;
    forall j: nat | visit <= j < m ensures Epoch(cfg, slice[j].height) != e' {
      EpochRises(cfg, slice[visit - 1].height, slice[visit].height);
      EpochRises(cfg, slice[visit].height, slice[j].height);
    }
    SeenNext(cfg, slice, e', visit - 1, m);
    assert Seen(cfg, slice, e', visit, m) == {};
    assert Seen(cfg, slice, e', visit - 1, m) == {g};
    assert |{g}| == 1;
  }

  /** Drops the blocks of the block buffer from the end of the slice. */
  method TrimmedLength(slice: seq<Header>) returns (m: nat)
    requires Rising(slice) && slice != [] && slice[|slice| - 1].height > BLOCK_BUFFER
    ensures m == ScannedLength(slice)
  {
    var firstHeight := slice[|slice| - 1].height - BLOCK_BUFFER;
    var i := |slice|;
    while i > 0
      invariant 0 <= i <= |slice|
      invariant forall j :: i <= j < |slice| ==> slice[j].height > firstHeight
    {
      if slice[i - 1].height <= firstHeight {
        BelowIs(slice, firstHeight, i);
        return i;
      }
      i := i - 1;
    }
    BelowIs(slice, firstHeight, 0);
    return |slice|;
  }

  method ScanSlice(cfg: Config, slice: seq<Header>, m: nat) returns (r: Option<nat>)
    requires ValidConfig(cfg) && Rising(slice) && 0 < m <= |slice|
    ensures IsLatest(cfg, slice, 0, 0, m, r)
  {
    var e := Epoch(cfg, slice[m - 1].height);
    var votes: set<Group> := {};
    var visit := m;
    assert Seen(cfg, slice, e, m, m) == {};
    while visit > 0
      invariant 0 <= visit <= m && Scanning(cfg, slice, m, visit, e, votes)
    {
      var bh := slice[visit - 1];
      if Epoch(cfg, bh.height) == e {
        if GroupsEnough(cfg, e) {
          ScanSame(cfg, slice, m, visit - 1, e, votes, votes + {bh.group});
          votes := votes + {bh.group};
          if |votes| >= Quorum(cfg, e) { return Some(visit - 1); }
        }
      } else {
        ScanSwitch(cfg, slice, m, visit, e, votes);
        e := Epoch(cfg, bh.height);
        votes := {bh.group};
      }
      visit := visit - 1;
    }
    return None;
  }

  /** The checkpoint of a chain slice, found by one scan from its top. */
  method CheckPointOf(cfg: Config, slice: seq<Header>) returns (r: Option<nat>)
    requires ValidConfig(cfg) && Rising(slice)
    ensures IsSliceCheckpoint(cfg, slice, r)
  {
    if |slice| == 0 { return None; }
    if slice[|slice| - 1].height <= BLOCK_BUFFER { return None; }
    var m := TrimmedLength(slice);
    r := ScanSlice(cfg, slice, m);
  }

  lemma SliceSeen(cfg: Config, chain: seq<Header>, a: nat, e: nat, i: nat, m: nat)
    requires a + m <= |chain|
    ensures Seen(cfg, chain[a..], e, i, m) == Seen(cfg, chain, e, a + i, a + m)
  {
    var slice := chain[a..];
    assert forall j: nat :: j < m ==> slice[j] == chain[a + j];
    forall g | g in Seen(cfg, chain, e, a + i, a + m) ensures g in Seen(cfg, slice, e, i, m) {
      var j: nat :| a + i <= j < a + m && Epoch(cfg, chain[j].height) == e && chain[j].group == g;
      assert slice[j - a] == chain[j];
    }
  }

  lemma SliceQuorate(cfg: Config, chain: seq<Header>, a: nat, i: nat, m: nat)
    requires a + m <= |chain| && i < m
    ensures Quorate(cfg, chain[a..], i, m) <==> Quorate(cfg, chain, a + i, a + m)
  {
    SliceSeen(cfg, chain, a, Epoch(cfg, chain[a + i].height), i, m);
  }

  lemma SliceLength(chain: seq<Header>, a: nat)
    requires Rising(chain) && a < |chain| && chain[|chain| - 1].height > BLOCK_BUFFER
    requires chain[a].height + BLOCK_BUFFER <= chain[|chain| - 1].height
    ensures a + ScannedLength(chain[a..]) == Settled(chain, chain[|chain| - 1].height)
  {
    var top := chain[|chain| - 1].height;
    var slice := chain[a..];
    var n := Settled(chain, top);
    var m := Settled(slice, top);
    assert slice[0] == chain[a];
    if m < |slice| { assert slice[m] == chain[a + m]; }
    assert slice[m - 1] == chain[a + m - 1];
  }

  function Shift(s: Option<nat>, a: nat): Option<nat> {
    if s.Some? then Some(a + s.value) else None
  }

  lemma SliceLatest(cfg: Config, chain: seq<Header>, slice: seq<Header>, a: nat, m: nat, s: Option<nat>)
    requires a + m <= |chain| && slice == chain[a..] && IsLatest(cfg, slice, 0, 0, m, s)
    ensures IsLatest(cfg, chain, a, 0, a + m, Shift(s, a))
  {
    var n := a + m;
    forall i: nat | a <= i < n ensures Quorate(cfg, chain, i, n) <==> Quorate(cfg, slice, i - a, m) {
      SliceQuorate(cfg, chain, a, i - a, m);
    }
  }

  lemma SliceResult(cfg: Config, chain: seq<Header>, slice: seq<Header>, a: nat, s: Option<nat>)
    requires Rising(slice) && a < |chain| && slice == chain[a..] && chain[|chain| - 1].height > BLOCK_BUFFER
    requires IsSliceCheckpoint(cfg, slice, s)
    ensures IsLatest(cfg, chain, a, 0, a + ScannedLength(slice), Shift(s, a))
  {
    SliceLatest(cfg, chain, slice, a, ScannedLength(slice), s);
  }

  predicate Searched(cfg: Config, chain: seq<Header>, k: nat, n: nat)
    requires k < n <= |chain|
  {
    Epoch(cfg, chain[k].height) + MAX_SCAN_EPOCHS > Epoch(cfg, chain[n - 1].height)
  }

  lemma LatestCompare(cfg: Config, chain: seq<Header>, a: nat, first: int, n: nat, r: Option<nat>, t: Option<nat>)
    requires n <= |chain| && IsLatest(cfg, chain, 0, first, n, r) && IsLatest(cfg, chain, a, 0, n, t)
    ensures r.Some? && r.value >= a ==> t == r
    ensures t.Some? && Epoch(cfg, chain[t.value].height) >= first ==> r == t
  {
  }

  /** A slice that reaches below the block buffer gives the chain's checkpoint whenever that lies in the slice,
      and whatever it gives is the chain's checkpoint if it lies within the ten epochs the chain is searched. */
  lemma SliceAgrees(cfg: Config, chain: seq<Header>, a: nat, n: nat, r: Option<nat>, s: Option<nat>)
    requires IsChain(cfg, chain) && a < |chain| && chain[|chain| - 1].height > BLOCK_BUFFER
    requires chain[a].height + BLOCK_BUFFER <= chain[|chain| - 1].height
    requires IsCheckpoint(cfg, chain, chain[|chain| - 1].height, r) && IsSliceCheckpoint(cfg, chain[a..], s)
    requires n == Settled(chain, chain[|chain| - 1].height)
    ensures r.Some? && r.value >= a ==> s == Some(r.value - a)
    ensures s.Some? ==> a + s.value < n && (Searched(cfg, chain, a + s.value, n) ==> r == Some(a + s.value))
  {
    SliceLength(chain, a);
    SliceResult(cfg, chain, chain[a..], a, s);
    LatestCompare(cfg, chain, a, Epoch(cfg, chain[n - 1].height) - MAX_SCAN_EPOCHS + 1, n, r, Shift(s, a));
  }
}
