/** Checkpoints: the newest block that a quorum of an epoch's groups has built on, computed from the votes
    stored in the account database, from the block headers, and from a received chain slice. */
module Checkpoint {

  import opened Bytes
  import opened Collections
  import opened Epochs

  type Group = nat

  datatype Header = Header(height: nat, group: Group)

  /** `groups(e)` lists the groups active in epoch `e`; `threshold(n)` is the quorum among `n` groups. */
  datatype Config = Config(epochLength: Length, groups: nat -> seq<Group>, threshold: nat -> nat)

  const GROUP_NUM_MIN: nat := 10
  const MAX_SCAN_EPOCHS: nat := 10
  const BLOCK_BUFFER: nat := 20

  function Epoch(cfg: Config, height: nat): nat { EpochAt(cfg.epochLength, height) }

  function EpochStart(cfg: Config, e: nat): nat { StartOf(cfg.epochLength, e) }

  predicate GroupsEnough(cfg: Config, e: nat) { |cfg.groups(e)| >= GROUP_NUM_MIN }

  function Quorum(cfg: Config, e: nat): nat { cfg.threshold(|cfg.groups(e)|) }

  /** Seeds of active groups differ, and a quorum needs more than one group. */
  ghost predicate ValidConfig(cfg: Config) {
    && (forall e :: Distinct(cfg.groups(e)))
    && (forall n :: n >= GROUP_NUM_MIN ==> 2 <= cfg.threshold(n) <= n)
  }

  predicate Rising(chain: seq<Header>) {
    forall i, j :: 0 <= i < j < |chain| ==> chain[i].height < chain[j].height
  }

  predicate GroupsActive(cfg: Config, chain: seq<Header>) {
    forall i :: 0 <= i < |chain| ==> chain[i].group in cfg.groups(Epoch(cfg, chain[i].height))
  }

  /** A chain from genesis; the genesis group is the only one of the first epoch. */
  predicate IsChain(cfg: Config, chain: seq<Header>) {
    && |chain| > 0 && chain[0].height == 0 && cfg.groups(0) == [chain[0].group]
    && Rising(chain) && GroupsActive(cfg, chain)
  }

  // ----- Epoch arithmetic

  lemma EpochBounds(cfg: Config, h: nat)
    ensures EpochStart(cfg, Epoch(cfg, h)) <= h < EpochStart(cfg, Epoch(cfg, h)) + cfg.epochLength
  {
    Bounds(cfg.epochLength, h);
  }

  lemma EpochIs(cfg: Config, h: nat, e: nat)
    ensures h < EpochStart(cfg, e) <==> Epoch(cfg, h) < e
  {
    BeforeStart(cfg.epochLength, h, e);
  }

  lemma EpochRises(cfg: Config, h: nat, h': nat)
    requires h <= h'
    ensures Epoch(cfg, h) <= Epoch(cfg, h')
  {
    Rises(cfg.epochLength, h, h');
  }

  // ----- Quorums

  /** The groups of epoch `e` that own a block with index in `[i, n)`. */
  function Seen(cfg: Config, chain: seq<Header>, e: nat, i: nat, n: nat): set<Group>
    requires n <= |chain|
  {
    set j: nat | i <= j < n && Epoch(cfg, chain[j].height) == e :: chain[j].group
  }

  /** Block `i` is built on, in its own epoch and before index `n`, by a quorum of that epoch's groups. */
  predicate Quorate(cfg: Config, chain: seq<Header>, i: nat, n: nat)
    requires i < n <= |chain|
  {
    var e := Epoch(cfg, chain[i].height);
    GroupsEnough(cfg, e) && |Seen(cfg, chain, e, i, n)| >= Quorum(cfg, e)
  }

  /** `r` is the last quorate index before `n`, among those from index `lo` and epoch `first` on. */
  ghost predicate IsLatest(cfg: Config, chain: seq<Header>, lo: nat, first: int, n: nat, r: Option<nat>)
    requires n <= |chain|
  {
    match r
    case None =>
      forall i: nat {:trigger Quorate(cfg, chain, i, n)} ::
        lo <= i < n && Epoch(cfg, chain[i].height) >= first ==> !Quorate(cfg, chain, i, n)
    case Some(k) =>
      && lo <= k < n && Epoch(cfg, chain[k].height) >= first && Quorate(cfg, chain, k, n)
      && forall i: nat {:trigger Quorate(cfg, chain, i, n)} :: k < i < n ==> !Quorate(cfg, chain, i, n)
  }

  lemma SeenGrows(cfg: Config, chain: seq<Header>, e: nat, i: nat, j: nat, n: nat, m: nat)
    requires i <= j <= n <= m <= |chain|
    ensures Seen(cfg, chain, e, j, n) <= Seen(cfg, chain, e, i, m)
    ensures |Seen(cfg, chain, e, j, n)| <= |Seen(cfg, chain, e, i, m)|
  {
    SubsetSize(Seen(cfg, chain, e, j, n), Seen(cfg, chain, e, i, m));
  }

  /** Later blocks never take a quorum away. */
  lemma QuorateStays(cfg: Config, chain: seq<Header>, i: nat, n: nat, m: nat)
    requires i < n <= m <= |chain| && Quorate(cfg, chain, i, n)
    ensures Quorate(cfg, chain, i, m)
  {
    SeenGrows(cfg, chain, Epoch(cfg, chain[i].height), i, i, n, m);
  }

  // ----- The votes kept in the account database

  /** For each group of the epoch, one more than the offset of its last block in the epoch; 0 for none. */
  datatype Votes = Votes(epoch: nat, last: seq<u16>)

  function IndexOf(groups: seq<Group>, g: Group): (k: Option<nat>)
    ensures k.None? ==> g !in groups
    ensures k.Some? ==> k.value < |groups| && groups[k.value] == g
  {
    if groups == [] then None
    else if groups[|groups| - 1] == g then Some(|groups| - 1)
    else IndexOf(groups[..|groups| - 1], g)
  }

  function Zeros(n: nat): (z: seq<u16>)
    ensures |z| == n && forall i :: 0 <= i < n ==> z[i] == 0
  {
    seq(n, _ => 0)
  }

  /** The epoch's votes before the block at `height`; none when they are of a later epoch. */
  function VotesBefore(cfg: Config, v: Votes, height: nat): Option<seq<u16>> {
    var e := Epoch(cfg, height);
    if e >= NextEpoch(cfg.epochLength, v.epoch) then Some(Zeros(|cfg.groups(e)|))
    else if e == v.epoch then Some(v.last)
    else None
  }

  /** The votes after a block, or a panic. */
  function UpdateVotes(cfg: Config, v: Votes, bh: Header): Option<Votes> {
    var e := Epoch(cfg, bh.height);
    var last := VotesBefore(cfg, v, bh.height);
    var k := IndexOf(cfg.groups(e), bh.group);
    if last.None? || k.None? || |last.value| != |cfg.groups(e)| then None
    else
      EpochBounds(cfg, bh.height);
      Some(Votes(e, last.value[k.value := bh.height - EpochStart(cfg, e) + 1]))
  }

  /** The votes in the database of block `n - 1`. */
  function VotesAt(cfg: Config, chain: seq<Header>, n: nat): Option<Votes>
    requires 0 < n <= |chain|
  {
    if n == 1 then Some(Votes(0, [1]))
    else
      var v := VotesAt(cfg, chain, n - 1);
      if v.None? then None else UpdateVotes(cfg, v.value, chain[n - 1])
  }

  /** A stored vote reaches `x` just when the group owns a block at that offset or later. */
  ghost predicate VotesExact(cfg: Config, chain: seq<Header>, n: nat, v: Votes)
    requires 0 < n <= |chain|
  {
    var e := Epoch(cfg, chain[n - 1].height);
    && v.epoch == e && |v.last| == |cfg.groups(e)|
    && forall i: nat, x: nat {:trigger OwnsFrom(cfg, chain, n, e, cfg.groups(e)[i], x)} :: i < |v.last| && x > 0 ==>
         (v.last[i] >= x <==> OwnsFrom(cfg, chain, n, e, cfg.groups(e)[i], x))
  }

  /** Group `g` owns a block of epoch `e` whose offset plus one is at least `x`. */
  ghost predicate OwnsFrom(cfg: Config, chain: seq<Header>, n: nat, e: nat, g: Group, x: nat)
    requires n <= |chain|
  {
    exists j: nat :: j < n && chain[j].group == g && Epoch(cfg, chain[j].height) == e
                     && chain[j].height + 1 >= EpochStart(cfg, e) + x
  }

  lemma OwnsNext(cfg: Config, chain: seq<Header>, n: nat, e: nat, g: Group, x: nat)
    requires n < |chain|
    ensures OwnsFrom(cfg, chain, n + 1, e, g, x) <==>
            || OwnsFrom(cfg, chain, n, e, g, x)
            || (chain[n].group == g && Epoch(cfg, chain[n].height) == e && chain[n].height + 1 >= EpochStart(cfg, e) + x)
  {
  }

  lemma FirstVote(cfg: Config, chain: seq<Header>)
    requires IsChain(cfg, chain)
    ensures VotesExact(cfg, chain, 1, Votes(0, [1]))
  {
    forall i: nat, x: nat | i < 1 && x > 0
      ensures ([1][i] >= x <==> OwnsFrom(cfg, chain, 1, 0, cfg.groups(0)[i], x))
    {
      if x == 1 { assert chain[0].height + 1 >= EpochStart(cfg, 0) + x; }
    }
  }

  /** The votes before a block, as the epoch of the new block sees them. */
  lemma CarriedVotes(cfg: Config, chain: seq<Header>, n: nat, v: Votes, e: nat, last: seq<u16>, i: nat, x: nat)
    requires IsChain(cfg, chain) && 0 < n < |chain| && VotesExact(cfg, chain, n, v)
    requires e == Epoch(cfg, chain[n].height) && VotesBefore(cfg, v, chain[n].height) == Some(last)
    requires i < |last| == |cfg.groups(e)| && x > 0
    ensures last[i] >= x <==> OwnsFrom(cfg, chain, n, e, cfg.groups(e)[i], x)
  {
    if e > v.epoch {
      forall j: nat | j < n ensures Epoch(cfg, chain[j].height) != e {
        EpochRises(cfg, chain[j].height, chain[n - 1].height);
      }
    }
  }

  lemma VoteStep(cfg: Config, chain: seq<Header>, n: nat, v: Votes)
    requires ValidConfig(cfg) && IsChain(cfg, chain) && 0 < n < |chain| && VotesExact(cfg, chain, n, v)
    ensures UpdateVotes(cfg, v, chain[n]).Some? && VotesExact(cfg, chain, n + 1, UpdateVotes(cfg, v, chain[n]).value)
  {
    var bh := chain[n];
    var e := Epoch(cfg, bh.height);
    EpochRises(cfg, chain[n - 1].height, bh.height);
    assert bh.group in cfg.groups(e);
    var last := VotesBefore(cfg, v, bh.height).value;
    var k := IndexOf(cfg.groups(e), bh.group).value;
    EpochBounds(cfg, bh.height);
    var v' := UpdateVotes(cfg, v, bh).value;
    var groups, now, m := cfg.groups(e), v'.last, n + 1;
    assert Distinct(groups);
    forall i: nat, x: nat | i < |now| && x > 0
      ensures now[i] >= x <==> OwnsFrom(cfg, chain, m, e, groups[i], x)
    {
      CarriedVotes(cfg, chain, n, v, e, last, i, x);
      OwnsNext(cfg, chain, n, e, groups[i], x);
      if i == k && OwnsFrom(cfg, chain, n, e, groups[i], x) { LastIsHighest(cfg, chain, n, e, groups[i], x); }
    }
  }

  lemma LastIsHighest(cfg: Config, chain: seq<Header>, n: nat, e: nat, g: Group, x: nat)
    requires Rising(chain) && n < |chain| && OwnsFrom(cfg, chain, n, e, g, x)
    ensures chain[n].height + 1 >= EpochStart(cfg, e) + x
  {
  }

  /** On every chain the votes never panic and record each group's last block. */
  lemma {:induction false} VotesAreExact(cfg: Config, chain: seq<Header>, n: nat)
    requires ValidConfig(cfg) && IsChain(cfg, chain) && 0 < n <= |chain|
    ensures VotesAt(cfg, chain, n).Some? && VotesExact(cfg, chain, n, VotesAt(cfg, chain, n).value)
    decreases n
  {
    if n == 1 {
      FirstVote(cfg, chain);
    } else {
      VotesAreExact(cfg, chain, n - 1);
      VoteStep(cfg, chain, n - 1, VotesAt(cfg, chain, n - 1).value);
    }
  }

  // ----- The checkpoint of one epoch, from votes and from blocks

  function CountFrom(s: seq<nat>, x: nat): (c: nat)
    ensures c <= |s|
  {
    if s == [] then 0 else CountFrom(s[..|s| - 1], x) + if s[|s| - 1] >= x then 1 else 0
  }

  function ValidVotes(last: seq<u16>): seq<nat> {
    if last == [] then []
    else
      var rest := ValidVotes(last[..|last| - 1]);
      if last[|last| - 1] > 0 then rest + [last[|last| - 1]] else rest
  }

  predicate AtMost(x: nat, y: nat) { x <= y }

  predicate Sorted(s: seq<nat>) {
    forall i, j {:trigger AtMost(s[i], s[j])} :: 0 <= i < j < |s| ==> AtMost(s[i], s[j])
  }

  function Insert(s: seq<nat>, x: nat): (r: seq<nat>)
    ensures |r| == |s| + 1
  {
    if s == [] || s[|s| - 1] <= x then s + [x] else Insert(s[..|s| - 1], x) + [s[|s| - 1]]
  }

  function Sort(s: seq<nat>): (r: seq<nat>)
    ensures |r| == |s|
  {
    if s == [] then [] else Insert(Sort(s[..|s| - 1]), s[|s| - 1])
  }

  lemma AppendSorted(s: seq<nat>, x: nat)
    requires Sorted(s) && forall i :: 0 <= i < |s| ==> s[i] <= x
    ensures Sorted(s + [x])
  {
    var t := s + [x];
    forall i, j | 0 <= i < j < |t| ensures AtMost(t[i], t[j]) {
      if j < |s| { assert AtMost(s[i], s[j]); }
    }
  }

  lemma {:induction false} InsertSorts(s: seq<nat>, x: nat)
    requires Sorted(s)
    ensures Sorted(Insert(s, x))
    ensures forall i :: 0 <= i < |Insert(s, x)| ==> Insert(s, x)[i] in s || Insert(s, x)[i] == x
    decreases |s|
  {
    var n := |s| - 1;
    if s == [] || s[n] <= x {
      forall i | 0 <= i < |s| ensures s[i] <= x { assert i < n ==> AtMost(s[i], s[n]); }
      AppendSorted(s, x);
    } else {
      var front := s[..n];
      forall i, j | 0 <= i < j < n ensures AtMost(front[i], front[j]) { assert AtMost(s[i], s[j]); }
      InsertSorts(front, x);
      forall i | 0 <= i < |Insert(front, x)| ensures Insert(front, x)[i] <= s[n] {
        if Insert(front, x)[i] in front {
          var k :| 0 <= k < n && front[k] == Insert(front, x)[i];
          assert AtMost(s[k], s[n]);
        }
      }
      AppendSorted(Insert(front, x), s[n]);
    }
  }

  lemma {:induction false} SortSorts(s: seq<nat>)
    ensures Sorted(Sort(s)) && forall i :: 0 <= i < |Sort(s)| ==> Sort(s)[i] in s
    decreases |s|
  {
    if s != [] {
      SortSorts(s[..|s| - 1]);
      InsertSorts(Sort(s[..|s| - 1]), s[|s| - 1]);
    }
  }

  lemma {:induction false} ValidVotesAre(last: seq<u16>)
    ensures forall v :: v in ValidVotes(last) ==> v > 0 && v in last
    decreases |last|
  {
    if last != [] { ValidVotesAre(last[..|last| - 1]); }
  }

  /** The `threshold`-th highest vote. */
  function RankedVote(valid: seq<nat>, threshold: nat): (x: nat)
    requires 0 < threshold <= |valid|
    ensures x in valid
  {
    SortSorts(valid);
    Sort(valid)[|valid| - threshold]
  }

  /** The height that a vote in epoch `e` stands for. */
  function VoteHeight(cfg: Config, e: nat, vote: nat): nat
    requires vote > 0
  {
    vote + EpochStart(cfg, e) - 1
  }

  /** The height of the `threshold`-th highest of the last votes. */
  function ByVotes(cfg: Config, v: Votes, e: nat, threshold: nat): Option<nat>
    requires threshold > 0
  {
    if v.epoch != e || |ValidVotes(v.last)| < threshold then None
    else
      ValidVotesAre(v.last);
      Some(VoteHeight(cfg, e, RankedVote(ValidVotes(v.last), threshold)))
  }

  /** The backward scan for `threshold` distinct groups; `n` blocks are left to visit. */
  function ScanBlocks(cfg: Config, blocks: seq<Header>, e: nat, threshold: nat, n: nat, votes: set<Group>): Option<nat>
    requires n <= |blocks|
  {
    if n == 0 then None
    else
      var bh := blocks[n - 1];
      if Epoch(cfg, bh.height) != e then ScanBlocks(cfg, blocks, e, threshold, n - 1, votes)
      else if |votes + {bh.group}| >= threshold then Some(bh.height)
      else ScanBlocks(cfg, blocks, e, threshold, n - 1, votes + {bh.group})
  }

  function ByBlocks(cfg: Config, blocks: seq<Header>, e: nat, threshold: nat): Option<nat> {
    ScanBlocks(cfg, blocks, e, threshold, |blocks|, {})
  }

  /** `threshold` groups of epoch `e` own blocks from index `k` on, but fewer do after it. */
  predicate QuorumFrom(cfg: Config, blocks: seq<Header>, e: nat, threshold: nat, k: nat) {
    && k < |blocks| && Epoch(cfg, blocks[k].height) == e
    && |Seen(cfg, blocks, e, k + 1, |blocks|)| < threshold <= |Seen(cfg, blocks, e, k, |blocks|)|
  }

  /** `r` is the height of the last block with `threshold` groups of its epoch on or after it. */
  ghost predicate IsQuorumHeight(cfg: Config, blocks: seq<Header>, e: nat, threshold: nat, r: Option<nat>) {
    match r
    case None => |Seen(cfg, blocks, e, 0, |blocks|)| < threshold
    case Some(c) => exists k: nat :: QuorumFrom(cfg, blocks, e, threshold, k) && blocks[k].height == c
  }

  lemma SeenNext(cfg: Config, blocks: seq<Header>, e: nat, i: nat, n: nat)
    requires i < n <= |blocks|
    ensures Seen(cfg, blocks, e, i, n)
            == Seen(cfg, blocks, e, i + 1, n) + if Epoch(cfg, blocks[i].height) == e then {blocks[i].group} else {}
  {
  }

  lemma {:induction false} ScanIsQuorum(cfg: Config, blocks: seq<Header>, e: nat, threshold: nat, n: nat, votes: set<Group>)
    requires n <= |blocks| && votes == Seen(cfg, blocks, e, n, |blocks|) && |votes| < threshold
    ensures IsQuorumHeight(cfg, blocks, e, threshold, ScanBlocks(cfg, blocks, e, threshold, n, votes))
    decreases n
  {
    if n > 0 {
      var m := n - 1;
      SeenNext(cfg, blocks, e, m, |blocks|);
      if Epoch(cfg, blocks[m].height) != e {
        assert votes + {} == votes;
        ScanIsQuorum(cfg, blocks, e, threshold, m, votes);
      } else {
        var next := votes + {blocks[m].group};
        if |next| >= threshold {
          assert QuorumFrom(cfg, blocks, e, threshold, m);
        } else {
          ScanIsQuorum(cfg, blocks, e, threshold, m, next);
        }
      }
    }
  }

  lemma BlocksGiveQuorum(cfg: Config, blocks: seq<Header>, e: nat, threshold: nat)
    requires threshold > 0
    ensures IsQuorumHeight(cfg, blocks, e, threshold, ByBlocks(cfg, blocks, e, threshold))
  {
    assert Seen(cfg, blocks, e, |blocks|, |blocks|) == {};
    ScanIsQuorum(cfg, blocks, e, threshold, |blocks|, {});
  }

  lemma QuorumFromUnique(cfg: Config, blocks: seq<Header>, e: nat, threshold: nat, k: nat, k': nat)
    requires QuorumFrom(cfg, blocks, e, threshold, k) && QuorumFrom(cfg, blocks, e, threshold, k')
    ensures k == k'
  {
    if k < k' { SeenGrows(cfg, blocks, e, k + 1, k', |blocks|, |blocks|); }
    if k' < k { SeenGrows(cfg, blocks, e, k' + 1, k, |blocks|, |blocks|); }
  }

  /** There is at most one such height. */
  lemma QuorumHeightUnique(cfg: Config, blocks: seq<Header>, e: nat, threshold: nat, r: Option<nat>, r': Option<nat>)
    requires IsQuorumHeight(cfg, blocks, e, threshold, r) && IsQuorumHeight(cfg, blocks, e, threshold, r')
    ensures r == r'
  {
    forall k: nat | QuorumFrom(cfg, blocks, e, threshold, k) ensures r.Some? && r'.Some? {
      SeenGrows(cfg, blocks, e, 0, k, |blocks|, |blocks|);
    }
    forall k: nat, k': nat | QuorumFrom(cfg, blocks, e, threshold, k) && QuorumFrom(cfg, blocks, e, threshold, k')
      ensures k == k'
    {
      QuorumFromUnique(cfg, blocks, e, threshold, k, k');
    }
  }

  // ----- The votes give the same height

  lemma {:induction false} CountSplit(a: seq<nat>, b: seq<nat>, x: nat)
    ensures CountFrom(a + b, x) == CountFrom(a, x) + CountFrom(b, x)
    decreases |b|
  {
    if b == [] {
      assert a + b == a;
    } else {
      CountSplit(a, b[..|b| - 1], x);
      assert (a + b)[..|a + b| - 1] == a + b[..|b| - 1];
    }
  }

  lemma {:induction false} CountAll(s: seq<nat>, x: nat)
    requires forall i :: 0 <= i < |s| ==> s[i] >= x
    ensures CountFrom(s, x) == |s|
    decreases |s|
  {
    if s != [] { CountAll(s[..|s| - 1], x); }
  }

  lemma {:induction false} CountNone(s: seq<nat>, x: nat)
    requires forall i :: 0 <= i < |s| ==> s[i] < x
    ensures CountFrom(s, x) == 0
    decreases |s|
  {
    if s != [] { CountNone(s[..|s| - 1], x); }
  }

  lemma {:induction false} CountFalls(s: seq<nat>, x: nat, y: nat)
    requires x <= y
    ensures CountFrom(s, y) <= CountFrom(s, x)
    decreases |s|
  {
    if s != [] { CountFalls(s[..|s| - 1], x, y); }
  }

  lemma {:induction false} InsertCount(s: seq<nat>, v: nat, x: nat)
    ensures CountFrom(Insert(s, v), x) == CountFrom(s, x) + if v >= x then 1 else 0
    decreases |s|
  {
    if s == [] || s[|s| - 1] <= v {
      CountSplit(s, [v], x);
    } else {
      var front := s[..|s| - 1];
      InsertCount(front, v, x);
      CountSplit(Insert(front, v), [s[|s| - 1]], x);
    }
  }

  lemma {:induction false} SortCount(s: seq<nat>, x: nat)
    ensures CountFrom(Sort(s), x) == CountFrom(s, x)
    decreases |s|
  {
    if s != [] {
      SortCount(s[..|s| - 1], x);
      InsertCount(Sort(s[..|s| - 1]), s[|s| - 1], x);
    }
  }

  lemma {:induction false} ValidCount(last: seq<u16>, x: nat)
    requires x > 0
    ensures CountFrom(ValidVotes(last), x) == CountFrom(last, x)
    ensures |ValidVotes(last)| == CountFrom(last, 1)
    decreases |last|
  {
    if last != [] {
      var rest := last[..|last| - 1];
      ValidCount(rest, x);
      CountSplit(ValidVotes(rest), [last[|last| - 1]], x);
    }
  }

  lemma CountBounds(s: seq<nat>, m: nat, x: nat)
    requires m <= |s|
    ensures (forall i :: m <= i < |s| ==> s[i] >= x) ==> CountFrom(s, x) >= |s| - m
    ensures (forall i :: 0 <= i < m ==> s[i] < x) ==> CountFrom(s, x) <= |s| - m
  {
    assert s == s[..m] + s[m..];
    CountSplit(s[..m], s[m..], x);
    if forall i :: m <= i < |s| ==> s[i] >= x { CountAll(s[m..], x); }
    if forall i :: 0 <= i < m ==> s[i] < x { CountNone(s[..m], x); }
  }

  /** In a sorted sequence the `t`-th element from the end has `t` elements from it on and fewer above it. */
  lemma SortedRank(s: seq<nat>, t: nat)
    requires Sorted(s) && 0 < t <= |s|
    ensures CountFrom(s, s[|s| - t]) >= t && CountFrom(s, s[|s| - t] + 1) < t
  {
    var m := |s| - t;
    forall i | m <= i < |s| ensures s[m] <= s[i] { assert m < i ==> AtMost(s[m], s[i]); }
    forall i | 0 <= i < m ensures s[i] <= s[m] { assert AtMost(s[i], s[m]); }
    CountBounds(s, m, s[m]);
    CountBounds(s, m + 1, s[m] + 1);
  }

  lemma {:induction false} CountGroups(last: seq<nat>, groups: seq<Group>, x: nat, owners: set<Group>)
    requires |last| == |groups| && Distinct(groups)
    requires forall i :: 0 <= i < |last| ==> (last[i] >= x <==> groups[i] in owners)
    requires forall g :: g in owners ==> g in groups
    ensures CountFrom(last, x) == |owners|
    decreases |last|
  {
    if last == [] {
      assert owners == {};
    } else {
      var m := |last| - 1;
      CountGroups(last[..m], groups[..m], x, owners - {groups[m]});
    }
  }

  lemma SeenOwners(cfg: Config, chain: seq<Header>, e: nat, k: nat, g: Group)
    requires Rising(chain) && k < |chain| && Epoch(cfg, chain[k].height) == e
    ensures g in Seen(cfg, chain, e, k, |chain|) <==>
            OwnsFrom(cfg, chain, |chain|, e, g, chain[k].height + 1 - EpochStart(cfg, e))
  {
    EpochBounds(cfg, chain[k].height);
    var x := chain[k].height + 1 - EpochStart(cfg, e);
    if g in Seen(cfg, chain, e, k, |chain|) {
      var j: nat :| k <= j < |chain| && Epoch(cfg, chain[j].height) == e && chain[j].group == g;
      assert chain[j].height + 1 >= EpochStart(cfg, e) + x;
    }
  }

  /** As many groups own a block from block `k` on as there are votes that reach it. */
  lemma SeenSize(cfg: Config, chain: seq<Header>, v: Votes, k: nat)
    requires ValidConfig(cfg) && IsChain(cfg, chain) && VotesExact(cfg, chain, |chain|, v)
    requires k < |chain| && Epoch(cfg, chain[k].height) == v.epoch
    ensures EpochStart(cfg, v.epoch) <= chain[k].height
    ensures |Seen(cfg, chain, v.epoch, k, |chain|)| == CountFrom(v.last, chain[k].height + 1 - EpochStart(cfg, v.epoch))
  {
    var e := v.epoch;
    EpochBounds(cfg, chain[k].height);
    var x := chain[k].height + 1 - EpochStart(cfg, e);
    var groups, owners := cfg.groups(e), Seen(cfg, chain, e, k, |chain|);
    forall i | 0 <= i < |v.last| ensures v.last[i] >= x <==> groups[i] in owners {
      SeenOwners(cfg, chain, e, k, groups[i]);
    }
    assert Distinct(groups);
    CountGroups(v.last, groups, x, owners);
  }

  /** Every vote is the offset of a block. */
  lemma VoteHasBlock(cfg: Config, chain: seq<Header>, v: Votes, i: nat) returns (k: nat)
    requires |chain| > 0 && VotesExact(cfg, chain, |chain|, v) && i < |v.last| && v.last[i] > 0
    ensures k < |chain| && Epoch(cfg, chain[k].height) == v.epoch
    ensures chain[k].height + 1 == EpochStart(cfg, v.epoch) + v.last[i]
  {
    var e, g := v.epoch, cfg.groups(v.epoch)[i];
    var x: nat := v.last[i];
    assert OwnsFrom(cfg, chain, |chain|, e, g, x) && !OwnsFrom(cfg, chain, |chain|, e, g, x + 1);
    k :| k < |chain| && chain[k].group == g && Epoch(cfg, chain[k].height) == e
         && chain[k].height + 1 >= EpochStart(cfg, e) + x;
  }

  lemma FewAfter(cfg: Config, chain: seq<Header>, v: Votes, lo: nat, x: nat, threshold: nat)
    requires ValidConfig(cfg) && IsChain(cfg, chain) && VotesExact(cfg, chain, |chain|, v)
    requires CountFrom(v.last, x) < threshold && lo <= |chain|
    requires forall j: nat :: lo <= j < |chain| && Epoch(cfg, chain[j].height) == v.epoch ==>
               chain[j].height + 1 >= EpochStart(cfg, v.epoch) + x
    ensures |Seen(cfg, chain, v.epoch, lo, |chain|)| < threshold
    decreases |chain| - lo
  {
    if lo < |chain| && Epoch(cfg, chain[lo].height) == v.epoch {
      SeenSize(cfg, chain, v, lo);
      CountFalls(v.last, x, chain[lo].height + 1 - EpochStart(cfg, v.epoch));
    } else if lo < |chain| {
      SeenNext(cfg, chain, v.epoch, lo, |chain|);
      assert Seen(cfg, chain, v.epoch, lo, |chain|) == Seen(cfg, chain, v.epoch, lo + 1, |chain|);
      FewAfter(cfg, chain, v, lo + 1, x, threshold);
    } else {
      assert Seen(cfg, chain, v.epoch, lo, |chain|) == {};
    }
  }

  lemma SortKeepsCounts(valid: seq<nat>, sorted: seq<nat>, x: nat)
    requires sorted == Sort(valid)
    ensures CountFrom(sorted, x) == CountFrom(valid, x) && CountFrom(sorted, x + 1) == CountFrom(valid, x + 1)
    ensures Sorted(sorted) && |sorted| == |valid| && forall i :: 0 <= i < |sorted| ==> sorted[i] in valid
  {
    SortCount(valid, x);
    SortCount(valid, x + 1);
    SortSorts(valid);
  }

  lemma VoteRank(last: seq<u16>, sorted: seq<nat>, threshold: nat)
    requires 0 < threshold <= |sorted| && sorted == Sort(ValidVotes(last))
    ensures var x := sorted[|sorted| - threshold];
            0 < x && x in last && CountFrom(last, x + 1) < threshold <= CountFrom(last, x)
  {
    var valid, x := ValidVotes(last), sorted[|sorted| - threshold];
    SortKeepsCounts(valid, sorted, x);
    ValidVotesAre(last);
    SortedRank(sorted, threshold);
    assert x in valid;
    ValidCount(last, x);
    ValidCount(last, x + 1);
  }

  lemma NoVoteQuorum(cfg: Config, chain: seq<Header>, v: Votes, threshold: nat)
    requires ValidConfig(cfg) && IsChain(cfg, chain) && VotesExact(cfg, chain, |chain|, v)
    requires |ValidVotes(v.last)| < threshold
    ensures |Seen(cfg, chain, v.epoch, 0, |chain|)| < threshold
  {
    ValidCount(v.last, 1);
    forall j: nat | j < |chain| && Epoch(cfg, chain[j].height) == v.epoch
      ensures chain[j].height + 1 >= EpochStart(cfg, v.epoch) + 1
    {
      EpochBounds(cfg, chain[j].height);
    }
    FewAfter(cfg, chain, v, 0, 1, threshold);
  }

  lemma VoteQuorum(cfg: Config, chain: seq<Header>, v: Votes, threshold: nat, x: nat) returns (k: nat)
    requires ValidConfig(cfg) && IsChain(cfg, chain) && VotesExact(cfg, chain, |chain|, v)
    requires 0 < x && x in v.last && CountFrom(v.last, x + 1) < threshold <= CountFrom(v.last, x)
    ensures QuorumFrom(cfg, chain, v.epoch, threshold, k) && chain[k].height == x + EpochStart(cfg, v.epoch) - 1
  {
    var i: nat :| i < |v.last| && v.last[i] == x;
    k := VoteHasBlock(cfg, chain, v, i);
    SeenSize(cfg, chain, v, k);
    FewAfter(cfg, chain, v, k + 1, x + 1, threshold);
  }

  /** The threshold-th highest vote is the height of the last block with a quorum on or after it. */
  lemma VotesGiveQuorum(cfg: Config, chain: seq<Header>, v: Votes, threshold: nat)
    requires ValidConfig(cfg) && IsChain(cfg, chain) && VotesExact(cfg, chain, |chain|, v) && threshold > 0
    ensures IsQuorumHeight(cfg, chain, v.epoch, threshold, ByVotes(cfg, v, v.epoch, threshold))
  {
    var valid := ValidVotes(v.last);
    if |valid| < threshold {
      NoVoteQuorum(cfg, chain, v, threshold);
    } else {
      VoteRank(v.last, Sort(valid), threshold);
      var k := VoteQuorum(cfg, chain, v, threshold, RankedVote(valid, threshold));
    }
  }

  lemma TailSeen(cfg: Config, chain: seq<Header>, lo: nat, e: nat, i: nat)
    requires lo + i <= |chain|
    ensures Seen(cfg, chain[lo..], e, i, |chain| - lo) == Seen(cfg, chain, e, lo + i, |chain|)
  {
    var tail := chain[lo..];
    forall g | g in Seen(cfg, chain, e, lo + i, |chain|) ensures g in Seen(cfg, tail, e, i, |tail|) {
      var j: nat :| lo + i <= j < |chain| && Epoch(cfg, chain[j].height) == e && chain[j].group == g;
      assert tail[j - lo] == chain[j];
    }
  }

  /** Blocks of other epochs in front make no difference. */
  lemma TailQuorum(cfg: Config, chain: seq<Header>, lo: nat, e: nat, threshold: nat, r: Option<nat>)
    requires lo <= |chain| && forall j: nat :: j < lo ==> Epoch(cfg, chain[j].height) != e
    requires IsQuorumHeight(cfg, chain[lo..], e, threshold, r)
    ensures IsQuorumHeight(cfg, chain, e, threshold, r)
  {
    match r
    case None =>
      TailSeen(cfg, chain, lo, e, 0);
      assert Seen(cfg, chain, e, 0, |chain|) == Seen(cfg, chain, e, lo, |chain|);
    case Some(c) =>
      var k: nat :| QuorumFrom(cfg, chain[lo..], e, threshold, k) && chain[lo..][k].height == c;
      TailSeen(cfg, chain, lo, e, k);
      TailSeen(cfg, chain, lo, e, k + 1);
      assert QuorumFrom(cfg, chain, e, threshold, lo + k);
  }

  /** The two computations agree: the stored votes and the backward scan over the epoch's blocks give the
      same height, also when the epoch has no block yet. */
  lemma VotesAgreeWithBlocks(cfg: Config, chain: seq<Header>, lo: nat, e: nat, threshold: nat)
    requires ValidConfig(cfg) && IsChain(cfg, chain) && threshold > 0
    requires lo <= |chain| && forall j: nat :: j < lo ==> Epoch(cfg, chain[j].height) != e
    requires Epoch(cfg, chain[|chain| - 1].height) <= e
    ensures VotesAt(cfg, chain, |chain|).Some?
    ensures ByVotes(cfg, VotesAt(cfg, chain, |chain|).value, e, threshold) == ByBlocks(cfg, chain[lo..], e, threshold)
    ensures IsQuorumHeight(cfg, chain, e, threshold, ByBlocks(cfg, chain[lo..], e, threshold))
  {
    VotesAreExact(cfg, chain, |chain|);
    var v := VotesAt(cfg, chain, |chain|).value;
    BlocksGiveQuorum(cfg, chain[lo..], e, threshold);
    TailQuorum(cfg, chain, lo, e, threshold, ByBlocks(cfg, chain[lo..], e, threshold));
    if e == v.epoch {
      VotesGiveQuorum(cfg, chain, v, threshold);
    } else {
      forall j: nat | j < |chain| ensures Epoch(cfg, chain[j].height) != e {
        EpochRises(cfg, chain[j].height, chain[|chain| - 1].height);
      }
      assert Seen(cfg, chain, e, 0, |chain|) == {};
    }
    QuorumHeightUnique(cfg, chain, e, threshold, ByVotes(cfg, v, e, threshold), ByBlocks(cfg, chain[lo..], e, threshold));
  }
}
