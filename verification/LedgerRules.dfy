/** What single operations do for those who stake, and what every run keeps of the rules for working miners. */
module LedgerRules {
  import opened Collections
  import opened MapSums
  import opened Ledger
  import opened LedgerStakes
  import opened LedgerGuards

  // ----- Stake goes in, comes out and is paid back

  /** Everything but `k`'s record, `dk`'s details and the source's balance stays. */
  ghost predicate OnlyFor(s: State, s': State, dk: StakeKey) {
    && (forall a {:trigger Balance(s', a)} :: a != dk.source ==> Balance(s', a) == Balance(s, a))
    && (forall j {:trigger MinerStake(s', j)} :: j != KeyOf(dk) ==> MinerStake(s', j) == MinerStake(s, j))
    && (forall d {:trigger DetailValue(s'.staked, d)} :: d != dk ==> DetailValue(s'.staked, d) == DetailValue(s.staked, d))
    && (forall d {:trigger DetailValue(s'.frozen, d)} :: d != dk ==> DetailValue(s'.frozen, d) == DetailValue(s.frozen, d))
  }

  lemma AddedMoves(s: State, dk: StakeKey, m: Miner, d: Detail, value: u64)
    requires 0 <= AdjustedTotal(s, KeyOf(dk), m) < TWO64 && value <= Balance(s, dk.source)
    ensures var s' := StakeAdded(s, dk, m, d, value);
            && OnlyFor(s, s', dk) && s'.frozen == s.frozen && Balance(s', dk.source) + value == Balance(s, dk.source)
            && MinerStake(s', KeyOf(dk)) == m.stake && DetailValue(s'.staked, dk) == d.value
  {
  }

  lemma RaisedWithin(s: State, dk: StakeKey, value: u64, keys: Keys, ctx: Context)
    requires StakeInv(s) && StakeAddCheck(s, dk, value, keys, ctx).Accepted?
    ensures value <= Balance(s, dk.source) && Accumulated(s.staked, dk, value, ctx.height).value == DetailValue(s.staked, dk) + value
    ensures RaisedMiner(s, dk, value, keys, ctx.height).stake == MinerStake(s, KeyOf(dk)) + value
            <= StakeLimit(s, KeyOf(dk), ctx.height)
  {
    SumsFit(s, dk, value);
  }

  /** A stake-add takes the value from the source, adds it to the miner and to the source's detail, and stays
      within the limit of the height. */
  lemma AddMoves(s: State, dk: StakeKey, value: u64, keys: Keys, ctx: Context, s': State)
    requires StakeInv(s) && StakeAdd(s, dk.source, dk.target, dk.role, value, keys, ctx) == Done(s')
    ensures StakeInv(s') && OnlyFor(s, s', dk) && s'.frozen == s.frozen
    ensures Balance(s', dk.source) + value == Balance(s, dk.source)
    ensures MinerStake(s', KeyOf(dk)) == MinerStake(s, KeyOf(dk)) + value <= StakeLimit(s, KeyOf(dk), ctx.height)
    ensures DetailValue(s'.staked, dk) == DetailValue(s.staked, dk) + value
  {
    assert StakeAddCheck(s, dk, value, keys, ctx).Accepted?;
    StakeAddKeeps(s, dk, value, keys, ctx);
    StakeAddIs(s, dk, value, keys, ctx);
    RaisedWithin(s, dk, value, keys, ctx);
    AddedMoves(s, dk, RaisedMiner(s, dk, value, keys, ctx.height), Accumulated(s.staked, dk, value, ctx.height), value);
  }

  lemma ReducedMoves(s: State, dk: StakeKey, m: Miner, value: u64, height: nat)
    requires dk in s.staked && value <= s.staked[dk].value && 0 <= AdjustedTotal(s, KeyOf(dk), m) < TWO64
    requires DetailValue(s.frozen, dk) + value < TWO64
    ensures var s' := StakeReduced(s, dk, m, value, height);
            && OnlyFor(s, s', dk) && s'.balances == s.balances && MinerStake(s', KeyOf(dk)) == m.stake
            && DetailValue(s'.staked, dk) + value == DetailValue(s.staked, dk)
            && DetailValue(s'.frozen, dk) == DetailValue(s.frozen, dk) + value
  {
  }

  /** A stake-reduce freezes what it takes out; the balance waits for the refund. */
  lemma ReduceMoves(s: State, dk: StakeKey, value: u64, ctx: Context, s': State)
    requires StakeInv(s) && StakeReduce(s, dk.source, dk.target, dk.role, value, ctx) == Done(s')
    ensures StakeInv(s') && OnlyFor(s, s', dk) && s'.balances == s.balances
    ensures MinerStake(s', KeyOf(dk)) + value == MinerStake(s, KeyOf(dk))
    ensures DetailValue(s'.staked, dk) + value == DetailValue(s.staked, dk)
    ensures DetailValue(s'.frozen, dk) == DetailValue(s.frozen, dk) + value
  {
    assert ReduceCheck(s, KeyOf(dk), value, ctx).Accepted?;
    MinerFacts(s, KeyOf(dk));
    if dk !in s.staked || s.staked[dk].value < value { StakeReduceRefused(s, dk, value, ctx); }
    StakeReduceKeeps(s, dk, value, ctx);
    StakeReduceIs(s, dk, value, ctx);
    SumsFit(s, dk, value);
    ReducedMoves(s, dk, LoweredMiner(s, dk, value, ctx.height), value, ctx.height);
  }

  /** A refund pays out everything frozen under the key, two days or more after it was frozen. */
  lemma RefundMoves(s: State, dk: StakeKey, ctx: Context, s': State)
    requires StakeRefund(s, dk.source, dk.target, dk.role, ctx) == Done(s')
    ensures OnlyFor(s, s', dk) && s'.miners == s.miners && s'.staked == s.staked && dk in s.frozen && dk !in s'.frozen
    ensures Balance(s', dk.source) == Balance(s, dk.source) + DetailValue(s.frozen, dk)
    ensures ctx.height > s.frozen[dk].height + 2 * ONE_DAY_BLOCKS
  {
  }

  /** Staking, taking the stake out and refunding it undo each other; what was frozen before is paid out too. */
  lemma StakeRoundTrip(
      s: State, dk: StakeKey, value: u64, keys: Keys, c1: Context, c2: Context, c3: Context, s1: State, s2: State, s3: State)
    requires StakeInv(s) && StakeAdd(s, dk.source, dk.target, dk.role, value, keys, c1) == Done(s1)
    requires StakeReduce(s1, dk.source, dk.target, dk.role, value, c2) == Done(s2)
    requires StakeRefund(s2, dk.source, dk.target, dk.role, c3) == Done(s3)
    ensures OnlyFor(s, s3, dk)
    ensures Balance(s3, dk.source) == Balance(s, dk.source) + DetailValue(s.frozen, dk)
    ensures MinerStake(s3, KeyOf(dk)) == MinerStake(s, KeyOf(dk))
    ensures DetailValue(s3.staked, dk) == DetailValue(s.staked, dk)
  {
    AddMoves(s, dk, value, keys, c1, s1);
    ReduceMoves(s1, dk, value, c2, s2);
    RefundMoves(s2, dk, c3, s3);
    OnlyTwice(s, s1, s2, dk);
    OnlyTwice(s, s2, s3, dk);
  }

  lemma OnlyTwice(s: State, s1: State, s2: State, dk: StakeKey)
    requires OnlyFor(s, s1, dk) && OnlyFor(s1, s2, dk)
    ensures OnlyFor(s, s2, dk)
  {
    forall a | a != dk.source ensures Balance(s2, a) == Balance(s, a) { assert Balance(s1, a) == Balance(s, a); }
    forall j | j != KeyOf(dk) ensures MinerStake(s2, j) == MinerStake(s, j) { assert MinerStake(s1, j) == MinerStake(s, j); }
    forall d | d != dk ensures DetailValue(s2.staked, d) == DetailValue(s.staked, d) {
      assert DetailValue(s1.staked, d) == DetailValue(s.staked, d);
    }
    forall d | d != dk ensures DetailValue(s2.frozen, d) == DetailValue(s.frozen, d) {
      assert DetailValue(s1.frozen, d) == DetailValue(s.frozen, d);
    }
  }

  // ----- Where a penalty goes

  lemma {:induction false} RewardEach(s: State, rewards: seq<Address>, each: nat, a: Address)
    ensures Balance(RewardAll(s, rewards, each), a) == Balance(s, a) + TimesValue(rewards, each)(a)
    decreases |rewards|
  {
    if rewards != [] {
      RewardEach(s, rewards[..|rewards| - 1], each, a);
      TimesLast(rewards, each, a);
    }
  }

  lemma {:induction false} RewardsOnlyPay(s: State, rewards: seq<Address>, each: nat)
    ensures RewardAll(s, rewards, each) == s.(balances := RewardAll(s, rewards, each).balances)
    decreases |rewards|
  {
    if rewards != [] { RewardsOnlyPay(s, rewards[..|rewards| - 1], each); }
  }

  /** The part of each rewardee; the product that it is cut from does not wrap. */
  function PartOf(targets: nat, rewards: nat, value: nat): nat {
    if rewards == 0 then 0 else value * targets / rewards
  }

  /** Every target loses the penalty as often as it is named, and every rewardee gets an equal part of the whole as
      often as it is named. */
  lemma PenaltyMoves(s: State, targets: seq<Address>, rewards: seq<Address>, value: u64, ctx: Context, s': State, a: Address)
    requires StakeInv(s) && value > 0 && MinerPenalty(s, targets, rewards, value, ctx) == Done(s')
    ensures VerifierStakeOf(s', a) + TimesValue(targets, value)(a) == VerifierStakeOf(s, a)
    ensures Balance(s', a) == Balance(s, a) + TimesValue(rewards, PartOf(|targets|, |rewards|, value))(a)
    ensures s'.frozen == s.frozen
  {
    PenalizeAllKeeps(s, targets, value, ctx.height);
    var s1 := PenalizeAll(s, targets, value, ctx.height).st;
    assert VerifierStakeOf(s1, a) + TimesValue(targets, value)(a) == VerifierStakeOf(s, a);
    RewardEach(s1, rewards, PartOf(|targets|, |rewards|, value), a);
    RewardsOnlyPay(s1, rewards, PartOf(|targets|, |rewards|, value));
    ShareExact(|targets|, |rewards|, value);
  }

  lemma ShareExact(targets: nat, rewards: nat, value: u64)
    requires value * targets < TWO64
    ensures rewards > 0 ==> PenaltyShare(targets, rewards, value) == PartOf(targets, rewards, value)
  {
  }

  // ----- The stake limit

  lemma {:induction false} GrowthRises(n: nat, n': nat)
    requires n <= n'
    ensures StakeGrowth(n) <= StakeGrowth(n')
    decreases n'
  {
    if n < n' { GrowthRises(n, n' - 1); }
  }

  /** The limit only rises with the height, from 2.5 million to at most 8.125 million coins. */
  lemma LimitRises(h: nat, h': nat)
    requires h <= h'
    ensures INIT_MAX_STAKE <= MaxStake(h) <= MaxStake(h') <= 8_125_000 * ZVC
  {
    var p, p' := h / STAKE_ADJUST_PERIOD, h' / STAKE_ADJUST_PERIOD;
    var n := if p > STAKE_ADJUST_TIMES then STAKE_ADJUST_TIMES else p;
    var n' := if p' > STAKE_ADJUST_TIMES then STAKE_ADJUST_TIMES else p';
    GrowthRises(0, n);
    GrowthRises(n, n');
    GrowthRises(n', STAKE_ADJUST_TIMES);
    LastGrowth();
  }

  lemma LastGrowth()
    ensures StakeGrowth(12) == 5_625_000 * ZVC
  {
    assert ShiftRight(125_000 * ZVC, 0) == 125_000 * ZVC;
    assert ShiftRight(250_000 * ZVC, 1) == 125_000 * ZVC && ShiftRight(250_000 * ZVC, 0) == 250_000 * ZVC;
    assert ShiftRight(500_000 * ZVC, 2) == 125_000 * ZVC && ShiftRight(500_000 * ZVC, 1) == 250_000 * ZVC;
    assert ShiftRight(INIT_STAKE_ADD, 3) == 125_000 * ZVC;
    assert ShiftRight(INIT_STAKE_ADD, 2) == 250_000 * ZVC;
    assert ShiftRight(INIT_STAKE_ADD, 1) == 500_000 * ZVC;
    assert StakeGrowth(3) == 3_000_000 * ZVC;
    assert StakeGrowth(6) == 4_500_000 * ZVC;
    assert StakeGrowth(9) == 5_250_000 * ZVC;
  }

  // ----- Working miners

  /** A miner that works has keys and the minimum stake. */
  predicate MayWork(m: Miner) {
    m.status.Active? ==> m.keys.Keys? && m.stake >= MIN_MINER_STAKE
  }

  ghost predicate WorkersMayWork(miners: map<MinerKey, Miner>) {
    forall k {:trigger miners[k]} :: k in miners ==> MayWork(miners[k])
  }

  ghost predicate StaysFit(o: Outcome) {
    o.Done? ==> WorkersMayWork(o.st.miners)
  }

  lemma FitPut(miners: map<MinerKey, Miner>, k: MinerKey, m: Miner)
    requires WorkersMayWork(miners) && MayWork(m)
    ensures WorkersMayWork(miners[k := m])
  {
  }

  lemma AddFit(s: State, dk: StakeKey, value: u64, keys: Keys, ctx: Context)
    requires StakeInv(s) && WorkersMayWork(s.miners)
    ensures StaysFit(StakeAdd(s, dk.source, dk.target, dk.role, value, keys, ctx))
  {
    if StakeAdd(s, dk.source, dk.target, dk.role, value, keys, ctx).Done? {
      assert StakeAddCheck(s, dk, value, keys, ctx).Accepted?;
      StakeAddIs(s, dk, value, keys, ctx);
      RaisedWithin(s, dk, value, keys, ctx);
      FitPut(s.miners, KeyOf(dk), RaisedMiner(s, dk, value, keys, ctx.height));
    }
  }

  lemma ReduceFit(s: State, dk: StakeKey, value: u64, ctx: Context)
    requires StakeInv(s) && WorkersMayWork(s.miners)
    ensures StaysFit(StakeReduce(s, dk.source, dk.target, dk.role, value, ctx))
  {
    if StakeReduce(s, dk.source, dk.target, dk.role, value, ctx).Done? {
      assert ReduceCheck(s, KeyOf(dk), value, ctx).Accepted?;
      MinerFacts(s, KeyOf(dk));
      if dk !in s.staked || s.staked[dk].value < value { StakeReduceRefused(s, dk, value, ctx); }
      StakeReduceIs(s, dk, value, ctx);
      FitPut(s.miners, KeyOf(dk), LoweredMiner(s, dk, value, ctx.height));
    }
  }

  lemma UnpoolFit(s: State, k: MinerKey, m: Miner)
    requires WorkersMayWork(s.miners) && k in s.miners && !m.status.Active?
    ensures Unpool(s, k).Done? ==> WorkersMayWork(SetMiner(Unpool(s, k).st, k, m).miners)
  {
    if Unpool(s, k).Done? { UnpoolFrame(s, k); }
  }

  lemma PenalizeFit(s: State, a: Address, value: u64, height: nat)
    requires WorkersMayWork(s.miners)
    ensures StaysFit(Penalize(s, a, value, height))
  {
    if Penalize(s, a, value, height).Done? {
      PenalizeRecords(s, a, value, height);
      FitPut(s.miners, MinerKey(a, Verify), PenalizedMiner(s, a, value, height));
    }
  }

  lemma {:induction false} PenalizeAllFit(s: State, targets: seq<Address>, value: u64, height: nat)
    requires WorkersMayWork(s.miners)
    ensures StaysFit(PenalizeAll(s, targets, value, height))
    decreases |targets|
  {
    if targets != [] {
      var front := PenalizeAll(s, targets[..|targets| - 1], value, height);
      PenalizeAllFit(s, targets[..|targets| - 1], value, height);
      if front.Done? { PenalizeFit(front.st, targets[|targets| - 1], value, height); }
    }
  }

  lemma PenaltyFit(s: State, targets: seq<Address>, rewards: seq<Address>, value: u64, ctx: Context)
    requires WorkersMayWork(s.miners)
    ensures StaysFit(MinerPenalty(s, targets, rewards, value, ctx))
  {
    PenalizeAllFit(s, targets, value, ctx.height);
    var o := PenalizeAll(s, targets, value, ctx.height);
    if o.Done? && rewards != [] { RewardsOnlyPay(o.st, rewards, PenaltyShare(|targets|, |rewards|, value)); }
  }

  lemma ReduceTicketFit(s: State, a: Address, height: nat)
    requires WorkersMayWork(s.miners)
    ensures StaysFit(ReduceTicket(s, a, height))
  {
    var left := if Tickets(s, a) < 1 then 0 else Tickets(s, a) - 1;
    var s1 := s.(tickets := s.tickets[a := left]);
    var k := MinerKey(a, Proposal);
    if k in s.miners { UnpoolFit(s1, k, DemotedMiner(s.miners[k], height)); }
  }

  lemma VoteFit(s: State, source: Address, target: Address, ctx: Context)
    requires WorkersMayWork(s.miners)
    ensures StaysFit(Vote(s, source, target, ctx))
  {
    var prior := if source in s.votes then s.votes[source].target else ZERO_ADDRESS;
    var s1 := s.(votes := s.votes[source := VoteInfo(target, ctx.height)]);
    ReduceTicketFit(s1, prior, ctx.height);
    if MoveTicket(s1, prior, target, ctx.height).Done? {
      FitPut(MoveTicket(s1, prior, target, ctx.height).st.miners, MinerKey(target, Proposal),
             PromotedMiner(s, target, ctx.height));
    }
  }

  lemma ExpireFit(s: State, a: Address, height: nat, isFund: bool)
    requires WorkersMayWork(s.miners)
    ensures StaysFit(ExpireGuard(s, a, height, isFund))
  {
    var k := MinerKey(a, Proposal);
    if k in s.miners {
      var s1 := SetMiner(s, k, WithIdentity(s.miners[k], Normal, height));
      FitPut(s.miners, k, WithIdentity(s.miners[k], Normal, height));
      var s2 := if isFund then s1 else s1.(fullStake := s1.fullStake - {a});
      if a in s2.votes { ReduceTicketFit(s2.(votes := s2.votes - {a}), s2.votes[a].target, height); }
    }
  }

  lemma {:induction false} ExpireAllFit(s: State, addrs: seq<Address>, height: nat, isFund: bool)
    requires WorkersMayWork(s.miners)
    ensures StaysFit(ExpireGuards(s, addrs, height, isFund))
    decreases |addrs|
  {
    if addrs != [] {
      var front := ExpireGuards(s, addrs[..|addrs| - 1], height, isFund);
      ExpireAllFit(s, addrs[..|addrs| - 1], height, isFund);
      if front.Done? { ExpireFit(front.st, addrs[|addrs| - 1], height, isFund); }
    }
  }

  lemma FullStakePassFit(s: State, height: nat)
    requires WorkersMayWork(s.miners)
    ensures StaysFit(FullStakePass(s, height))
  {
    var addrs := Listing(s.fullStake);
    if forall a :: a in addrs ==> StakeKey(a, a, Proposal) in s.staked {
      ExpireAllFit(MarkNotFull(s, addrs, height), ExpiredAmong(s, addrs, height), height, false);
    }
  }

  lemma FundPassFit(s: State, height: nat)
    requires WorkersMayWork(s.miners)
    ensures StaysFit(FundPass(s, height))
  {
    var s1 := RetireFunds(s, DueFunds(s, height), height).(
                scannedSixAddFive := s.scannedSixAddFive || ScanSixAddFive(s, height),
                scannedSixAddSix := s.scannedSixAddSix || ScanSixAddSix(s, height));
    ExpireAllFit(s1, DueListing(s, height), height, true);
  }

  lemma GuardCheckFit(s: State, height: nat)
    requires WorkersMayWork(s.miners)
    ensures StaysFit(GuardCheck(s, height))
  {
    FullStakePassFit(s, height);
    FundPassFit(OrRevert(FullStakePass(s, height), s), height);
  }

  lemma BecomeFullGuardFrame(s: State, a: Address, was: Identity, height: nat)
    requires StakeKey(a, a, Proposal) in s.staked
    ensures BecomeFullGuard(s, a, was, height).Done? ==> BecomeFullGuard(s, a, was, height).st.miners == s.miners
  {
  }

  lemma ApplyFit(s: State, a: Address, ctx: Context)
    requires WorkersMayWork(s.miners)
    ensures StaysFit(ApplyGuard(s, a, ctx))
  {
    var k := MinerKey(a, Proposal);
    if k in s.miners && StakeKey(a, a, Proposal) in s.staked {
      var m := WithIdentity(s.miners[k], Guard, ctx.height);
      BecomeFullGuardFrame(SetMiner(s, k, m), a, s.miners[k].identity, ctx.height);
      FitPut(s.miners, k, m);
    }
  }

  lemma StepFit(s: State, op: Op, ctx: Context)
    requires StakeInv(s) && WorkersMayWork(s.miners)
    ensures WorkersMayWork(Execute(s, op, ctx).miners)
  {
    match op
    case OpStakeAdd(source, target, role, value, keys) => AddFit(s, StakeKey(target, source, role), value, keys, ctx);
    case OpStakeReduce(source, target, role, value) => ReduceFit(s, StakeKey(target, source, role), value, ctx);
    case OpStakeRefund(_, _, _) =>
    case OpMinerAbort(addr, role) => AbortFit(s, addr, role, ctx);
    case OpMinerFreeze(addr) => FreezeFit(s, addr, ctx);
    case OpMinerPenalty(targets, rewards) => PenaltyFit(s, targets, rewards, MIN_MINER_STAKE, ctx);
    case OpVote(source, target) => VoteFit(s, source, target, ctx);
    case OpApplyGuard(addr) => ApplyFit(s, addr, ctx);
    case OpChangeFundMode(_, _) =>
    case OpGuardCheck => GuardCheckFit(s, ctx.height);
  }

  lemma AbortFit(s: State, a: Address, role: Role, ctx: Context)
    requires WorkersMayWork(s.miners)
    ensures StaysFit(MinerAbort(s, a, role, ctx))
  {
    var k := MinerKey(a, role);
    if k in s.miners { UnpoolFit(s, k, WithStatus(s.miners[k], Prepare, ctx.height)); }
  }

  lemma FreezeFit(s: State, a: Address, ctx: Context)
    requires WorkersMayWork(s.miners)
    ensures StaysFit(MinerFreeze(s, a, ctx))
  {
    var k := MinerKey(a, Verify);
    if k in s.miners { UnpoolFit(s, k, WithStatus(s.miners[k], Frozen, ctx.height)); }
  }

  /** Whatever happens, a miner that works keeps at least the minimum stake and has its keys. */
  lemma {:induction false} RunKeepsWorkers(s: State, steps: seq<Step>)
    requires StakeInv(s) && WorkersMayWork(s.miners)
    ensures WorkersMayWork(Run(s, steps).miners)
    decreases |steps|
  {
    if steps != [] {
      var front, last := steps[..|steps| - 1], steps[|steps| - 1];
      RunKeepsStakes(s, front);
      RunKeepsWorkers(s, front);
      StepFit(Run(s, front), last.op, last.ctx);
    }
  }

  lemma {:induction false} InstalledFit(s: State, guards: seq<Address>)
    requires WorkersMayWork(s.miners)
    ensures WorkersMayWork(InstallGuards(s, guards).miners)
    decreases |guards|
  {
    if guards != [] { InstalledFit(s, guards[..|guards| - 1]); }
  }

  /** In every ledger that a chain can reach, each working miner has keys and at least the minimum stake. */
  lemma ReachableWorkers(balances: map<Address, nat>, genesis: seq<Step>, guards: seq<Address>, steps: seq<Step>)
    requires Total(balances) < TWO64
    requires forall i :: 0 <= i < |genesis| ==> genesis[i].ctx.height == 0
    requires forall g :: g in guards ==> Installable(Run(EmptyLedger(balances), genesis), g)
    ensures WorkersMayWork(Run(InstallGuards(Run(EmptyLedger(balances), genesis), guards), steps).miners)
  {
    var s := Run(EmptyLedger(balances), genesis);
    EmptyLedgerInv(balances);
    RunKeepsWorkers(EmptyLedger(balances), genesis);
    InstalledFit(s, guards);
    GenesisInv(balances, genesis);
    InstallGuardsExactly(s, guards);
    RunKeepsWorkers(InstallGuards(s, guards), steps);
  }

  /** A genesis miner that is also named as a fund guard breaks the invariant: its stake stays in the details and in
      the supply, but its record is lost. */
  lemma StakedGuardBreaks(a: Address, platform: Address)
    ensures var ctx := Context(0, platform, {});
            var s := Run(EmptyLedger(map[a := MIN_MINER_STAKE]), [Step(OpStakeAdd(a, a, Proposal, MIN_MINER_STAKE, NoKeys), ctx)]);
            !Inv(InstallGuards(s, [a]), 0)
  {
    var ctx, dk := Context(0, platform, {}), StakeKey(a, a, Proposal);
    var s0, steps := EmptyLedger(map[a := MIN_MINER_STAKE]), [Step(OpStakeAdd(a, a, Proposal, MIN_MINER_STAKE, NoKeys), ctx)];
    assert map[a := MIN_MINER_STAKE] == map[][a := MIN_MINER_STAKE];
    TotalInsert(map[], a, MIN_MINER_STAKE);
    GenesisInv(s0.balances, steps);
    EmptyLedgerInv(s0.balances);
    LimitRises(0, 0);
    assert StakeAddCheck(s0, dk, MIN_MINER_STAKE, NoKeys, ctx).Accepted?;
    StakeAddIs(s0, dk, MIN_MINER_STAKE, NoKeys, ctx);
    var o := StakeAdd(s0, a, a, Proposal, MIN_MINER_STAKE, NoKeys, ctx);
    assert !o.Rejected?;
    AddMoves(s0, dk, MIN_MINER_STAKE, NoKeys, ctx, o.st);
    assert steps[..0] == [];
    assert Run(s0, steps) == o.st;
    InstallGuardsExactly(o.st, [a]);
    assert a in [a] && !Installable(o.st, a);
  }
}
