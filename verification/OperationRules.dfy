/** When each miner operation succeeds, and what it then does to the records, with all bounds written out. */
module OperationRules {
  import opened Collections
  import opened Ledger
  import opened LedgerStakes
  import opened LedgerGuards
  import opened LedgerRules

  // ----- The stake limit

  /** The limit in thousands of coins, ten million heights at a time: it starts at 2.5 million and grows by a million
      three times, then by half a million, a quarter and an eighth three times each. */
  lemma LimitTable(height: nat)
    ensures MaxStake(height) == ZVC *
      match if height / 10_000_000 > 12 then 12 else height / 10_000_000
      case 0 => 2_500_000 case 1 => 3_500_000 case 2 => 4_500_000 case 3 => 5_500_000
      case 4 => 6_000_000 case 5 => 6_500_000 case 6 => 7_000_000
      case 7 => 7_250_000 case 8 => 7_500_000 case 9 => 7_750_000
      case 10 => 7_875_000 case 11 => 8_000_000 case _ => 8_125_000
  {
    GrowthTable();
  }

  lemma GrowthTable()
    ensures StakeGrowth(0) == 0 && StakeGrowth(1) == 1_000_000 * ZVC && StakeGrowth(2) == 2_000_000 * ZVC
    ensures StakeGrowth(3) == 3_000_000 * ZVC && StakeGrowth(4) == 3_500_000 * ZVC && StakeGrowth(5) == 4_000_000 * ZVC
    ensures StakeGrowth(6) == 4_500_000 * ZVC && StakeGrowth(7) == 4_750_000 * ZVC && StakeGrowth(8) == 5_000_000 * ZVC
    ensures StakeGrowth(9) == 5_250_000 * ZVC && StakeGrowth(10) == 5_375_000 * ZVC && StakeGrowth(11) == 5_500_000 * ZVC
    ensures StakeGrowth(12) == 5_625_000 * ZVC
  {
    assert ShiftRight(INIT_STAKE_ADD, 0) == 1_000_000 * ZVC;
    assert ShiftRight(250_000 * ZVC, 1) == ShiftRight(125_000 * ZVC, 0) == 125_000 * ZVC;
    assert ShiftRight(500_000 * ZVC, 2) == 125_000 * ZVC;
    assert ShiftRight(INIT_STAKE_ADD, 3) == 125_000 * ZVC;
    assert ShiftRight(500_000 * ZVC, 1) == ShiftRight(250_000 * ZVC, 0) == 250_000 * ZVC;
    assert ShiftRight(INIT_STAKE_ADD, 2) == 250_000 * ZVC;
    assert ShiftRight(INIT_STAKE_ADD, 1) == ShiftRight(500_000 * ZVC, 0) == 500_000 * ZVC;
  }

  // ----- Adding stake

  /** Verifiers and guards stake for themselves only. A normal proposer is also staked for by the platform and by miner
      pools, a miner pool by anyone but another pool, and an invalid pool by nobody. */
  predicate MayStakeFor(s: State, source: Address, target: Address, role: Role, platform: Address) {
    || (source == target && (role.Verify? || !IdentityOf(s, target).InvalidPool?))
    || (source != target && role.Proposal? && IdentityOf(s, target).Normal?
        && (source == platform || IdentityOf(s, source).MinerPool?))
    || (source != target && role.Proposal? && IdentityOf(s, target).MinerPool? && !IdentityOf(s, source).MinerPool?)
  }

  /** The most that a miner may have staked. */
  function Cap(s: State, k: MinerKey, height: nat): nat {
    if k.role.Proposal? && IdentityOf(s, k.addr).MinerPool? then MaxStake(height) * NeedTickets(height) else MaxStake(height)
  }

  lemma CheckExactly(s: State, dk: StakeKey, value: u64, keys: Keys, ctx: Context)
    requires StakeInv(s)
    ensures StakeAddCheck(s, dk, value, keys, ctx).Accepted? <==>
              && MayStakeFor(s, dk.source, dk.target, dk.role, ctx.platform)
              && value <= Balance(s, dk.source)
              && (KeyOf(dk) in s.miners ==> !s.miners[KeyOf(dk)].status.Frozen?)
              && MinerStake(s, KeyOf(dk)) + value <= Cap(s, KeyOf(dk), ctx.height)
  {
    SumsFit(s, dk, value);
  }

  /** No refusal, and the stakes stay. */
  ghost predicate StakesStay(s: State, o: Outcome) {
    !o.Rejected? && (o.Done? ==> o.st.staked == s.staked)
  }

  ghost function SavedIn(o: Outcome, k: MinerKey, m: Miner): Outcome {
    if o.Done? then Done(SetMiner(o.st, k, m)) else o
  }

  lemma SavedStay(s: State, o: Outcome, k: MinerKey, m: Miner)
    requires StakesStay(s, o)
    ensures StakesStay(s, SavedIn(o, k, m))
  {
  }

  lemma SaveActive(s: State, k: MinerKey, m: Miner, value: u64, height: nat)
    requires m.status.Active?
    ensures StakesStay(s, SaveStakedMiner(s, k, m, value, height))
  {
    var o := if k.role.Proposal? then AddProposalTotal(s, value) else Done(s);
    TotalFrame(s, value);
    SavedStay(s, o, k, m);
    assert SaveStakedMiner(s, k, m, value, height) == SavedIn(o, k, m);
  }

  lemma SaveJoining(s: State, k: MinerKey, m: Miner, value: u64, height: nat)
    requires !m.status.Active? && m.keys.Keys? && m.stake >= MIN_MINER_STAKE
    ensures StakesStay(s, SaveStakedMiner(s, k, m, value, height))
  {
    var o := AddToPool(s, k, m.stake);
    PoolFrame(s, k, m.stake);
    SavedStay(s, o, k, WithStatus(m, Active, height));
    assert SaveStakedMiner(s, k, m, value, height) == SavedIn(o, k, WithStatus(m, Active, height));
  }

  lemma SaveFrame(s: State, k: MinerKey, m: Miner, value: u64, height: nat)
    ensures StakesStay(s, SaveStakedMiner(s, k, m, value, height))
  {
    if m.status.Active? {
      SaveActive(s, k, m, value, height);
    } else if m.keys.Keys? && m.stake >= MIN_MINER_STAKE {
      SaveJoining(s, k, m, value, height);
    }
  }

  lemma PoolFrame(s: State, k: MinerKey, stake: u64)
    ensures StakesStay(s, AddToPool(s, k, stake))
  {
    TotalFrame(s, stake);
  }

  lemma TotalFrame(s: State, stake: u64)
    ensures AddProposalTotal(s, stake) == Panic || AddProposalTotal(s, stake) == Done(s.(proposalTotal := Add64(stake, s.proposalTotal)))
  {
  }

  /** A stake-add succeeds if and only if the source may stake for the target and can pay, the target is not frozen, and
      its stake stays within the cap. */
  lemma StakeAddExactly(s: State, dk: StakeKey, value: u64, keys: Keys, ctx: Context)
    requires StakeInv(s)
    ensures StakeAdd(s, dk.source, dk.target, dk.role, value, keys, ctx).Done? <==>
              && MayStakeFor(s, dk.source, dk.target, dk.role, ctx.platform)
              && value <= Balance(s, dk.source)
              && (KeyOf(dk) in s.miners ==> !s.miners[KeyOf(dk)].status.Frozen?)
              && MinerStake(s, KeyOf(dk)) + value <= Cap(s, KeyOf(dk), ctx.height)
  {
    CheckExactly(s, dk, value, keys, ctx);
    StakeAddKeeps(s, dk, value, keys, ctx);
    if StakeAddCheck(s, dk, value, keys, ctx).Accepted? {
      SumsFit(s, dk, value);
      SaveFrame(Debit(s, dk.source, value), KeyOf(dk), StakedMiner(s, KeyOf(dk), dk.source, value, keys, ctx.height), value,
                ctx.height);
    }
  }

  /** The other records are as before. */
  ghost predicate OnlyRecord(s: State, s': State, k: MinerKey) {
    && k in s'.miners && s'.miners.Keys == s.miners.Keys + {k}
    && forall j :: j in s.miners && j != k ==> s'.miners[j] == s.miners[j]
  }

  /** After a stake-add the target has the keys given by itself, or those it had, and works exactly if it worked or now
      has keys and the minimum stake; its identity stays. */
  lemma StakeAddRecords(s: State, dk: StakeKey, value: u64, keys: Keys, ctx: Context, s': State)
    requires StakeInv(s) && StakeAdd(s, dk.source, dk.target, dk.role, value, keys, ctx) == Done(s')
    ensures OnlyRecord(s, s', KeyOf(dk))
    ensures var k, was := KeyOf(dk), KeyOf(dk) in s.miners;
            var m := s'.miners[k];
            && m.keys == (if dk.source == dk.target && keys.Keys? then keys else if was then s.miners[k].keys else NoKeys)
            && m.identity == (if was then s.miners[k].identity else Normal)
            && (m.status.Active? <==> (was && s.miners[k].status.Active?) || (m.keys.Keys? && m.stake >= 500 * ZVC))
            && (k in s'.pool <==> m.status.Active?)
  {
    assert StakeAddCheck(s, dk, value, keys, ctx).Accepted?;
    StakeAddIs(s, dk, value, keys, ctx);
    StakeAddKeeps(s, dk, value, keys, ctx);
    assert s'.miners == s.miners[KeyOf(dk) := RaisedMiner(s, dk, value, keys, ctx.height)];
  }

  // ----- Taking stake out

  /** A stake-reduce succeeds if and only if the miner is known and not frozen, the source has that much staked with it,
      the stake is no longer bound by a guard's term, and a verifier that would fall below the minimum neither works
      nor is in a live group. */
  lemma StakeReduceExactly(s: State, dk: StakeKey, value: u64, ctx: Context)
    requires StakeInv(s)
    ensures StakeReduce(s, dk.source, dk.target, dk.role, value, ctx).Done? <==>
              && KeyOf(dk) in s.miners && !s.miners[KeyOf(dk)].status.Frozen?
              && dk in s.staked && value <= s.staked[dk].value && ctx.height >= s.staked[dk].dismissHeight
              && (dk.role.Proposal? || s.miners[KeyOf(dk)].stake - value >= 500 * ZVC
                  || (!s.miners[KeyOf(dk)].status.Active? && dk.target !in ctx.liveMembers))
  {
    var k := KeyOf(dk);
    MinerFacts(s, k);
    StakeReduceKeeps(s, dk, value, ctx);
    if k in s.miners && value <= s.miners[k].stake {
      if dk !in s.staked || s.staked[dk].value < value {
        StakeReduceRefused(s, dk, value, ctx);
      } else if ReduceCheck(s, k, value, ctx).Accepted? {
        CutExactly(s, dk, value, ctx.height);
      }
    }
  }

  lemma CutExactly(s: State, dk: StakeKey, value: u64, height: nat)
    requires StakeInv(s) && KeyOf(dk) in s.miners && value <= s.miners[KeyOf(dk)].stake
    requires dk in s.staked && value <= s.staked[dk].value
    ensures CutStake(s, dk, value, height).Done? <==> height >= s.staked[dk].dismissHeight
  {
    MinerFacts(s, KeyOf(dk));
    var m := LoweredMiner(s, dk, value, height);
    SavedReduced(s, KeyOf(dk), s.miners[KeyOf(dk)].(stake := s.miners[KeyOf(dk)].stake - value), value, height);
    var s1 := SetMiner(Repooled(s, KeyOf(dk), m), KeyOf(dk), m);
    CutInTwo(s, dk, value, height, s1);
    assert s1.staked == s.staked;
  }

  /** A stake-reduce sends a proposer home that falls below the minimum; otherwise status, keys and identity stay. */
  lemma StakeReduceRecords(s: State, dk: StakeKey, value: u64, ctx: Context, s': State)
    requires StakeInv(s) && StakeReduce(s, dk.source, dk.target, dk.role, value, ctx) == Done(s')
    ensures KeyOf(dk) in s.miners && OnlyRecord(s, s', KeyOf(dk))
    ensures var m, m' := s.miners[KeyOf(dk)], s'.miners[KeyOf(dk)];
            && m'.keys == m.keys && m'.identity == m.identity && m'.stake + value == m.stake
            && m'.status == (if m.status.Active? && dk.role.Proposal? && m'.stake < 500 * ZVC then Prepare else m.status)
            && (KeyOf(dk) in s'.pool <==> m'.status.Active?)
  {
    StakeReduceExactly(s, dk, value, ctx);
    MinerFacts(s, KeyOf(dk));
    StakeReduceKeeps(s, dk, value, ctx);
    StakeReduceIs(s, dk, value, ctx);
    assert s'.miners == s.miners[KeyOf(dk) := LoweredMiner(s, dk, value, ctx.height)];
  }

  /** A refund succeeds if and only if something is frozen and its time is over: two days of blocks, or ninety days for
      stake frozen since ZIP003, except the platform's, until ZIP004. */
  lemma RefundExactly(s: State, dk: StakeKey, ctx: Context)
    ensures StakeRefund(s, dk.source, dk.target, dk.role, ctx).Done? <==>
              && dk in s.frozen
              && ctx.height > s.frozen[dk].height + 28_800 *
                   if ctx.height < 7_583_800 && s.frozen[dk].height >= 4_945_537 && dk.source != ctx.platform then 90 else 2
  {
  }

  // ----- Leaving, freezing, penalties

  /** The record of `k` gets the status, and `k` is out of the pool; no other record, no stake and no list changes. */
  ghost predicate SentHome(s: State, s': State, k: MinerKey, status: MinerStatus, height: nat) {
    && k in s.miners && s'.miners == s.miners[k := s.miners[k].(status := status, statusHeight := height)]
    && s'.pool == s.pool - {k}
    && s' == s.(miners := s'.miners, pool := s'.pool, proposalTotal := s'.proposalTotal)
  }

  lemma HomeIs(s: State, k: MinerKey, status: MinerStatus, height: nat)
    requires StakeInv(s) && k in s.miners && !status.Active?
    ensures Unpool(s, k).Done?
    ensures SentHome(s, SetMiner(Unpool(s, k).st, k, WithStatus(s.miners[k], status, height)), k, status, height)
  {
    UnpoolIs(s, k, WithStatus(s.miners[k], status, height));
    UnpoolFrame(s, k);
    assert s.miners[k].status.Active? ==> Unpool(s, k).st.pool == s.pool - {k};
    assert !s.miners[k].status.Active? ==> k !in s.pool && s.pool - {k} == s.pool;
  }

  /** An abort succeeds if and only if the miner is known, at work or frozen for more than an hour of blocks, and no
      invalid pool; it then is at rest. */
  lemma AbortExactly(s: State, a: Address, role: Role, ctx: Context)
    requires StakeInv(s)
    ensures var k, o := MinerKey(a, role), MinerAbort(s, a, role, ctx);
            && (o.Done? <==>
                  && k in s.miners && !s.miners[k].status.Prepare?
                  && (role.Proposal? ==> !IdentityOf(s, a).InvalidPool?)
                  && (s.miners[k].status.Frozen? ==> ctx.height > s.miners[k].statusHeight + 1200))
            && (o.Done? ==> SentHome(s, o.st, k, Prepare, ctx.height))
  {
    var k := MinerKey(a, role);
    if k in s.miners { HomeIs(s, k, Prepare, ctx.height); }
  }

  /** A freeze succeeds if and only if the verifier is known and not frozen yet; it then is frozen. */
  lemma FreezeExactly(s: State, a: Address, ctx: Context)
    requires StakeInv(s)
    ensures var k, o := MinerKey(a, Verify), MinerFreeze(s, a, ctx);
            && (o.Done? <==> k in s.miners && !s.miners[k].status.Frozen?)
            && (o.Done? ==> SentHome(s, o.st, k, Frozen, ctx.height))
  {
    var k := MinerKey(a, Verify);
    if k in s.miners { HomeIs(s, k, Frozen, ctx.height); }
  }

  /** A penalised verifier is frozen from then on. */
  lemma PenaltyFreezes(s: State, a: Address, value: u64, height: nat, s': State)
    requires Penalize(s, a, value, height) == Done(s')
    ensures var k := MinerKey(a, Verify);
            && k in s.miners && value <= s.miners[k].stake
            && s'.miners == s.miners[k := s.miners[k].(stake := s.miners[k].stake - value, status := Frozen, statusHeight := height)]
  {
    PenalizeRecords(s, a, value, height);
  }

  // ----- Guards

  /** An application succeeds if and only if the applicant is a normal proposer or a guard, its own stake is exactly the
      full stake, and its term does not yet reach more than half a period ahead. A guard whose stake has no term must
      be on the list of fund guards: one that took all its stake out and staked again is refused. */
  lemma ApplyExactly(s: State, a: Address, ctx: Context)
    ensures var k, dk := MinerKey(a, Proposal), StakeKey(a, a, Proposal);
            ApplyGuard(s, a, ctx).Done? <==>
              && k in s.miners && (s.miners[k].identity.Normal? || s.miners[k].identity.Guard?)
              && dk in s.staked && s.staked[dk].value == MaxStake(ctx.height)
              && s.staked[dk].dismissHeight <= ctx.height + 5_000_000
              && (s.miners[k].identity.Guard? && s.staked[dk].dismissHeight == 0 ==> a in s.fund)
  {
    var k := MinerKey(a, Proposal);
    if k in s.miners && StakeKey(a, a, Proposal) in s.staked {
      GrantExactly(s, a, ctx.height);
    }
  }

  lemma GrantExactly(s: State, a: Address, height: nat)
    requires MinerKey(a, Proposal) in s.miners && StakeKey(a, a, Proposal) in s.staked
    ensures GrantGuard(s, a, height).Done? <==>
              (s.miners[MinerKey(a, Proposal)].identity.Guard? && s.staked[StakeKey(a, a, Proposal)].dismissHeight == 0 ==>
                 a in s.fund)
  {
    var k, m := MinerKey(a, Proposal), s.miners[MinerKey(a, Proposal)];
    var o := BecomeFullGuard(SetMiner(s, k, WithIdentity(m, Guard, height)), a, m.identity, height);
    assert GrantGuard(s, a, height).Done? <==> o.Done?;
  }

  /** What an application does: the applicant is a guard, its stake is bound until half a period after now or after its
      running term, it is in the full-stake pool unless it had a term already, a fund guard without a term leaves its
      initial type, and a vote it has counts as cast now. Nothing else changes. */
  ghost predicate Applied(s: State, s': State, a: Address, height: nat)
    requires MinerKey(a, Proposal) in s.miners && StakeKey(a, a, Proposal) in s.staked
  {
    var k, dk := MinerKey(a, Proposal), StakeKey(a, a, Proposal);
    var renews := s.miners[k].identity.Guard? && s.staked[dk].dismissHeight != 0;
    && s'.miners == s.miners[k := s.miners[k].(identity := Guard, identityHeight := height)]
    && s'.staked == s.staked[dk := s.staked[dk].(
                      dismissHeight := (if renews then s.staked[dk].dismissHeight else height) + 5_000_000)]
    && s'.fullStake == (if renews then s.fullStake else s.fullStake + {a})
    && s'.fund == (if s.miners[k].identity.Guard? && !renews && a in s.fund
                   then s.fund[a := s.fund[a].(kind := FullStakeGuardNode, height := height)] else s.fund)
    && s'.votes == (if a in s.votes then s.votes[a := s.votes[a].(height := height)] else s.votes)
    && s' == s.(miners := s'.miners, staked := s'.staked, fullStake := s'.fullStake, fund := s'.fund, votes := s'.votes)
  }

  lemma ApplyDoes(s: State, a: Address, ctx: Context, s': State)
    requires ApplyGuard(s, a, ctx) == Done(s')
    ensures MinerKey(a, Proposal) in s.miners && StakeKey(a, a, Proposal) in s.staked && Applied(s, s', a, ctx.height)
  {
    var k, dk := MinerKey(a, Proposal), StakeKey(a, a, Proposal);
    assert ApplyGuard(s, a, ctx) == GrantGuard(s, a, ctx.height);
    GrantDoes(s, a, ctx.height, s');
  }

  lemma GrantDoes(s: State, a: Address, height: nat, s': State)
    requires MinerKey(a, Proposal) in s.miners && StakeKey(a, a, Proposal) in s.staked && GrantGuard(s, a, height) == Done(s')
    ensures Applied(s, s', a, height)
  {
    var k, m := MinerKey(a, Proposal), s.miners[MinerKey(a, Proposal)];
    var s1 := SetMiner(s, k, WithIdentity(m, Guard, height));
    BecomesGuard(s1, a, m.identity, height);
    var s2 := BecomeFullGuard(s1, a, m.identity, height).st;
    VoteRenewed(s2, s', a, height);
  }

  lemma VoteRenewed(s: State, s': State, a: Address, height: nat)
    requires s' == if a in s.votes then s.(votes := s.votes[a := s.votes[a].(height := height)]) else s
    ensures s' == s.(votes := s'.votes)
    ensures s'.votes == if a in s.votes then s.votes[a := s.votes[a].(height := height)] else s.votes
  {
  }

  lemma BecomesGuard(s: State, a: Address, was: Identity, height: nat)
    requires StakeKey(a, a, Proposal) in s.staked && BecomeFullGuard(s, a, was, height).Done?
    ensures var s', dk := BecomeFullGuard(s, a, was, height).st, StakeKey(a, a, Proposal);
            var renews := was.Guard? && s.staked[dk].dismissHeight != 0;
            && s'.staked == s.staked[dk := s.staked[dk].(
                              dismissHeight := (if renews then s.staked[dk].dismissHeight else height) + 5_000_000)]
            && s'.fullStake == (if renews then s.fullStake else s.fullStake + {a})
            && s'.fund == (if was.Guard? && !renews && a in s.fund
                           then s.fund[a := s.fund[a].(kind := FullStakeGuardNode, height := height)] else s.fund)
            && s' == s.(staked := s'.staked, fullStake := s'.fullStake, fund := s'.fund)
  {
  }

  /** The mode of a fund guard may be changed until height five million, by the guard itself while in its initial type;
      nothing but that record changes. */
  lemma ChangeModeExactly(s: State, a: Address, mode: FundMode, ctx: Context)
    ensures var o := ChangeFundMode(s, a, mode, ctx);
            && (o.Done? <==> ctx.height <= 5_000_000 && FundGuardIn(s.fund, a))
            && (o.Done? ==> o.st == s.(fund := s.fund[a := s.fund[a].(height := ctx.height, mode := mode)]))
  {
  }
}
