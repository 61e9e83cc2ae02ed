/** The stake, vote and guard ledger: its records and the meaning of each miner operation.

    A ledger value stands for the part of the account database that the miner operations read and write.
    An operation either yields a new ledger, is rejected with a receipt status (the caller then reverts to
    the snapshot it took), or panics. */
module Ledger {

  import opened Collections

  const TWO64: nat := 0x1_0000_0000_0000_0000

  type u64 = x: nat | x < TWO64

  /** Go's wrapping addition on uint64. */
  function Add64(a: u64, b: u64): u64 {
    if a + b < TWO64 then a + b else a + b - TWO64
  }

  const ZVC: nat := 1_000_000_000
  const MIN_MINER_STAKE: u64 := 500 * ZVC
  const INIT_MAX_STAKE: nat := 2_500_000 * ZVC
  const INIT_STAKE_ADD: nat := 1_000_000 * ZVC
  const STAKE_ADJUST_PERIOD: nat := 10_000_000
  const STAKE_ADJUST_TIMES: nat := 12
  const INIT_POOL_TICKETS: nat := 8
  const MIN_POOL_TICKETS: nat := 1
  const POOL_TICKETS_STEP: nat := 2
  const ADJUST_WEIGHT_PERIOD: nat := 10_000_000
  const HALF_PERIOD: nat := ADJUST_WEIGHT_PERIOD / 2
  const ONE_HOUR_BLOCKS: nat := 1200
  const ONE_DAY_BLOCKS: nat := 28800
  const STAKE_BUFFER: nat := 15 * ONE_DAY_BLOCKS
  const CHECK_INTERVAL: nat := 1000
  const ZIP003: nat := 4945537
  const ZIP004: nat := 7583800

  /** Account addresses, in the order in which the database iterates over them. */
  type Address = nat

  /** As a vote target the zero address means "no vote". */
  const ZERO_ADDRESS: Address := 0

  datatype Role = Verify | Proposal
  datatype MinerStatus = Prepare | Active | Frozen
  datatype Identity = Normal | Guard | MinerPool | InvalidPool

  /** A public key and a VRF key; the payload of a stake-add carries both or neither. */
  datatype Keys = NoKeys | Keys(pk: nat, vrf: nat)


  datatype Miner = Miner(
    stake: u64, status: MinerStatus, statusHeight: nat,
    identity: Identity, identityHeight: nat, applyHeight: nat, keys: Keys)

  datatype MinerKey = MinerKey(addr: Address, role: Role)

  /** Who staked (`source`) for whom (`target`) in which role. */
  datatype StakeKey = StakeKey(target: Address, source: Address, role: Role)

  datatype Detail = Detail(value: u64, height: nat, dismissHeight: nat, notFullHeight: nat)

  datatype VoteInfo = VoteInfo(target: Address, height: nat)

  datatype FundType = NormalNode | FullStakeGuardNode | FundGuardNode
  datatype FundMode = SixAddFive | SixAddSix
  datatype FundRecord = FundRecord(kind: FundType, height: nat, mode: FundMode)

  datatype State = State(
    balances: map<Address, nat>,
    miners: map<MinerKey, Miner>,
    staked: map<StakeKey, Detail>,
    frozen: map<StakeKey, Detail>,
    punished: map<Address, Detail>,
    pool: set<MinerKey>,
    proposalTotal: u64,
    tickets: map<Address, nat>,
    votes: map<Address, VoteInfo>,
    fund: map<Address, FundRecord>,
    fullStake: set<Address>,
    scannedSixAddFive: bool,
    scannedSixAddSix: bool)

  datatype ReceiptStatus =
    | RSFail | RSBalanceNotEnough | RSUnSupportOp | RSStakeFrozen | RSStakeOverLimit | RSNotExists
    | RSStakeLessThanReduce | RSVerifyLowerStake | RSVerifyInGroup | RSReduceHeightNotEnough
    | RSAbortHasPrepared | RSRefundHeightNotEnough | RSVoteNotInRound | RSNotFullStake
    | RSMaxApplyGuard | RSChangeModeExpired

  datatype Outcome = Done(st: State) | Rejected(rs: ReceiptStatus) | Panic {
    predicate IsFailure() { !Done? }
    function PropagateFailure(): Outcome requires IsFailure() { this }
    function Extract(): State requires Done? { st }
  }

  /** The verdict of the tests that come before any write. */
  datatype Check = Accepted | Refused(rs: ReceiptStatus)

  /** What an operation sees besides the ledger: the block height, the stake platform's address and the
      members of the groups alive at that height. */
  datatype Context = Context(height: nat, platform: Address, liveMembers: set<Address>)

  // ----- Bounds that depend on the height

  function ShiftRight(x: nat, n: nat): nat {
    if n == 0 then x else ShiftRight(x / 2, n - 1)
  }

  /** What the first `periods` adjustments add to the stake limit. */
  function StakeGrowth(periods: nat): nat {
    if periods == 0 then 0
    else StakeGrowth(periods - 1) + ShiftRight(INIT_STAKE_ADD, (periods - 1) / 3)
  }

  function MaxStake(height: nat): nat {
    var periods := height / STAKE_ADJUST_PERIOD;
    INIT_MAX_STAKE + StakeGrowth(if periods > STAKE_ADJUST_TIMES then STAKE_ADJUST_TIMES else periods)
  }

  /** The tickets a miner pool needs at a height. */
  function NeedTickets(height: nat): nat {
    var less := height / (ADJUST_WEIGHT_PERIOD * 3) * POOL_TICKETS_STEP;
    if INIT_POOL_TICKETS <= less then MIN_POOL_TICKETS else INIT_POOL_TICKETS - less
  }

  predicate CanVoteAgain(voteHeight: nat, height: nat) {
    voteHeight == 0 || height / HALF_PERIOD > voteHeight / HALF_PERIOD
  }

  // ----- Reading and writing single records

  function Balance(s: State, a: Address): nat {
    if a in s.balances then s.balances[a] else 0
  }

  function AddBalance(s: State, a: Address, v: nat): State {
    s.(balances := s.balances[a := Balance(s, a) + v])
  }

  function SubBalance(s: State, a: Address, v: nat): State
    requires v <= Balance(s, a)
  {
    s.(balances := s.balances[a := Balance(s, a) - v])
  }

  /** Taking nothing out writes nothing. */
  function Debit(s: State, a: Address, v: nat): State
    requires v <= Balance(s, a)
  {
    s.(balances := if v > 0 then s.balances[a := Balance(s, a) - v] else s.balances)
  }

  function TicketsIn(tickets: map<Address, nat>, a: Address): nat {
    if a in tickets then tickets[a] else 0
  }

  function Tickets(s: State, a: Address): nat { TicketsIn(s.tickets, a) }

  function SetMiner(s: State, k: MinerKey, m: Miner): State {
    s.(miners := s.miners[k := m])
  }

  /** The identity by which proposal operations on `a` are dispatched; an unknown miner counts as normal. */
  function IdentityIn(miners: map<MinerKey, Miner>, a: Address): Identity {
    if MinerKey(a, Proposal) in miners then miners[MinerKey(a, Proposal)].identity else Normal
  }

  function IdentityOf(s: State, a: Address): Identity { IdentityIn(s.miners, a) }

  function AddProposalTotal(s: State, stake: u64): Outcome {
    if Add64(stake, s.proposalTotal) < s.proposalTotal then Panic
    else Done(s.(proposalTotal := Add64(stake, s.proposalTotal)))
  }

  function SubProposalTotal(s: State, stake: u64): Outcome {
    if s.proposalTotal < stake then Panic
    else Done(s.(proposalTotal := s.proposalTotal - stake))
  }

  function AddToPool(s: State, k: MinerKey, stake: u64): Outcome {
    var s1 :- if k.role.Proposal? then AddProposalTotal(s, stake) else Done(s);
    Done(s1.(pool := s1.pool + {k}))
  }

  function RemoveFromPool(s: State, k: MinerKey, stake: u64): Outcome {
    var s1 :- if k.role.Proposal? then SubProposalTotal(s, stake) else Done(s);
    Done(s1.(pool := s1.pool - {k}))
  }

  /** Takes a miner off the pool if it is active. */
  function Unpool(s: State, k: MinerKey): Outcome
    requires k in s.miners
  {
    if s.miners[k].status.Active? then RemoveFromPool(s, k, s.miners[k].stake) else Done(s)
  }

  function WithStatus(m: Miner, status: MinerStatus, height: nat): Miner {
    m.(status := status, statusHeight := height)
  }

  function WithIdentity(m: Miner, identity: Identity, height: nat): Miner {
    m.(identity := identity, identityHeight := height)
  }

  /** A detail with `v` more in it, created when missing; the operation height is stamped on it. */
  function Accumulated(details: map<StakeKey, Detail>, k: StakeKey, v: u64, height: nat): Detail {
    if k in details then details[k].(value := Add64(details[k].value, v), height := height)
    else Detail(v, height, 0, 0)
  }

  /** A detail map with `v` taken out of `k`; a detail that reaches zero is deleted. */
  function Reduced(details: map<StakeKey, Detail>, k: StakeKey, v: u64, height: nat): map<StakeKey, Detail>
    requires k in details && v <= details[k].value
  {
    if v == details[k].value then details - {k}
    else details[k := details[k].(value := details[k].value - v, height := height)]
  }

  // ----- Adding stake

  predicate IsPoolMiner(s: State, a: Address) { IdentityOf(s, a).MinerPool? }

  predicate StakeAddAllowed(s: State, source: Address, target: Address, role: Role, platform: Address) {
    if role.Verify? then source == target
    else match IdentityOf(s, target)
      case Normal => source == target || source == platform || IsPoolMiner(s, source)
      case Guard => source == target
      case MinerPool => !(IsPoolMiner(s, source) && source != target)
      case InvalidPool => false
  }

  function StakeLimit(s: State, k: MinerKey, height: nat): nat {
    if k.role.Proposal? && IdentityOf(s, k.addr).MinerPool? then MaxStake(height) * NeedTickets(height)
    else MaxStake(height)
  }

  /** The target's record with the new stake in it, before activation. */
  function StakedMiner(s: State, k: MinerKey, source: Address, value: u64, keys: Keys, height: nat): Miner {
    var m :=
      if k in s.miners then s.miners[k].(stake := Add64(s.miners[k].stake, value))
      else Miner(value, Prepare, 0, Normal, 0, height, NoKeys);
    if k.addr == source && keys.Keys? then m.(keys := keys) else m
  }

  /** Saves the miner, counting the added stake or activating the miner when it now can work. */
  function SaveStakedMiner(s: State, k: MinerKey, m: Miner, value: u64, height: nat): Outcome {
    if m.status.Active? then
      var s1 :- if k.role.Proposal? then AddProposalTotal(s, value) else Done(s);
      Done(SetMiner(s1, k, m))
    else if m.keys.Keys? && m.stake >= MIN_MINER_STAKE then
      var s1 :- AddToPool(s, k, m.stake);
      Done(SetMiner(s1, k, WithStatus(m, Active, height)))
    else
      Done(SetMiner(s, k, m))
  }

  function StakeAddCheck(s: State, dk: StakeKey, value: u64, keys: Keys, ctx: Context): Check {
    var k := MinerKey(dk.target, dk.role);
    if !StakeAddAllowed(s, dk.source, dk.target, dk.role, ctx.platform) then Refused(RSUnSupportOp)
    else if Balance(s, dk.source) < value then Refused(RSBalanceNotEnough)
    else if k in s.miners && s.miners[k].status.Frozen? then Refused(RSStakeFrozen)
    else if k in s.miners && Add64(s.miners[k].stake, value) < s.miners[k].stake then Refused(RSFail)
    else if StakedMiner(s, k, dk.source, value, keys, ctx.height).stake > StakeLimit(s, k, ctx.height)
      then Refused(RSStakeOverLimit)
    else Accepted
  }

  function RaiseDetail(s: State, dk: StakeKey, value: u64, height: nat): Outcome {
    if dk in s.staked && Add64(s.staked[dk].value, value) < s.staked[dk].value then Rejected(RSFail)
    else Done(s.(staked := s.staked[dk := Accumulated(s.staked, dk, value, height)]))
  }

  function StakeAdd(
    s: State, source: Address, target: Address, role: Role, value: u64, keys: Keys, ctx: Context): Outcome
  {
    var k, dk := MinerKey(target, role), StakeKey(target, source, role);
    match StakeAddCheck(s, dk, value, keys, ctx)
    case Refused(rs) => Rejected(rs)
    case Accepted =>
      var m := StakedMiner(s, k, source, value, keys, ctx.height);
      var s1 :- SaveStakedMiner(Debit(s, source, value), k, m, value, ctx.height);
      RaiseDetail(s1, dk, value, ctx.height)
  }

  // ----- Taking stake out

  /** Saves the miner whose stake was cut to `m.stake`; a proposer below the lower bound leaves the pool. */
  function SaveReducedMiner(s: State, k: MinerKey, m: Miner, origin: u64, value: u64, height: nat): Outcome {
    if m.status.Active? && k.role.Proposal? then
      if m.stake < MIN_MINER_STAKE then
        var s1 :- RemoveFromPool(s, k, origin);
        Done(SetMiner(s1, k, WithStatus(m, Prepare, height)))
      else
        var s1 :- SubProposalTotal(s, value);
        Done(SetMiner(s1, k, m))
    else Done(SetMiner(s, k, m))
  }

  /** Moves `value` from the staked to the frozen detail; `origin` is the miner's stake before the cut. */
  function FreezeStake(s: State, dk: StakeKey, origin: u64, value: u64, height: nat): Outcome {
    if dk !in s.staked then Rejected(RSFail)
    else if height < s.staked[dk].dismissHeight then Rejected(RSReduceHeightNotEnough)
    else if s.staked[dk].value > origin then Panic
    else if s.staked[dk].value < value then Rejected(RSStakeLessThanReduce)
    else
      Done(s.(staked := Reduced(s.staked, dk, value, height),
              frozen := s.frozen[dk := Accumulated(s.frozen, dk, value, height)]))
  }

  function ReduceCheck(s: State, k: MinerKey, value: u64, ctx: Context): Check {
    if k !in s.miners then Refused(RSNotExists)
    else if s.miners[k].stake < value then Refused(RSStakeLessThanReduce)
    else if s.miners[k].status.Frozen? then Refused(RSStakeFrozen)
    else if s.miners[k].stake - value >= MIN_MINER_STAKE || k.role.Proposal? then Accepted
    else if s.miners[k].status.Active? then Refused(RSVerifyLowerStake)
    else if k.addr in ctx.liveMembers then Refused(RSVerifyInGroup)
    else Accepted
  }

  /** Cuts a miner's stake and freezes what was taken. */
  function CutStake(s: State, dk: StakeKey, value: u64, height: nat): Outcome
    requires MinerKey(dk.target, dk.role) in s.miners && value <= s.miners[MinerKey(dk.target, dk.role)].stake
  {
    var k := MinerKey(dk.target, dk.role);
    var origin := s.miners[k].stake;
    var s1 :- SaveReducedMiner(s, k, s.miners[k].(stake := origin - value), origin, value, height);
    FreezeStake(s1, dk, origin, value, height)
  }

  function StakeReduce(s: State, source: Address, target: Address, role: Role, value: u64, ctx: Context): Outcome {
    var k := MinerKey(target, role);
    match ReduceCheck(s, k, value, ctx)
    case Refused(rs) => Rejected(rs)
    case Accepted => CutStake(s, StakeKey(target, source, role), value, ctx.height)
  }

  function RefundDelay(source: Address, frozenHeight: nat, ctx: Context): nat {
    if ctx.height < ZIP004 && ZIP003 <= frozenHeight && source != ctx.platform then 90 * ONE_DAY_BLOCKS
    else 2 * ONE_DAY_BLOCKS
  }

  function StakeRefund(s: State, source: Address, target: Address, role: Role, ctx: Context): Outcome {
    var dk := StakeKey(target, source, role);
    if dk !in s.frozen then Rejected(RSFail)
    else if ctx.height <= s.frozen[dk].height + RefundDelay(source, s.frozen[dk].height, ctx)
      then Rejected(RSRefundHeightNotEnough)
    else Done(AddBalance(s.(frozen := s.frozen - {dk}), source, s.frozen[dk].value))
  }

  // ----- Leaving the pool

  function AbortCheck(s: State, k: MinerKey, ctx: Context): Check {
    if k.role.Proposal? && IdentityOf(s, k.addr).InvalidPool? then Refused(RSUnSupportOp)
    else if k !in s.miners then Refused(RSNotExists)
    else if s.miners[k].status.Prepare? then Refused(RSAbortHasPrepared)
    else if s.miners[k].status.Frozen? && ctx.height <= s.miners[k].statusHeight + ONE_HOUR_BLOCKS
      then Refused(RSStakeFrozen)
    else Accepted
  }

  function MinerAbort(s: State, addr: Address, role: Role, ctx: Context): Outcome {
    var k := MinerKey(addr, role);
    match AbortCheck(s, k, ctx)
    case Refused(rs) => Rejected(rs)
    case Accepted =>
      var s1 :- Unpool(s, k);
      Done(SetMiner(s1, k, WithStatus(s.miners[k], Prepare, ctx.height)))
  }

  function MinerFreeze(s: State, addr: Address, ctx: Context): Outcome {
    var k := MinerKey(addr, Verify);
    if k !in s.miners then Rejected(RSNotExists)
    else if s.miners[k].status.Frozen? then Rejected(RSFail)
    else
      var s1 :- Unpool(s, k);
      Done(SetMiner(s1, k, WithStatus(s.miners[k], Frozen, ctx.height)))
  }

  // ----- Penalties

  function PunishmentRecord(s: State, a: Address, value: u64, height: nat): Detail {
    if a in s.punished then s.punished[a].(value := Add64(s.punished[a].value, value), height := height)
    else Detail(value, height, 0, 0)
  }

  /** What the staked detail could not cover comes out of the frozen detail. */
  function TakeRemainder(s: State, dk: StakeKey, remain: u64, height: nat): Outcome {
    if remain == 0 then Done(s)
    else if dk !in s.frozen then Panic
    else if s.frozen[dk].value < remain then Panic
    else Done(s.(frozen := s.frozen[dk := s.frozen[dk].(value := s.frozen[dk].value - remain, height := height)]))
  }

  /** Takes a penalty out of the details: first the staked one, then the frozen one. */
  function TakePenalty(s: State, dk: StakeKey, value: u64, height: nat): Outcome {
    if dk !in s.staked then Panic
    else if s.staked[dk].value > value then Done(s.(staked := Reduced(s.staked, dk, value, height)))
    else TakeRemainder(s.(staked := s.staked - {dk}), dk, value - s.staked[dk].value, height)
  }

  function Penalize(s: State, addr: Address, value: u64, height: nat): Outcome {
    var k := MinerKey(addr, Verify);
    if k !in s.miners then Rejected(RSNotExists)
    else
      var s1 :- Unpool(s, k);
      if s.miners[k].stake < value then Panic
      else
        var m := WithStatus(s.miners[k].(stake := s.miners[k].stake - value), Frozen, height);
        var s2 := SetMiner(s1, k, m).(punished := s1.punished[addr := PunishmentRecord(s1, addr, value, height)]);
        TakePenalty(s2, StakeKey(addr, addr, Verify), value, height)
  }

  function PenalizeAll(s: State, targets: seq<Address>, value: u64, height: nat): Outcome {
    if targets == [] then Done(s)
    else
      var s1 :- PenalizeAll(s, targets[..|targets| - 1], value, height);
      Penalize(s1, targets[|targets| - 1], value, height)
  }

  function RewardAll(s: State, rewards: seq<Address>, each: nat): State {
    if rewards == [] then s
    else AddBalance(RewardAll(s, rewards[..|rewards| - 1], each), rewards[|rewards| - 1], each)
  }

  /** What each rewardee gets; Go multiplies in uint64 before it divides. */
  function PenaltyShare(targets: nat, rewards: nat, value: u64): nat
    requires rewards > 0
  {
    value * targets % TWO64 / rewards
  }

  function MinerPenalty(s: State, targets: seq<Address>, rewards: seq<Address>, value: u64, ctx: Context): Outcome {
    var s1 :- PenalizeAll(s, targets, value, ctx.height);
    Done(if rewards == [] then s1 else RewardAll(s1, rewards, PenaltyShare(|targets|, |rewards|, value)))
  }

  // ----- Votes and tickets

  predicate PoolFallsShort(s: State, a: Address, height: nat) {
    MinerKey(a, Proposal) in s.miners && IsPoolMiner(s, a) && Tickets(s, a) < NeedTickets(height)
  }

  function DemotedMiner(m: Miner, height: nat): Miner {
    var m1 := WithIdentity(m, InvalidPool, height);
    if m.status.Active? then WithStatus(m1, Prepare, height) else m1
  }

  /** Demotes a miner pool whose tickets fell short. */
  function DemotePool(s: State, a: Address, height: nat): Outcome {
    var k := MinerKey(a, Proposal);
    if !PoolFallsShort(s, a, height) then Done(s)
    else
      var s1 :- Unpool(s, k);
      Done(SetMiner(s1, k, DemotedMiner(s.miners[k], height)))
  }

  function ReduceTicket(s: State, target: Address, height: nat): Outcome {
    var left := if Tickets(s, target) < 1 then 0 else Tickets(s, target) - 1;
    DemotePool(s.(tickets := s.tickets[target := left]), target, height)
  }

  /** Moves one vote from `prior` to `target`. */
  function MoveTicket(s: State, prior: Address, target: Address, height: nat): Outcome {
    if prior == target && prior != ZERO_ADDRESS then Done(s)
    else
      var s1 :- if prior != ZERO_ADDRESS then ReduceTicket(s, prior, height) else Done(s);
      Done(s1.(tickets := s1.tickets[target := Tickets(s1, target) + 1]))
  }

  function PromotedMiner(s: State, a: Address, height: nat): Miner {
    var k := MinerKey(a, Proposal);
    WithIdentity(if k in s.miners then s.miners[k] else Miner(0, Prepare, 0, Normal, 0, height, NoKeys), MinerPool, height)
  }

  /** A voted address with enough tickets becomes a miner pool; `read` is the ledger its record was read from. */
  function PromotePool(read: State, s: State, a: Address, height: nat): State {
    if Tickets(s, a) < NeedTickets(height) || IdentityOf(read, a).MinerPool? then s
    else SetMiner(s, MinerKey(a, Proposal), PromotedMiner(read, a, height))
  }

  function Vote(s: State, source: Address, target: Address, ctx: Context): Outcome {
    var prior := if source in s.votes then s.votes[source].target else ZERO_ADDRESS;
    if IdentityOf(s, target).Guard? then Rejected(RSUnSupportOp)
    else if !IdentityOf(s, source).Guard? then Rejected(RSUnSupportOp)
    else if source in s.votes && !CanVoteAgain(s.votes[source].height, ctx.height) then Rejected(RSVoteNotInRound)
    else
      var s1 := s.(votes := s.votes[source := VoteInfo(target, ctx.height)]);
      var s2 :- MoveTicket(s1, prior, target, ctx.height);
      Done(PromotePool(s, s2, target, ctx.height))
  }

  // ----- Guards

  function SetDismiss(s: State, dk: StakeKey, height: nat): State
    requires dk in s.staked
  {
    s.(staked := s.staked[dk := s.staked[dk].(dismissHeight := height)])
  }

  /** The guard bookkeeping of a successful application; `was` is the identity before it. */
  function BecomeFullGuard(s: State, a: Address, was: Identity, height: nat): Outcome
    requires StakeKey(a, a, Proposal) in s.staked
  {
    var dk := StakeKey(a, a, Proposal);
    if was.Guard? then
      if s.staked[dk].dismissHeight == 0 then
        if a !in s.fund then Rejected(RSFail)
        else Done(SetDismiss(s, dk, height + HALF_PERIOD).(
                    fund := s.fund[a := s.fund[a].(kind := FullStakeGuardNode, height := height)],
                    fullStake := s.fullStake + {a}))
      else Done(SetDismiss(s, dk, s.staked[dk].dismissHeight + HALF_PERIOD))
    else Done(SetDismiss(s, dk, height + HALF_PERIOD).(fullStake := s.fullStake + {a}))
  }

  function GrantGuard(s: State, a: Address, height: nat): Outcome
    requires MinerKey(a, Proposal) in s.miners && StakeKey(a, a, Proposal) in s.staked
  {
    var m := s.miners[MinerKey(a, Proposal)];
    var s1 := SetMiner(s, MinerKey(a, Proposal), WithIdentity(m, Guard, height));
    var s2 :- BecomeFullGuard(s1, a, m.identity, height);
    Done(if a in s2.votes then s2.(votes := s2.votes[a := s2.votes[a].(height := height)]) else s2)
  }

  function ApplyGuard(s: State, a: Address, ctx: Context): Outcome {
    var k := MinerKey(a, Proposal);
    var dk := StakeKey(a, a, Proposal);
    if k !in s.miners then Rejected(RSNotExists)
    else if !s.miners[k].identity.Normal? && !s.miners[k].identity.Guard? then Rejected(RSUnSupportOp)
    else if dk !in s.staked then Rejected(RSNotFullStake)
    else if s.staked[dk].value != MaxStake(ctx.height) then Rejected(RSNotFullStake)
    else if s.staked[dk].dismissHeight > ctx.height + HALF_PERIOD then Rejected(RSMaxApplyGuard)
    else GrantGuard(s, a, ctx.height)
  }

  /** The source reports success although it reaches this write through an inverted error test. */
  function ChangeFundMode(s: State, source: Address, mode: FundMode, ctx: Context): Outcome {
    if ctx.height > HALF_PERIOD then Rejected(RSChangeModeExpired)
    else if source !in s.fund then Rejected(RSUnSupportOp)
    else if !s.fund[source].kind.FundGuardNode? then Rejected(RSUnSupportOp)
    else Done(s.(fund := s.fund[source := s.fund[source].(height := ctx.height, mode := mode)]))
  }

  // ----- Guard expiry

  function ExpireGuard(s: State, a: Address, height: nat, isFund: bool): Outcome {
    var k := MinerKey(a, Proposal);
    if k !in s.miners then Rejected(RSFail)
    else
      var s1 := SetMiner(s, k, WithIdentity(s.miners[k], Normal, height));
      var s2 := if isFund then s1 else s1.(fullStake := s1.fullStake - {a});
      if a !in s2.votes then Done(s2)
      else
        var s3 := s2.(votes := s2.votes - {a});
        if s2.votes[a].target != ZERO_ADDRESS then ReduceTicket(s3, s2.votes[a].target, height) else Done(s3)
  }

  function ExpireGuards(s: State, addrs: seq<Address>, height: nat, isFund: bool): Outcome {
    if addrs == [] then Done(s)
    else
      var s1 :- ExpireGuards(s, addrs[..|addrs| - 1], height, isFund);
      ExpireGuard(s1, addrs[|addrs| - 1], height, isFund)
  }

  predicate FullStakeExpired(d: Detail, height: nat) {
    || height > d.dismissHeight + STAKE_BUFFER
    || (d.notFullHeight > 0 && height > d.notFullHeight + STAKE_BUFFER)
  }

  predicate NeedsNotFullMark(d: Detail, height: nat) {
    !FullStakeExpired(d, height) && d.notFullHeight == 0 && d.value != MaxStake(height)
  }

  /** The details after the scan of `addrs`: those no longer full are marked with the height. */
  function MarkNotFull(s: State, addrs: seq<Address>, height: nat): State
    requires forall a :: a in addrs ==> StakeKey(a, a, Proposal) in s.staked
  {
    s.(staked := map dk | dk in s.staked ::
         if dk.role.Proposal? && dk.source == dk.target && dk.target in addrs && NeedsNotFullMark(s.staked[dk], height)
         then s.staked[dk].(notFullHeight := height) else s.staked[dk])
  }

  /** The expired members of `addrs`, in order. */
  function ExpiredAmong(s: State, addrs: seq<Address>, height: nat): (r: seq<Address>)
    requires forall a :: a in addrs ==> StakeKey(a, a, Proposal) in s.staked
    ensures forall a :: a in r ==> a in addrs
  {
    if addrs == [] then []
    else
      var n := |addrs| - 1;
      var r := ExpiredAmong(s, addrs[..n], height);
      if FullStakeExpired(s.staked[StakeKey(addrs[n], addrs[n], Proposal)], height) then r + [addrs[n]] else r
  }

  /** One missing detail, or one expiry that fails, abandons the whole pass. */
  function FullStakePass(s: State, height: nat): Outcome {
    var addrs := Listing(s.fullStake);
    if height < HALF_PERIOD || height % CHECK_INTERVAL != 0 then Done(s)
    else if exists a :: a in addrs && StakeKey(a, a, Proposal) !in s.staked then Rejected(RSFail)
    else ExpireGuards(MarkNotFull(s, addrs, height), ExpiredAmong(s, addrs, height), height, false)
  }

  /** The fund guards of one mode that are still in their initial type. */
  function FundGuardsOf(s: State, mode: FundMode): set<Address> {
    set a | a in s.fund && s.fund[a].kind.FundGuardNode? && s.fund[a].mode == mode
  }

  function RetireFunds(s: State, addrs: set<Address>, height: nat): State
    requires addrs <= s.fund.Keys
  {
    s.(fund := map a | a in s.fund ::
         if a in addrs then s.fund[a].(kind := NormalNode, height := height) else s.fund[a])
  }

  predicate ScanSixAddFive(s: State, height: nat) {
    HALF_PERIOD <= height <= 2 * ADJUST_WEIGHT_PERIOD && height % CHECK_INTERVAL == 0 && !s.scannedSixAddFive
  }

  predicate ScanSixAddSix(s: State, height: nat) {
    ADJUST_WEIGHT_PERIOD <= height <= 3 * ADJUST_WEIGHT_PERIOD && height % CHECK_INTERVAL == 0 && !s.scannedSixAddSix
  }

  /** The fund guards that this height's scan retires. */
  function DueFunds(s: State, height: nat): set<Address> {
    (if ScanSixAddFive(s, height) then FundGuardsOf(s, SixAddFive) else {}) +
    (if ScanSixAddSix(s, height) then FundGuardsOf(s, SixAddSix) else {})
  }

  /** The members of `addrs` that are fund guards of one mode, in order. */
  function FundGuardsAmong(s: State, addrs: seq<Address>, mode: FundMode): (r: seq<Address>)
    ensures forall a :: a in r <==> a in addrs && a in FundGuardsOf(s, mode)
  {
    if addrs == [] then []
    else
      var n := |addrs| - 1;
      var r := FundGuardsAmong(s, addrs[..n], mode);
      assert forall a :: a in addrs <==> a in addrs[..n] || a == addrs[n];
      if addrs[n] in FundGuardsOf(s, mode) then r + [addrs[n]] else r
  }

  /** The retired addresses in the order in which they are then expired. */
  function DueListing(s: State, height: nat): seq<Address> {
    (if ScanSixAddFive(s, height) then FundGuardsAmong(s, Listing(s.fund.Keys), SixAddFive) else []) +
    (if ScanSixAddSix(s, height) then FundGuardsAmong(s, Listing(s.fund.Keys), SixAddSix) else [])
  }

  function FundPass(s: State, height: nat): Outcome {
    var s1 := RetireFunds(s, DueFunds(s, height), height).(
                scannedSixAddFive := s.scannedSixAddFive || ScanSixAddFive(s, height),
                scannedSixAddSix := s.scannedSixAddSix || ScanSixAddSix(s, height));
    ExpireGuards(s1, DueListing(s, height), height, true)
  }

  function OrRevert(o: Outcome, s: State): State {
    if o.Done? then o.st else s
  }

  /** The periodic guard check: two passes, each reverted on its own when it fails. */
  function GuardCheck(s: State, height: nat): Outcome {
    var first := FullStakePass(s, height);
    if first.Panic? then Panic
    else
      var s1 := OrRevert(first, s);
      var second := FundPass(s1, height);
      if second.Panic? then Panic else Done(OrRevert(second, s1))
  }

  // ----- Operations and runs

  datatype Op =
    | OpStakeAdd(source: Address, target: Address, role: Role, value: u64, keys: Keys)
    | OpStakeReduce(source: Address, target: Address, role: Role, value: u64)
    | OpStakeRefund(source: Address, target: Address, role: Role)
    | OpMinerAbort(addr: Address, role: Role)
    | OpMinerFreeze(addr: Address)
    | OpMinerPenalty(targets: seq<Address>, rewards: seq<Address>)
    | OpVote(source: Address, target: Address)
    | OpApplyGuard(addr: Address)
    | OpChangeFundMode(source: Address, mode: FundMode)
    | OpGuardCheck

  function Transition(s: State, op: Op, ctx: Context): Outcome {
    match op
    case OpStakeAdd(source, target, role, value, keys) => StakeAdd(s, source, target, role, value, keys, ctx)
    case OpStakeReduce(source, target, role, value) => StakeReduce(s, source, target, role, value, ctx)
    case OpStakeRefund(source, target, role) => StakeRefund(s, source, target, role, ctx)
    case OpMinerAbort(addr, role) => MinerAbort(s, addr, role, ctx)
    case OpMinerFreeze(addr) => MinerFreeze(s, addr, ctx)
    case OpMinerPenalty(targets, rewards) => MinerPenalty(s, targets, rewards, MIN_MINER_STAKE, ctx)
    case OpVote(source, target) => Vote(s, source, target, ctx)
    case OpApplyGuard(addr) => ApplyGuard(s, addr, ctx)
    case OpChangeFundMode(source, mode) => ChangeFundMode(s, source, mode, ctx)
    case OpGuardCheck => GuardCheck(s, ctx.height)
  }

  /** An operation that fails leaves the ledger as it was. */
  function Execute(s: State, op: Op, ctx: Context): State {
    OrRevert(Transition(s, op, ctx), s)
  }

  datatype Step = Step(op: Op, ctx: Context)

  function Run(s: State, steps: seq<Step>): State {
    if steps == [] then s
    else
      var last := steps[|steps| - 1];
      Execute(Run(s, steps[..|steps| - 1]), last.op, last.ctx)
  }

  // ----- Genesis

  function EmptyLedger(balances: map<Address, nat>): State {
    State(balances, map[], map[], map[], map[], {}, 0, map[], map[], map[], {}, false, false)
  }

  /** Writes a fund guard's records, over whatever proposal record there was. */
  function InstallGuard(s: State, g: Address): State {
    SetMiner(s, MinerKey(g, Proposal), Miner(0, Prepare, 0, Guard, 0, 0, NoKeys)).(
      fund := s.fund[g := FundRecord(FundGuardNode, 0, SixAddSix)])
  }

  function InstallGuards(s: State, guards: seq<Address>): State {
    if guards == [] then s
    else InstallGuard(InstallGuards(s, guards[..|guards| - 1]), guards[|guards| - 1])
  }
}
