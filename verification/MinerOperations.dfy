/** The miner operations as the program runs them: step by step on a mutable account database, with a
    snapshot taken before each operation and restored when it fails. */
module MinerOperations {
  import opened Collections
  import opened Ledger

  /** How an operation ends: success, an error with its receipt status, or a panic. */
  datatype Ending = Success | Failure(rs: ReceiptStatus) | Crash

  /** An ending and the database it leaves agree with an outcome; after a failure the database is unspecified. */
  ghost predicate Follows(e: Ending, data: State, o: Outcome) {
    match o
    case Done(s) => e == Success && data == s
    case Rejected(rs) => e == Failure(rs)
    case Panic => e == Crash
  }

  class AccountDB {
    var data: State

    constructor (s: State)
      ensures data == s
    {
      data := s;
    }

    method SaveMiner(k: MinerKey, m: Miner)
      modifies this
      ensures data == SetMiner(old(data), k, m)
    {
      data := data.(miners := data.miners[k := m]);
    }

    method SaveStaked(dk: StakeKey, d: Detail)
      modifies this
      ensures data == old(data).(staked := old(data).staked[dk := d])
    {
      data := data.(staked := data.staked[dk := d]);
    }

    method RemoveStaked(dk: StakeKey)
      modifies this
      ensures data == old(data).(staked := old(data).staked - {dk})
    {
      data := data.(staked := data.staked - {dk});
    }

    method SaveFrozen(dk: StakeKey, d: Detail)
      modifies this
      ensures data == old(data).(frozen := old(data).frozen[dk := d])
    {
      data := data.(frozen := data.frozen[dk := d]);
    }

    method AddToBalance(a: Address, v: nat)
      modifies this
      ensures data == AddBalance(old(data), a, v)
    {
      data := data.(balances := data.balances[a := Balance(data, a) + v]);
    }

    /** Takes a miner out of its pool; a proposer takes its stake out of the total. */
    method LeavePool(k: MinerKey, stake: u64) returns (e: Ending)
      modifies this
      ensures Follows(e, data, RemoveFromPool(old(data), k, stake))
    {
      if k.role.Proposal? {
        if data.proposalTotal < stake { return Crash; }
        data := data.(proposalTotal := data.proposalTotal - stake);
      }
      data := data.(pool := data.pool - {k});
      return Success;
    }

    method GrowTotal(stake: u64) returns (e: Ending)
      modifies this
      ensures Follows(e, data, AddProposalTotal(old(data), stake))
    {
      if Add64(stake, data.proposalTotal) < data.proposalTotal { return Crash; }
      data := data.(proposalTotal := Add64(stake, data.proposalTotal));
      return Success;
    }

    method ShrinkTotal(stake: u64) returns (e: Ending)
      modifies this
      ensures Follows(e, data, SubProposalTotal(old(data), stake))
    {
      if data.proposalTotal < stake { return Crash; }
      data := data.(proposalTotal := data.proposalTotal - stake);
      return Success;
    }

    method EnterPool(k: MinerKey, stake: u64) returns (e: Ending)
      modifies this
      ensures Follows(e, data, AddToPool(old(data), k, stake))
    {
      if k.role.Proposal? {
        e := GrowTotal(stake);
        if e.Crash? { return; }
      }
      data := data.(pool := data.pool + {k});
      return Success;
    }
  }

  // ----- Stake

  /** The loop that grows the stake limit period by period. */
  method MaximumStake(height: nat) returns (canStake: nat)
    ensures canStake == MaxStake(height)
  {
    canStake := INIT_MAX_STAKE;
    var period := height / STAKE_ADJUST_PERIOD;
    if height > STAKE_ADJUST_TIMES * STAKE_ADJUST_PERIOD { period := STAKE_ADJUST_TIMES; }
    assert period == if height / STAKE_ADJUST_PERIOD > STAKE_ADJUST_TIMES then STAKE_ADJUST_TIMES
                     else height / STAKE_ADJUST_PERIOD;
    var i := 0;
    while i < period
      invariant 0 <= i <= period
      invariant canStake == INIT_MAX_STAKE + StakeGrowth(i)
    {
      canStake := canStake + ShiftRight(INIT_STAKE_ADD, i / 3);
      i := i + 1;
    }
  }

  method SaveAddedStake(db: AccountDB, k: MinerKey, m: Miner, value: u64, height: nat) returns (e: Ending)
    modifies db
    ensures Follows(e, db.data, SaveStakedMiner(old(db.data), k, m, value, height))
  {
    var saved := m;
    if m.status.Active? {
      if k.role.Proposal? {
        e := db.GrowTotal(value);
        if e.Crash? { return; }
      }
    } else if m.keys.Keys? && m.stake >= MIN_MINER_STAKE {
      saved := WithStatus(m, Active, height);
      e := db.EnterPool(k, m.stake);
      if e.Crash? { return; }
    }
    db.SaveMiner(k, saved);
    return Success;
  }

  method AddToDetail(db: AccountDB, dk: StakeKey, value: u64, height: nat) returns (e: Ending)
    modifies db
    ensures Follows(e, db.data, RaiseDetail(old(db.data), dk, value, height))
  {
    var d := Detail(value, height, 0, 0);
    if dk in db.data.staked {
      d := db.data.staked[dk];
      if Add64(d.value, value) < d.value { return Failure(RSFail); }
      d := d.(value := Add64(d.value, value), height := height);
    }
    db.SaveStaked(dk, d);
    return Success;
  }

  /** Pays the stake out of the balance and works out the new miner record. */
  method PrepareStakeAdd(db: AccountDB, dk: StakeKey, value: u64, keys: Keys, ctx: Context) returns (e: Ending, m: Miner)
    modifies db
    ensures var check := StakeAddCheck(old(db.data), dk, value, keys, ctx);
            && (check.Refused? ==> e == Failure(check.rs))
            && (check.Accepted? ==>
                  && e == Success
                  && m == StakedMiner(old(db.data), MinerKey(dk.target, dk.role), dk.source, value, keys, ctx.height)
                  && db.data == Debit(old(db.data), dk.source, value))
  {
    var k, read := MinerKey(dk.target, dk.role), db.data;
    m := Miner(value, Prepare, 0, Normal, 0, ctx.height, NoKeys);
    if !StakeAddAllowed(read, dk.source, dk.target, dk.role, ctx.platform) { return Failure(RSUnSupportOp), m; }
    if value > 0 {
      if Balance(read, dk.source) < value { return Failure(RSBalanceNotEnough), m; }
      db.data := db.data.(balances := read.balances[dk.source := Balance(read, dk.source) - value]);
    }
    if k in read.miners {
      m := read.miners[k];
      if m.status.Frozen? { return Failure(RSStakeFrozen), m; }
      if Add64(m.stake, value) < m.stake { return Failure(RSFail), m; }
      m := m.(stake := Add64(m.stake, value));
    }
    if dk.target == dk.source && keys.Keys? { m := m.(keys := keys); }
    if m.stake > StakeLimit(read, k, ctx.height) { return Failure(RSStakeOverLimit), m; }
    return Success, m;
  }

  method ProcessStakeAdd(
      db: AccountDB, source: Address, target: Address, role: Role, value: u64, keys: Keys, ctx: Context)
    returns (e: Ending)
    modifies db
    ensures Follows(e, db.data, StakeAdd(old(db.data), source, target, role, value, keys, ctx))
  {
    var m;
    e, m := PrepareStakeAdd(db, StakeKey(target, source, role), value, keys, ctx);
    if e != Success { return; }
    e := SaveAddedStake(db, MinerKey(target, role), m, value, ctx.height);
    if e != Success { return; }
    e := AddToDetail(db, StakeKey(target, source, role), value, ctx.height);
  }

  method SaveLessStake(db: AccountDB, k: MinerKey, m: Miner, origin: u64, value: u64, height: nat) returns (e: Ending)
    modifies db
    ensures Follows(e, db.data, SaveReducedMiner(old(db.data), k, m, origin, value, height))
  {
    var saved := m;
    if m.status.Active? && k.role.Proposal? {
      if m.stake < MIN_MINER_STAKE {
        e := db.LeavePool(k, origin);
        if e.Crash? { return; }
        saved := WithStatus(m, Prepare, height);
      } else {
        e := db.ShrinkTotal(value);
        if e.Crash? { return; }
      }
    }
    db.SaveMiner(k, saved);
    return Success;
  }

  /** Moves stake from the staked detail to the frozen one. */
  method FreezeDetail(db: AccountDB, dk: StakeKey, origin: u64, value: u64, height: nat) returns (e: Ending)
    modifies db
    ensures Follows(e, db.data, FreezeStake(old(db.data), dk, origin, value, height))
  {
    if dk !in db.data.staked { return Failure(RSFail); }
    var d := db.data.staked[dk];
    if height < d.dismissHeight { return Failure(RSReduceHeightNotEnough); }
    if d.value > origin { return Crash; }
    if d.value < value { return Failure(RSStakeLessThanReduce); }
    d := d.(value := d.value - value, height := height);
    if d.value == 0 { db.RemoveStaked(dk); } else { db.SaveStaked(dk, d); }
    var f := Detail(value, height, 0, 0);
    if dk in db.data.frozen {
      f := db.data.frozen[dk];
      f := f.(value := Add64(f.value, value), height := height);
    }
    db.SaveFrozen(dk, f);
    return Success;
  }

  /** Cuts a miner's stake and freezes what was taken. */
  method CutMinerStake(db: AccountDB, dk: StakeKey, m: Miner, value: u64, height: nat) returns (e: Ending)
    requires MinerKey(dk.target, dk.role) in db.data.miners && db.data.miners[MinerKey(dk.target, dk.role)] == m
    requires value <= m.stake
    modifies db
    ensures Follows(e, db.data, CutStake(old(db.data), dk, value, height))
  {
    var k := MinerKey(dk.target, dk.role);
    e := SaveLessStake(db, k, m.(stake := m.stake - value), m.stake, value, height);
    if e != Success { return; }
    e := FreezeDetail(db, dk, m.stake, value, height);
  }

  method ProcessStakeReduce(db: AccountDB, source: Address, target: Address, role: Role, value: u64, ctx: Context)
    returns (e: Ending)
    modifies db
    ensures Follows(e, db.data, StakeReduce(old(db.data), source, target, role, value, ctx))
  {
    var k := MinerKey(target, role);
    if k !in db.data.miners { return Failure(RSNotExists); }
    var m := db.data.miners[k];
    if m.stake < value { return Failure(RSStakeLessThanReduce); }
    if m.status.Frozen? { return Failure(RSStakeFrozen); }
    if m.stake - value < MIN_MINER_STAKE && role.Verify? {
      if m.status.Active? { return Failure(RSVerifyLowerStake); }
      if target in ctx.liveMembers { return Failure(RSVerifyInGroup); }
    }
    e := CutMinerStake(db, StakeKey(target, source, role), m, value, ctx.height);
  }

  method ProcessStakeRefund(db: AccountDB, source: Address, target: Address, role: Role, ctx: Context) returns (e: Ending)
    modifies db
    ensures Follows(e, db.data, StakeRefund(old(db.data), source, target, role, ctx))
  {
    var dk := StakeKey(target, source, role);
    if dk !in db.data.frozen { return Failure(RSFail); }
    var d := db.data.frozen[dk];
    var delay := 2 * ONE_DAY_BLOCKS;
    if ctx.height < ZIP004 && ZIP003 <= d.height && source != ctx.platform { delay := 90 * ONE_DAY_BLOCKS; }
    if ctx.height <= d.height + delay { return Failure(RSRefundHeightNotEnough); }
    db.data := db.data.(frozen := db.data.frozen - {dk});
    db.AddToBalance(source, d.value);
    return Success;
  }

  method ProcessMinerAbort(db: AccountDB, addr: Address, role: Role, ctx: Context) returns (e: Ending)
    modifies db
    ensures Follows(e, db.data, MinerAbort(old(db.data), addr, role, ctx))
  {
    var k := MinerKey(addr, role);
    if role.Proposal? && IdentityOf(db.data, addr).InvalidPool? { return Failure(RSUnSupportOp); }
    if k !in db.data.miners { return Failure(RSNotExists); }
    var m := db.data.miners[k];
    if m.status.Prepare? { return Failure(RSAbortHasPrepared); }
    if m.status.Frozen? && ctx.height <= m.statusHeight + ONE_HOUR_BLOCKS { return Failure(RSStakeFrozen); }
    if m.status.Active? {
      e := db.LeavePool(k, m.stake);
      if e.Crash? { return; }
    }
    db.SaveMiner(k, WithStatus(m, Prepare, ctx.height));
    return Success;
  }

  method ProcessMinerFreeze(db: AccountDB, addr: Address, ctx: Context) returns (e: Ending)
    modifies db
    ensures Follows(e, db.data, MinerFreeze(old(db.data), addr, ctx))
  {
    var k := MinerKey(addr, Verify);
    if k !in db.data.miners { return Failure(RSNotExists); }
    var m := db.data.miners[k];
    if m.status.Frozen? { return Failure(RSFail); }
    if m.status.Active? {
      e := db.LeavePool(k, m.stake);
      if e.Crash? { return; }
    }
    db.SaveMiner(k, WithStatus(m, Frozen, ctx.height));
    return Success;
  }

  // ----- Penalties

  method TakeFromDetails(db: AccountDB, dk: StakeKey, value: u64, height: nat) returns (e: Ending)
    modifies db
    ensures Follows(e, db.data, TakePenalty(old(db.data), dk, value, height))
  {
    if dk !in db.data.staked { return Crash; }
    var d := db.data.staked[dk];
    if d.value > value {
      db.SaveStaked(dk, d.(value := d.value - value, height := height));
      return Success;
    }
    var remain := value - d.value;
    db.RemoveStaked(dk);
    if remain > 0 {
      if dk !in db.data.frozen { return Crash; }
      var f := db.data.frozen[dk];
      if f.value < remain { return Crash; }
      db.SaveFrozen(dk, f.(value := f.value - remain, height := height));
    }
    return Success;
  }

  method PenalizeTarget(db: AccountDB, addr: Address, value: u64, height: nat) returns (e: Ending)
    modifies db
    ensures Follows(e, db.data, Penalize(old(db.data), addr, value, height))
  {
    var k := MinerKey(addr, Verify);
    if k !in db.data.miners { return Failure(RSNotExists); }
    var m := db.data.miners[k];
    if m.status.Active? {
      e := db.LeavePool(k, m.stake);
      if e.Crash? { return; }
    }
    if m.stake < value { return Crash; }
    db.SaveMiner(k, WithStatus(m.(stake := m.stake - value), Frozen, height));
    var p := Detail(value, height, 0, 0);
    if addr in db.data.punished {
      p := db.data.punished[addr];
      p := p.(value := Add64(p.value, value), height := height);
    }
    db.data := db.data.(punished := db.data.punished[addr := p]);
    e := TakeFromDetails(db, StakeKey(addr, addr, Verify), value, height);
  }

  method ProcessMinerPenalty(db: AccountDB, targets: seq<Address>, rewards: seq<Address>, value: u64, ctx: Context)
    returns (e: Ending)
    modifies db
    ensures Follows(e, db.data, MinerPenalty(old(db.data), targets, rewards, value, ctx))
  {
    var i := 0;
    while i < |targets|
      invariant 0 <= i <= |targets|
      invariant PenalizeAll(old(db.data), targets[..i], value, ctx.height) == Done(db.data)
    {
      assert targets[..i + 1][..i] == targets[..i];
      e := PenalizeTarget(db, targets[i], value, ctx.height);
      if e != Success {
        FailedPrefix(old(db.data), targets, value, ctx.height, i + 1);
        return;
      }
      i := i + 1;
    }
    assert targets[..i] == targets;
    if |rewards| > 0 {
      ghost var penalized := db.data;
      var each := PenaltyShare(|targets|, |rewards|, value);
      var j := 0;
      while j < |rewards|
        invariant 0 <= j <= |rewards|
        invariant db.data == RewardAll(penalized, rewards[..j], each)
      {
        assert rewards[..j + 1][..j] == rewards[..j];
        db.AddToBalance(rewards[j], each);
        j := j + 1;
      }
      assert rewards[..j] == rewards;
    }
    return Success;
  }

  /** A penalty that fails on a prefix of the targets fails alike on all of them. */
  lemma {:induction false} FailedPrefix(s: State, targets: seq<Address>, value: u64, height: nat, n: nat)
    requires n <= |targets| && !PenalizeAll(s, targets[..n], value, height).Done?
    ensures PenalizeAll(s, targets, value, height) == PenalizeAll(s, targets[..n], value, height)
    decreases |targets|
  {
    if n == |targets| {
      assert targets[..n] == targets;
    } else {
      var front := targets[..|targets| - 1];
      assert front[..n] == targets[..n];
      FailedPrefix(s, front, value, height, n);
    }
  }

  // ----- Votes and guards

  method ProcessReduceTicket(db: AccountDB, target: Address, height: nat) returns (e: Ending)
    modifies db
    ensures Follows(e, db.data, ReduceTicket(old(db.data), target, height))
  {
    var k := MinerKey(target, Proposal);
    var left := Tickets(db.data, target);
    if left < 1 { left := 0; } else { left := left - 1; }
    db.data := db.data.(tickets := db.data.tickets[target := left]);
    if k in db.data.miners && db.data.miners[k].identity.MinerPool? && left < NeedTickets(height) {
      var m := db.data.miners[k];
      var demoted := WithIdentity(m, InvalidPool, height);
      if m.status.Active? {
        e := db.LeavePool(k, m.stake);
        if e.Crash? { return; }
        demoted := WithStatus(demoted, Prepare, height);
      }
      db.SaveMiner(k, demoted);
    }
    return Success;
  }

  method ProcessVote(db: AccountDB, source: Address, target: Address, ctx: Context) returns (e: Ending)
    modifies db
    ensures Follows(e, db.data, Vote(old(db.data), source, target, ctx))
  {
    var read := db.data;
    if IdentityOf(read, target).Guard? { return Failure(RSUnSupportOp); }
    if !IdentityOf(read, source).Guard? { return Failure(RSUnSupportOp); }
    var prior := ZERO_ADDRESS;
    if source in read.votes {
      if !CanVoteAgain(read.votes[source].height, ctx.height) { return Failure(RSVoteNotInRound); }
      prior := read.votes[source].target;
    }
    db.data := db.data.(votes := db.data.votes[source := VoteInfo(target, ctx.height)]);
    if !(prior == target && prior != ZERO_ADDRESS) {
      if prior != ZERO_ADDRESS {
        e := ProcessReduceTicket(db, prior, ctx.height);
        if e != Success { return; }
      }
      db.data := db.data.(tickets := db.data.tickets[target := Tickets(db.data, target) + 1]);
    }
    if Tickets(db.data, target) >= NeedTickets(ctx.height) && !IdentityOf(read, target).MinerPool? {
      db.SaveMiner(MinerKey(target, Proposal), PromotedMiner(read, target, ctx.height));
    }
    return Success;
  }

  method BecomeGuard(db: AccountDB, a: Address, was: Identity, height: nat) returns (e: Ending)
    requires StakeKey(a, a, Proposal) in db.data.staked
    modifies db
    ensures Follows(e, db.data, BecomeFullGuard(old(db.data), a, was, height))
  {
    var dk := StakeKey(a, a, Proposal);
    var d := db.data.staked[dk];
    if was.Guard? && d.dismissHeight != 0 {
      d := d.(dismissHeight := d.dismissHeight + HALF_PERIOD);
    } else {
      d := d.(dismissHeight := height + HALF_PERIOD);
      if was.Guard? {
        if a !in db.data.fund { return Failure(RSFail); }
        db.data := db.data.(fund := db.data.fund[a := db.data.fund[a].(kind := FullStakeGuardNode, height := height)]);
      }
      db.data := db.data.(fullStake := db.data.fullStake + {a});
    }
    db.SaveStaked(dk, d);
    return Success;
  }

  method ProcessApplyGuard(db: AccountDB, a: Address, ctx: Context) returns (e: Ending)
    modifies db
    ensures Follows(e, db.data, ApplyGuard(old(db.data), a, ctx))
  {
    var k, dk := MinerKey(a, Proposal), StakeKey(a, a, Proposal);
    if k !in db.data.miners { return Failure(RSNotExists); }
    var m := db.data.miners[k];
    if m.identity.MinerPool? || m.identity.InvalidPool? { return Failure(RSUnSupportOp); }
    if dk !in db.data.staked { return Failure(RSNotFullStake); }
    var full := MaximumStake(ctx.height);
    if db.data.staked[dk].value != full { return Failure(RSNotFullStake); }
    if db.data.staked[dk].dismissHeight > ctx.height + HALF_PERIOD { return Failure(RSMaxApplyGuard); }
    db.SaveMiner(k, WithIdentity(m, Guard, ctx.height));
    e := BecomeGuard(db, a, m.identity, ctx.height);
    if e != Success { return; }
    if a in db.data.votes {
      db.data := db.data.(votes := db.data.votes[a := db.data.votes[a].(height := ctx.height)]);
    }
    return Success;
  }

  method ProcessChangeFundMode(db: AccountDB, source: Address, mode: FundMode, ctx: Context) returns (e: Ending)
    modifies db
    ensures Follows(e, db.data, ChangeFundMode(old(db.data), source, mode, ctx))
  {
    if ctx.height > HALF_PERIOD { return Failure(RSChangeModeExpired); }
    if source !in db.data.fund { return Failure(RSUnSupportOp); }
    var f := db.data.fund[source];
    if !f.kind.FundGuardNode? { return Failure(RSUnSupportOp); }
    db.data := db.data.(fund := db.data.fund[source := f.(height := ctx.height, mode := mode)]);
    return Success;
  }

  // ----- Guard expiry

  method GuardNodeExpired(db: AccountDB, a: Address, height: nat, isFund: bool) returns (e: Ending)
    modifies db
    ensures Follows(e, db.data, ExpireGuard(old(db.data), a, height, isFund))
  {
    var k := MinerKey(a, Proposal);
    if k !in db.data.miners { return Failure(RSFail); }
    db.SaveMiner(k, WithIdentity(db.data.miners[k], Normal, height));
    if !isFund { db.data := db.data.(fullStake := db.data.fullStake - {a}); }
    if a in db.data.votes {
      var target := db.data.votes[a].target;
      db.data := db.data.(votes := db.data.votes - {a});
      if target != ZERO_ADDRESS {
        e := ProcessReduceTicket(db, target, height);
        return;
      }
    }
    return Success;
  }

  lemma {:induction false} FailedExpiry(s: State, addrs: seq<Address>, height: nat, isFund: bool, n: nat)
    requires n <= |addrs| && !ExpireGuards(s, addrs[..n], height, isFund).Done?
    ensures ExpireGuards(s, addrs, height, isFund) == ExpireGuards(s, addrs[..n], height, isFund)
    decreases |addrs|
  {
    if n == |addrs| {
      assert addrs[..n] == addrs;
    } else {
      var front := addrs[..|addrs| - 1];
      assert front[..n] == addrs[..n];
      FailedExpiry(s, front, height, isFund, n);
    }
  }

  method ExpireAll(db: AccountDB, addrs: seq<Address>, height: nat, isFund: bool) returns (e: Ending)
    modifies db
    ensures Follows(e, db.data, ExpireGuards(old(db.data), addrs, height, isFund))
  {
    var i := 0;
    while i < |addrs|
      invariant 0 <= i <= |addrs|
      invariant ExpireGuards(old(db.data), addrs[..i], height, isFund) == Done(db.data)
    {
      assert addrs[..i + 1][..i] == addrs[..i];
      e := GuardNodeExpired(db, addrs[i], height, isFund);
      if e != Success {
        FailedExpiry(old(db.data), addrs, height, isFund, i + 1);
        return;
      }
      i := i + 1;
    }
    assert addrs[..i] == addrs;
    return Success;
  }

  lemma MarkNext(s: State, addrs: seq<Address>, height: nat, n: nat)
    requires n < |addrs| && forall i, j :: 0 <= i < j < |addrs| ==> addrs[i] != addrs[j]
    requires forall a :: a in addrs[..n + 1] ==> StakeKey(a, a, Proposal) in s.staked
    ensures var dk := StakeKey(addrs[n], addrs[n], Proposal);
            var s1 := MarkNotFull(s, addrs[..n], height);
            && dk in s1.staked && s1.staked[dk] == s.staked[dk]
            && MarkNotFull(s, addrs[..n + 1], height)
               == if NeedsNotFullMark(s.staked[dk], height)
                  then s1.(staked := s1.staked[dk := s.staked[dk].(notFullHeight := height)]) else s1
  {
    var dk := StakeKey(addrs[n], addrs[n], Proposal);
    var m0, m1 := MarkNotFull(s, addrs[..n], height).staked, MarkNotFull(s, addrs[..n + 1], height).staked;
    assert forall a :: a in addrs[..n + 1] <==> a in addrs[..n] || a == addrs[n];
    assert m1 == if NeedsNotFullMark(s.staked[dk], height) then m0[dk := s.staked[dk].(notFullHeight := height)] else m0;
  }

  /** Marks the detail if it is no longer full, and says whether its guard has expired. */
  method ScanStake(db: AccountDB, dk: StakeKey, height: nat) returns (due: bool)
    requires dk in db.data.staked
    modifies db
    ensures due == FullStakeExpired(old(db.data).staked[dk], height)
    ensures db.data == if NeedsNotFullMark(old(db.data).staked[dk], height)
                       then old(db.data).(staked := old(db.data).staked[dk := old(db.data).staked[dk].(notFullHeight := height)])
                       else old(db.data)
  {
    var d := db.data.staked[dk];
    var full := MaximumStake(height);
    if height > d.dismissHeight + STAKE_BUFFER { return true; }
    if d.notFullHeight > 0 { return height > d.notFullHeight + STAKE_BUFFER; }
    if d.value != full { db.SaveStaked(dk, d.(notFullHeight := height)); }
    return false;
  }

  /** Scans the full-stake pool: marks details that are no longer full and collects the expired guards. */
  method FullStakeScan(db: AccountDB, addrs: seq<Address>, height: nat) returns (e: Ending, expired: seq<Address>)
    requires forall i, j :: 0 <= i < j < |addrs| ==> addrs[i] != addrs[j]
    modifies db
    ensures (exists a :: a in addrs && StakeKey(a, a, Proposal) !in old(db.data).staked) ==> e == Failure(RSFail)
    ensures (forall a :: a in addrs ==> StakeKey(a, a, Proposal) in old(db.data).staked) ==>
              && e == Success && expired == ExpiredAmong(old(db.data), addrs, height)
              && db.data == MarkNotFull(old(db.data), addrs, height)
  {
    ghost var s := db.data;
    expired := [];
    assert MarkNotFull(s, [], height) == s by {
      assert MarkNotFull(s, [], height).staked == s.staked;
    }
    var i := 0;
    while i < |addrs|
      invariant 0 <= i <= |addrs|
      invariant forall a :: a in addrs[..i] ==> StakeKey(a, a, Proposal) in s.staked
      invariant db.data == MarkNotFull(s, addrs[..i], height)
      invariant expired == ExpiredAmong(s, addrs[..i], height)
    {
      var dk := StakeKey(addrs[i], addrs[i], Proposal);
      if dk !in db.data.staked { return Failure(RSFail), []; }
      assert forall a :: a in addrs[..i + 1] <==> a in addrs[..i] || a == addrs[i];
      MarkNext(s, addrs, height, i);
      assert addrs[..i + 1][..i] == addrs[..i];
      var due := ScanStake(db, dk, height);
      if due { expired := expired + [addrs[i]]; }
      i := i + 1;
    }
    assert addrs[..i] == addrs;
    return Success, expired;
  }

  method FullStakeCheck(db: AccountDB, height: nat) returns (e: Ending)
    modifies db
    ensures Follows(e, db.data, FullStakePass(old(db.data), height))
  {
    if height < HALF_PERIOD || height % CHECK_INTERVAL != 0 { return Success; }
    var addrs := Listing(db.data.fullStake);
    var expired;
    e, expired := FullStakeScan(db, addrs, height);
    if e != Success { return; }
    e := ExpireAll(db, expired, height, false);
  }

  lemma RetireNext(s: State, addrs: set<Address>, a: Address, height: nat)
    requires addrs <= s.fund.Keys && a in s.fund
    ensures a in RetireFunds(s, addrs, height).fund
    ensures RetireFunds(s, addrs + {a}, height)
            == RetireFunds(s, addrs, height).(
                 fund := RetireFunds(s, addrs, height).fund[a := s.fund[a].(kind := NormalNode, height := height)])
  {
    assert RetireFunds(s, addrs + {a}, height).fund
        == RetireFunds(s, addrs, height).fund[a := s.fund[a].(kind := NormalNode, height := height)];
  }

  ghost function Scanned(s: State, addrs: seq<Address>, mode: FundMode): set<Address> {
    set a | a in FundGuardsOf(s, mode) && a in addrs
  }

  lemma ScanNext(s: State, addrs: seq<Address>, mode: FundMode, height: nat, n: nat, s1: State)
    requires n < |addrs| && addrs[n] in s.fund
    requires s1 == RetireFunds(s, Scanned(s, addrs[..n], mode), height)
    ensures addrs[n] !in FundGuardsOf(s, mode) ==>
              && FundGuardsAmong(s, addrs[..n + 1], mode) == FundGuardsAmong(s, addrs[..n], mode)
              && RetireFunds(s, Scanned(s, addrs[..n + 1], mode), height) == s1
    ensures addrs[n] in FundGuardsOf(s, mode) ==>
              && FundGuardsAmong(s, addrs[..n + 1], mode) == FundGuardsAmong(s, addrs[..n], mode) + [addrs[n]]
              && RetireFunds(s, Scanned(s, addrs[..n + 1], mode), height)
                 == s1.(fund := s1.fund[addrs[n] := s.fund[addrs[n]].(kind := NormalNode, height := height)])
  {
    var done := Scanned(s, addrs[..n], mode);
    assert addrs[..n + 1][..n] == addrs[..n];
    assert forall a :: a in addrs[..n + 1] <==> a in addrs[..n] || a == addrs[n];
    if addrs[n] in FundGuardsOf(s, mode) {
      RetireNext(s, done, addrs[n], height);
      assert Scanned(s, addrs[..n + 1], mode) == done + {addrs[n]};
    } else {
      assert Scanned(s, addrs[..n + 1], mode) == done;
    }
  }

  /** Retires the guard `a` if its record, as read before the scan, has the mode. */
  method ScanOne(db: AccountDB, read: State, a: Address, mode: FundMode, height: nat) returns (due: bool)
    requires a in read.fund
    modifies db
    ensures due == (a in FundGuardsOf(read, mode))
    ensures !due ==> db.data == old(db.data)
    ensures due ==> db.data == old(db.data).(
                      fund := old(db.data).fund[a := read.fund[a].(kind := NormalNode, height := height)])
  {
    due := read.fund[a].kind.FundGuardNode? && read.fund[a].mode == mode;
    if due {
      db.data := db.data.(fund := db.data.fund[a := read.fund[a].(kind := NormalNode, height := height)]);
    }
  }

  method ScanAll(db: AccountDB, read: State, addrs: seq<Address>, mode: FundMode, height: nat)
    returns (expired: seq<Address>)
    requires read == db.data && forall i :: 0 <= i < |addrs| ==> addrs[i] in read.fund
    modifies db
    ensures expired == FundGuardsAmong(read, addrs, mode)
    ensures db.data == RetireFunds(read, Scanned(read, addrs, mode), height)
  {
    expired := [];
    assert RetireFunds(read, Scanned(read, addrs[..0], mode), height) == read by {
      assert RetireFunds(read, Scanned(read, addrs[..0], mode), height).fund == read.fund;
    }
    var i := 0;
    while i < |addrs|
      invariant 0 <= i <= |addrs|
      invariant expired == FundGuardsAmong(read, addrs[..i], mode)
      invariant db.data == RetireFunds(read, Scanned(read, addrs[..i], mode), height)
    {
      ScanNext(read, addrs, mode, height, i, db.data);
      var due := ScanOne(db, read, addrs[i], mode, height);
      if due { expired := expired + [addrs[i]]; }
      i := i + 1;
    }
    assert addrs[..i] == addrs;
  }

  /** Retires the fund guards of one mode and lists them. */
  method FundScan(db: AccountDB, mode: FundMode, height: nat) returns (expired: seq<Address>)
    modifies db
    ensures expired == FundGuardsAmong(old(db.data), Listing(old(db.data).fund.Keys), mode)
    ensures db.data == RetireFunds(old(db.data), FundGuardsOf(old(db.data), mode), height)
  {
    var read := db.data;
    var addrs := Listing(read.fund.Keys);
    expired := ScanAll(db, read, addrs, mode, height);
    assert Scanned(read, addrs, mode) == FundGuardsOf(read, mode);
  }

  /** Retiring the guards of one mode does not touch those of the other. */
  lemma RetireBoth(s: State, height: nat)
    ensures var s1 := RetireFunds(s, FundGuardsOf(s, SixAddFive), height).(scannedSixAddFive := true);
            && s1.fund.Keys == s.fund.Keys && FundGuardsOf(s1, SixAddSix) == FundGuardsOf(s, SixAddSix)
            && RetireFunds(s1, FundGuardsOf(s, SixAddSix), height)
               == RetireFunds(s, FundGuardsOf(s, SixAddFive) + FundGuardsOf(s, SixAddSix), height).(scannedSixAddFive := true)
  {
    var s1 := RetireFunds(s, FundGuardsOf(s, SixAddFive), height).(scannedSixAddFive := true);
    assert RetireFunds(s1, FundGuardsOf(s, SixAddSix), height).fund
        == RetireFunds(s, FundGuardsOf(s, SixAddFive) + FundGuardsOf(s, SixAddSix), height).fund;
  }

  lemma {:induction false} SameFundListing(s: State, s1: State, addrs: seq<Address>, mode: FundMode)
    requires FundGuardsOf(s1, mode) == FundGuardsOf(s, mode)
    ensures FundGuardsAmong(s1, addrs, mode) == FundGuardsAmong(s, addrs, mode)
    decreases |addrs|
  {
    if addrs != [] { SameFundListing(s, s1, addrs[..|addrs| - 1], mode); }
  }

  method FundCheck(db: AccountDB, height: nat) returns (e: Ending)
    modifies db
    ensures Follows(e, db.data, FundPass(old(db.data), height))
  {
    ghost var s := db.data;
    var expired: seq<Address> := [];
    if ScanSixAddFive(db.data, height) {
      expired := FundScan(db, SixAddFive, height);
      db.data := db.data.(scannedSixAddFive := true);
      RetireBoth(s, height);
      SameFundListing(s, db.data, Listing(s.fund.Keys), SixAddSix);
    }
    ghost var s1 := db.data;
    if ScanSixAddSix(db.data, height) {
      var more := FundScan(db, SixAddSix, height);
      db.data := db.data.(scannedSixAddSix := true);
      expired := expired + more;
    }
    assert expired == DueListing(s, height);
    ghost var due := DueFunds(s, height);
    assert RetireFunds(s, {}, height) == s by { assert RetireFunds(s, {}, height).fund == s.fund; }
    assert db.data == RetireFunds(s, due, height).(
                        scannedSixAddFive := s.scannedSixAddFive || ScanSixAddFive(s, height),
                        scannedSixAddSix := s.scannedSixAddSix || ScanSixAddSix(s, height)) by {
      assert FundGuardsOf(s, SixAddFive) + {} == FundGuardsOf(s, SixAddFive);
      assert {} + FundGuardsOf(s, SixAddSix) == FundGuardsOf(s, SixAddSix);
    }
    e := ExpireAll(db, expired, height, true);
  }

  /** The two passes of the periodic check, each with its own snapshot. */
  method GuardNodesCheck(db: AccountDB, height: nat) returns (e: Ending)
    modifies db
    ensures Follows(e, db.data, GuardCheck(old(db.data), height))
  {
    var snapshot := db.data;
    e := FullStakeCheck(db, height);
    if e.Crash? { return; }
    if e.Failure? { db.data := snapshot; }
    snapshot := db.data;
    e := FundCheck(db, height);
    if e.Crash? { return; }
    if e.Failure? { db.data := snapshot; }
    return Success;
  }

  // ----- Executing an operation

  method RunTransition(db: AccountDB, op: Op, ctx: Context) returns (e: Ending)
    modifies db
    ensures Follows(e, db.data, Transition(old(db.data), op, ctx))
  {
    match op
    case OpStakeAdd(source, target, role, value, keys) => e := ProcessStakeAdd(db, source, target, role, value, keys, ctx);
    case OpStakeReduce(source, target, role, value) => e := ProcessStakeReduce(db, source, target, role, value, ctx);
    case OpStakeRefund(source, target, role) => e := ProcessStakeRefund(db, source, target, role, ctx);
    case OpMinerAbort(addr, role) => e := ProcessMinerAbort(db, addr, role, ctx);
    case OpMinerFreeze(addr) => e := ProcessMinerFreeze(db, addr, ctx);
    case OpMinerPenalty(targets, rewards) => e := ProcessMinerPenalty(db, targets, rewards, MIN_MINER_STAKE, ctx);
    case OpVote(source, target) => e := ProcessVote(db, source, target, ctx);
    case OpApplyGuard(addr) => e := ProcessApplyGuard(db, addr, ctx);
    case OpChangeFundMode(source, mode) => e := ProcessChangeFundMode(db, source, mode, ctx);
    case OpGuardCheck => e := GuardNodesCheck(db, ctx.height);
  }

  /** Runs an operation and reverts to the snapshot when it fails; the ledger is then as if it had not run. */
  method ExecuteOperation(db: AccountDB, op: Op, ctx: Context) returns (e: Ending)
    modifies db
    ensures e.Crash? <==> Transition(old(db.data), op, ctx).Panic?
    ensures e.Success? <==> Transition(old(db.data), op, ctx).Done?
    ensures !e.Crash? ==> db.data == Execute(old(db.data), op, ctx)
  {
    var snapshot := db.data;
    e := RunTransition(db, op, ctx);
    if e.Failure? { db.data := snapshot; }
  }
}
