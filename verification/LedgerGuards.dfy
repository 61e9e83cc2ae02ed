/** Votes, tickets, miner pools and guards agree in every ledger that the operations can reach. */
module LedgerGuards {
  import opened Collections
  import opened MapSums
  import opened Ledger
  import opened LedgerStakes

  // ----- The invariant

  ghost function Voters(votes: map<Address, VoteInfo>, a: Address): set<Address> {
    set g | g in votes && votes[g].target == a
  }

  /** A non-zero address holds one ticket for every guard whose vote names it. */
  ghost predicate TicketsExact(tickets: map<Address, nat>, votes: map<Address, VoteInfo>) {
    forall a {:trigger Voters(votes, a)} :: a != ZERO_ADDRESS ==> TicketsIn(tickets, a) == |Voters(votes, a)|
  }

  ghost predicate VotersAreGuards(miners: map<MinerKey, Miner>, votes: map<Address, VoteInfo>) {
    forall g {:trigger g in votes} :: g in votes ==> IdentityIn(miners, g).Guard?
  }

  /** Every miner pool has the tickets it needs. */
  ghost predicate PoolsBacked(miners: map<MinerKey, Miner>, tickets: map<Address, nat>, need: nat) {
    forall a {:trigger IdentityIn(miners, a)} :: IdentityIn(miners, a).MinerPool? ==> TicketsIn(tickets, a) >= need
  }

  predicate Working(miners: map<MinerKey, Miner>, a: Address) {
    MinerKey(a, Proposal) in miners && miners[MinerKey(a, Proposal)].status.Active?
  }

  ghost predicate InvalidPoolsIdle(miners: map<MinerKey, Miner>) {
    forall a {:trigger Working(miners, a)} :: Working(miners, a) ==> !IdentityIn(miners, a).InvalidPool?
  }

  predicate FundGuardIn(fund: map<Address, FundRecord>, a: Address) {
    a in fund && fund[a].kind.FundGuardNode?
  }

  /** The dismissal height of what `a` staked for itself as a proposer. */
  function SelfDismiss(staked: map<StakeKey, Detail>, a: Address): nat {
    if StakeKey(a, a, Proposal) in staked then staked[StakeKey(a, a, Proposal)].dismissHeight else 0
  }

  /** `a` is a guard exactly when it is a fund guard in its initial type, a member of the full-stake pool or
      a fund guard being retired (`leaving`), and it is never two of these. */
  predicate GuardExact(
    miners: map<MinerKey, Miner>, fund: map<Address, FundRecord>, fullStake: set<Address>, leaving: set<Address>, a: Address)
  {
    && (IdentityIn(miners, a).Guard? <==> FundGuardIn(fund, a) || a in fullStake || a in leaving)
    && !(FundGuardIn(fund, a) && a in fullStake)
    && !(FundGuardIn(fund, a) && a in leaving)
    && !(a in fullStake && a in leaving)
  }

  ghost predicate GuardsExact(
    miners: map<MinerKey, Miner>, fund: map<Address, FundRecord>, fullStake: set<Address>, leaving: set<Address>)
  {
    forall a {:trigger GuardExact(miners, fund, fullStake, leaving, a)} :: GuardExact(miners, fund, fullStake, leaving, a)
  }

  /** A fund guard in its initial type never applied, so its stake has no dismissal height. */
  ghost predicate FundsUndismissed(fund: map<Address, FundRecord>, staked: map<StakeKey, Detail>) {
    forall a {:trigger FundGuardIn(fund, a)} :: FundGuardIn(fund, a) ==> SelfDismiss(staked, a) == 0
  }

  ghost predicate Ballots(
    miners: map<MinerKey, Miner>, tickets: map<Address, nat>, votes: map<Address, VoteInfo>, need: nat)
  {
    && TicketsExact(tickets, votes) && VotersAreGuards(miners, votes)
    && PoolsBacked(miners, tickets, need) && InvalidPoolsIdle(miners)
  }

  ghost predicate VoteInv(s: State, need: nat, leaving: set<Address>) {
    match s
    case State(_, miners, staked, _, _, _, _, tickets, votes, fund, fullStake, _, _) =>
      && Ballots(miners, tickets, votes, need)
      && GuardsExact(miners, fund, fullStake, leaving) && FundsUndismissed(fund, staked)
  }

  /** The whole invariant of the ledger at a height. */
  ghost predicate Inv(s: State, height: nat) {
    StakeInv(s) && VoteInv(s, NeedTickets(height), {})
  }

  // ----- Tickets against votes

  lemma TakeVote(tickets: map<Address, nat>, votes: map<Address, VoteInfo>, g: Address)
    requires TicketsExact(tickets, votes) && g in votes
    ensures votes[g].target == ZERO_ADDRESS ==> TicketsExact(tickets, votes - {g})
    ensures votes[g].target != ZERO_ADDRESS ==>
              && TicketsIn(tickets, votes[g].target) >= 1
              && TicketsExact(tickets[votes[g].target := TicketsIn(tickets, votes[g].target) - 1], votes - {g})
  {
    var t := votes[g].target;
    assert g in Voters(votes, t);
    forall a ensures Voters(votes - {g}, a) == Voters(votes, a) - (if a == t then {g} else {}) {
    }
  }

  lemma VotersPut(votes: map<Address, VoteInfo>, g: Address, v: VoteInfo, a: Address)
    ensures Voters(votes[g := v], a) == if v.target == a then Voters(votes, a) + {g} else Voters(votes, a) - {g}
  {
  }

  lemma GiveVote(tickets: map<Address, nat>, votes: map<Address, VoteInfo>, g: Address, t: Address, height: nat)
    requires TicketsExact(tickets, votes) && g !in votes
    ensures TicketsExact(tickets[t := TicketsIn(tickets, t) + 1], votes[g := VoteInfo(t, height)])
  {
    var tickets', votes' := tickets[t := TicketsIn(tickets, t) + 1], votes[g := VoteInfo(t, height)];
    forall a | a != ZERO_ADDRESS ensures TicketsIn(tickets', a) == |Voters(votes', a)| {
      VotersPut(votes, g, VoteInfo(t, height), a);
      assert g !in Voters(votes, a);
    }
  }

  lemma RenewVote(tickets: map<Address, nat>, votes: map<Address, VoteInfo>, g: Address, height: nat)
    requires TicketsExact(tickets, votes) && g in votes
    ensures TicketsExact(tickets, votes[g := VoteInfo(votes[g].target, height)])
  {
    var votes' := votes[g := VoteInfo(votes[g].target, height)];
    forall a | a != ZERO_ADDRESS ensures TicketsIn(tickets, a) == |Voters(votes', a)| {
      VotersPut(votes, g, VoteInfo(votes[g].target, height), a);
      assert votes[g].target == a <==> g in Voters(votes, a);
      assert Voters(votes', a) == Voters(votes, a);
    }
  }

  // ----- What operations on stake leave alone

  ghost predicate Calm(s: State, s': State) {
    match s'
    case State(_, miners, staked, _, _, _, _, tickets, votes, fund, fullStake, _, _) =>
      && tickets == s.tickets && votes == s.votes && fund == s.fund && fullStake == s.fullStake
      && (forall a {:trigger IdentityIn(miners, a)} :: IdentityIn(miners, a) == IdentityIn(s.miners, a))
      && (forall a {:trigger Working(miners, a)} ::
            Working(miners, a) ==> Working(s.miners, a) || !IdentityIn(s.miners, a).InvalidPool?)
      && (forall a {:trigger SelfDismiss(staked, a)} ::
            SelfDismiss(staked, a) == SelfDismiss(s.staked, a) || SelfDismiss(staked, a) == 0)
  }

  lemma SameGuards(
      miners: map<MinerKey, Miner>, miners': map<MinerKey, Miner>, fund: map<Address, FundRecord>,
      fullStake: set<Address>, leaving: set<Address>)
    requires GuardsExact(miners, fund, fullStake, leaving)
    requires forall a {:trigger IdentityIn(miners', a)} :: IdentityIn(miners', a).Guard? == IdentityIn(miners, a).Guard?
    ensures GuardsExact(miners', fund, fullStake, leaving)
  {
    forall a ensures GuardExact(miners', fund, fullStake, leaving, a) {
      assert GuardExact(miners, fund, fullStake, leaving, a);
      assert IdentityIn(miners', a).Guard? == IdentityIn(miners, a).Guard?;
    }
  }

  lemma CalmKeeps(s: State, s': State, need: nat)
    requires Calm(s, s') && VoteInv(s, need, {})
    ensures VoteInv(s', need, {})
  {
    SameGuards(s.miners, s'.miners, s.fund, s.fullStake, {});
    assert forall a {:trigger Working(s'.miners, a)} :: IdentityIn(s'.miners, a) == IdentityIn(s.miners, a);
  }

  lemma CalmTwice(s: State, s1: State, s2: State)
    requires Calm(s, s1) && Calm(s1, s2)
    ensures Calm(s, s2)
  {
    assert forall a {:trigger IdentityIn(s2.miners, a)} :: IdentityIn(s1.miners, a) == IdentityIn(s.miners, a);
    assert forall a {:trigger Working(s2.miners, a)} ::
        Working(s1.miners, a) ==> Working(s.miners, a) || !IdentityIn(s.miners, a).InvalidPool?;
    assert forall a {:trigger SelfDismiss(s2.staked, a)} ::
        SelfDismiss(s1.staked, a) == SelfDismiss(s.staked, a) || SelfDismiss(s1.staked, a) == 0;
  }

  lemma MinersCalm(miners: map<MinerKey, Miner>, k: MinerKey, m: Miner)
    requires m.identity == if k in miners then miners[k].identity else Normal
    requires m.status.Active? && k.role.Proposal? ==> Working(miners, k.addr) || !IdentityIn(miners, k.addr).InvalidPool?
    ensures forall a {:trigger IdentityIn(miners[k := m], a)} :: IdentityIn(miners[k := m], a) == IdentityIn(miners, a)
    ensures forall a {:trigger Working(miners[k := m], a)} ::
              Working(miners[k := m], a) ==> Working(miners, a) || !IdentityIn(miners, a).InvalidPool?
  {
  }

  lemma StakedCalm(staked: map<StakeKey, Detail>, dk: StakeKey, d: Detail)
    requires d.dismissHeight == if dk in staked then staked[dk].dismissHeight else 0
    ensures forall a {:trigger SelfDismiss(staked[dk := d], a)} :: SelfDismiss(staked[dk := d], a) == SelfDismiss(staked, a)
    ensures forall a {:trigger SelfDismiss(staked - {dk}, a)} ::
              SelfDismiss(staked - {dk}, a) == SelfDismiss(staked, a) || SelfDismiss(staked - {dk}, a) == 0
  {
  }

  lemma StakeAddedCalm(s: State, dk: StakeKey, m: Miner, d: Detail, value: u64)
    requires value <= Balance(s, dk.source) && 0 <= AdjustedTotal(s, KeyOf(dk), m) < TWO64
    requires m.identity == if KeyOf(dk) in s.miners then s.miners[KeyOf(dk)].identity else Normal
    requires dk.role.Proposal? ==> !IdentityIn(s.miners, dk.target).InvalidPool?
    requires d.dismissHeight == if dk in s.staked then s.staked[dk].dismissHeight else 0
    ensures Calm(s, StakeAdded(s, dk, m, d, value))
  {
    MinersCalm(s.miners, KeyOf(dk), m);
    StakedCalm(s.staked, dk, d);
  }

  lemma StakeReducedCalm(s: State, dk: StakeKey, m: Miner, value: u64, height: nat)
    requires dk in s.staked && value <= s.staked[dk].value && 0 <= AdjustedTotal(s, KeyOf(dk), m) < TWO64
    requires KeyOf(dk) in s.miners && m.identity == s.miners[KeyOf(dk)].identity
    requires m.status.Active? ==> s.miners[KeyOf(dk)].status.Active?
    ensures Calm(s, StakeReduced(s, dk, m, value, height))
  {
    MinersCalm(s.miners, KeyOf(dk), m);
    StakedCalm(s.staked, dk, s.staked[dk].(value := s.staked[dk].value - value, height := height));
  }

  lemma SavedCalm(s: State, k: MinerKey, m: Miner)
    requires k in s.miners && m.identity == s.miners[k].identity && !m.status.Active?
    requires 0 <= AdjustedTotal(s, k, m) < TWO64
    ensures Calm(s, Saved(s, k, m))
  {
    MinersCalm(s.miners, k, m);
  }

  lemma PenalizedCalm(s: State, a: Address, m: Miner, value: u64, height: nat)
    requires StakeKey(a, a, Verify) in s.staked && value <= s.staked[StakeKey(a, a, Verify)].value
    requires 0 <= AdjustedTotal(s, MinerKey(a, Verify), m) < TWO64
    ensures Calm(s, Penalized(s, a, m, value, height))
  {
  }

  /** The outcome leaves votes and guards alone. */
  ghost predicate CalmOutcome(o: Outcome, s: State) {
    match o
    case Done(s') => Calm(s, s')
    case Rejected(_) => true
    case Panic => true
  }

  lemma StakeAddCalm(s: State, dk: StakeKey, value: u64, keys: Keys, ctx: Context)
    requires StakeInv(s)
    ensures CalmOutcome(StakeAdd(s, dk.source, dk.target, dk.role, value, keys, ctx), s)
  {
    if StakeAddCheck(s, dk, value, keys, ctx).Accepted? {
      StakeAddIs(s, dk, value, keys, ctx);
      StakeAddedCalm(s, dk, RaisedMiner(s, dk, value, keys, ctx.height), Accumulated(s.staked, dk, value, ctx.height), value);
    }
  }

  lemma StakeReduceCalm(s: State, dk: StakeKey, value: u64, ctx: Context)
    requires StakeInv(s)
    ensures CalmOutcome(StakeReduce(s, dk.source, dk.target, dk.role, value, ctx), s)
  {
    if KeyOf(dk) in s.miners && value <= s.miners[KeyOf(dk)].stake && dk in s.staked && value <= s.staked[dk].value {
      StakeReduceIs(s, dk, value, ctx);
      StakeReducedCalm(s, dk, LoweredMiner(s, dk, value, ctx.height), value, ctx.height);
    } else {
      StakeReduceShort(s, dk, value, ctx);
    }
  }

  lemma MinerAbortCalm(s: State, addr: Address, role: Role, ctx: Context)
    requires StakeInv(s)
    ensures CalmOutcome(MinerAbort(s, addr, role, ctx), s)
  {
    var k := MinerKey(addr, role);
    if k in s.miners {
      UnpoolIs(s, k, WithStatus(s.miners[k], Prepare, ctx.height));
      SavedCalm(s, k, WithStatus(s.miners[k], Prepare, ctx.height));
    }
  }

  lemma MinerFreezeCalm(s: State, addr: Address, ctx: Context)
    requires StakeInv(s)
    ensures CalmOutcome(MinerFreeze(s, addr, ctx), s)
  {
    var k := MinerKey(addr, Verify);
    if k in s.miners {
      UnpoolIs(s, k, WithStatus(s.miners[k], Frozen, ctx.height));
      SavedCalm(s, k, WithStatus(s.miners[k], Frozen, ctx.height));
    }
  }

  lemma PenalizeCalm(s: State, a: Address, value: u64, height: nat)
    requires StakeInv(s) && value > 0
    ensures CalmOutcome(Penalize(s, a, value, height), s)
  {
    var k := MinerKey(a, Verify);
    if k in s.miners && value <= s.miners[k].stake {
      var m := PenalizedMiner(s, a, value, height);
      MinerFacts(s, k);
      VerifierStake(s, a);
      UnpoolEffect(s, k, m);
      PenalizeEffect(s, a, value, height);
      PenalizedCalm(s, a, m, value, height);
    } else {
      PenalizeKeeps(s, a, value, height);
    }
  }

  lemma {:induction false} PenalizeAllCalm(s: State, targets: seq<Address>, value: u64, height: nat)
    requires StakeInv(s) && value > 0
    ensures CalmOutcome(PenalizeAll(s, targets, value, height), s)
    decreases |targets|
  {
    if targets != [] {
      var front := targets[..|targets| - 1];
      PenalizeAllCalm(s, front, value, height);
      PenalizeAllKeeps(s, front, value, height);
      var o := PenalizeAll(s, front, value, height);
      if o.Done? {
        PenalizeCalm(o.st, targets[|targets| - 1], value, height);
        var o' := Penalize(o.st, targets[|targets| - 1], value, height);
        if o'.Done? { CalmTwice(s, o.st, o'.st); }
      }
    }
  }

  lemma {:induction false} RewardAllCalm(s: State, rewards: seq<Address>, each: nat)
    ensures Calm(s, RewardAll(s, rewards, each))
    decreases |rewards|
  {
    if rewards != [] {
      RewardAllCalm(s, rewards[..|rewards| - 1], each);
      var s1 := RewardAll(s, rewards[..|rewards| - 1], each);
      assert Calm(s1, AddBalance(s1, rewards[|rewards| - 1], each));
      CalmTwice(s, s1, AddBalance(s1, rewards[|rewards| - 1], each));
    }
  }

  lemma MinerPenaltyCalm(s: State, targets: seq<Address>, rewards: seq<Address>, value: u64, ctx: Context)
    requires StakeInv(s) && value > 0
    ensures CalmOutcome(MinerPenalty(s, targets, rewards, value, ctx), s)
  {
    PenalizeAllCalm(s, targets, value, ctx.height);
    var o := PenalizeAll(s, targets, value, ctx.height);
    if o.Done? && rewards != [] {
      RewardAllCalm(o.st, rewards, PenaltyShare(|targets|, |rewards|, value));
      CalmTwice(s, o.st, RewardAll(o.st, rewards, PenaltyShare(|targets|, |rewards|, value)));
    }
  }

  // ----- Demoting and promoting pools

  lemma DemotedFacts(miners: map<MinerKey, Miner>, tickets: map<Address, nat>, a: Address, height: nat)
    ensures forall b {:trigger IdentityIn(DemotedIn(miners, tickets, a, height), b)} ::
              && IdentityIn(DemotedIn(miners, tickets, a, height), b).Guard? == IdentityIn(miners, b).Guard?
              && (IdentityIn(DemotedIn(miners, tickets, a, height), b).MinerPool? ==>
                    IdentityIn(miners, b).MinerPool? && (b == a ==> TicketsIn(tickets, a) >= NeedTickets(height)))
    ensures InvalidPoolsIdle(miners) ==> InvalidPoolsIdle(DemotedIn(miners, tickets, a, height))
  {
    assert forall b {:trigger Working(DemotedIn(miners, tickets, a, height), b)} ::
        Working(DemotedIn(miners, tickets, a, height), b) ==>
          Working(miners, b) && IdentityIn(DemotedIn(miners, tickets, a, height), b) == IdentityIn(miners, b);
  }

  /** Whatever tickets `a` has left, demotion keeps every pool backed. */
  lemma BackedAfterDemotion(miners: map<MinerKey, Miner>, tickets: map<Address, nat>, a: Address, left: nat, height: nat)
    requires PoolsBacked(miners, tickets, NeedTickets(height))
    ensures PoolsBacked(DemotedIn(miners, tickets[a := left], a, height), tickets[a := left], NeedTickets(height))
  {
    var tickets' := tickets[a := left];
    var miners' := DemotedIn(miners, tickets', a, height);
    DemotedFacts(miners, tickets', a, height);
    forall b | IdentityIn(miners', b).MinerPool? ensures TicketsIn(tickets', b) >= NeedTickets(height) {
      assert IdentityIn(miners, b).MinerPool?;
    }
  }

  lemma DemotionKeepsVoters(miners: map<MinerKey, Miner>, votes: map<Address, VoteInfo>, tickets: map<Address, nat>, a: Address, height: nat)
    requires VotersAreGuards(miners, votes)
    ensures VotersAreGuards(DemotedIn(miners, tickets, a, height), votes)
  {
    DemotedFacts(miners, tickets, a, height);
  }

  // ----- Voting

  /** Deleting `g`'s vote, with its ticket and the demotion that may follow, keeps votes and tickets in step. */
  lemma DropVote(miners: map<MinerKey, Miner>, s: State, g: Address, height: nat)
    requires TicketsExact(s.tickets, s.votes) && g in s.votes && s.votes[g].target != ZERO_ADDRESS
    requires VotersAreGuards(miners, s.votes - {g})
    requires PoolsBacked(miners, s.tickets, NeedTickets(height)) && InvalidPoolsIdle(miners)
    ensures var tickets := TicketTaken(s, s.votes[g].target).tickets;
            Ballots(DemotedIn(miners, tickets, s.votes[g].target, height), tickets, s.votes - {g}, NeedTickets(height))
  {
    var t := s.votes[g].target;
    TakeVote(s.tickets, s.votes, g);
    BackedAfterDemotion(miners, s.tickets, t, TicketsIn(s.tickets, t) - 1, height);
    DemotionKeepsVoters(miners, s.votes - {g}, TicketTaken(s, t).tickets, t, height);
    DemotedFacts(miners, TicketTaken(s, t).tickets, t, height);
  }

  lemma MoreTickets(miners: map<MinerKey, Miner>, tickets: map<Address, nat>, t: Address, need: nat)
    requires PoolsBacked(miners, tickets, need)
    ensures PoolsBacked(miners, tickets[t := TicketsIn(tickets, t) + 1], need)
  {
  }

  lemma CastVote(
      miners: map<MinerKey, Miner>, tickets: map<Address, nat>, votes: map<Address, VoteInfo>, g: Address, t: Address,
      height: nat, need: nat)
    requires Ballots(miners, tickets, votes, need) && g !in votes && IdentityIn(miners, g).Guard?
    ensures Ballots(miners, tickets[t := TicketsIn(tickets, t) + 1], votes[g := VoteInfo(t, height)], need)
  {
    GiveVote(tickets, votes, g, t, height);
    MoreTickets(miners, tickets, t, need);
  }

  function PriorTarget(s: State, source: Address): Address {
    if source in s.votes then s.votes[source].target else ZERO_ADDRESS
  }

  function WithVote(s: State, source: Address, target: Address, height: nat): State {
    s.(votes := s.votes[source := VoteInfo(target, height)])
  }

  ghost predicate Moved(s: State, s': State, height: nat) {
    match s'
    case State(_, miners, staked, _, _, _, _, tickets, votes, fund, fullStake, _, _) =>
      && Ballots(miners, tickets, votes, NeedTickets(height))
      && (forall a {:trigger IdentityIn(miners, a)} :: IdentityIn(miners, a).Guard? == IdentityIn(s.miners, a).Guard?)
      && staked == s.staked && fund == s.fund && fullStake == s.fullStake
  }

  lemma RenewedVote(s: State, source: Address, target: Address, height: nat)
    requires Ballots(s.miners, s.tickets, s.votes, NeedTickets(height)) && IdentityIn(s.miners, source).Guard?
    requires source in s.votes && s.votes[source].target == target
    ensures Moved(s, WithVote(s, source, target, height), height)
  {
    RenewVote(s.tickets, s.votes, source, height);
  }

  /** A first vote, or a vote after one for nobody. */
  lemma FirstVote(s: State, source: Address, target: Address, height: nat)
    requires Ballots(s.miners, s.tickets, s.votes, NeedTickets(height)) && IdentityIn(s.miners, source).Guard?
    requires PriorTarget(s, source) == ZERO_ADDRESS
    ensures var s1 := WithVote(s, source, target, height);
            Moved(s, s1.(tickets := s1.tickets[target := Tickets(s1, target) + 1]), height)
  {
    if source in s.votes { TakeVote(s.tickets, s.votes, source); } else { assert s.votes - {source} == s.votes; }
    CastVote(s.miners, s.tickets, s.votes - {source}, source, target, height, NeedTickets(height));
    assert (s.votes - {source})[source := VoteInfo(target, height)] == s.votes[source := VoteInfo(target, height)];
  }

  /** The ledger after `source` turned from its prior target to another. */
  function Turned(s: State, source: Address, target: Address, height: nat): State {
    var s1 := TicketTaken(WithVote(s, source, target, height), PriorTarget(s, source));
    s1.(tickets := s1.tickets[target := Tickets(s1, target) + 1],
        miners := DemotedMiners(s1, PriorTarget(s, source), height))
  }

  lemma TurnedVote(s: State, source: Address, target: Address, height: nat)
    requires Ballots(s.miners, s.tickets, s.votes, NeedTickets(height)) && IdentityIn(s.miners, source).Guard?
    requires PriorTarget(s, source) != ZERO_ADDRESS && PriorTarget(s, source) != target
    ensures Moved(s, Turned(s, source, target, height), height)
  {
    var prior := PriorTarget(s, source);
    var tickets := TicketTaken(s, prior).tickets;
    var miners := DemotedIn(s.miners, tickets, prior, height);
    DropVote(s.miners, s, source, height);
    DemotedFacts(s.miners, tickets, prior, height);
    CastVote(miners, tickets, s.votes - {source}, source, target, height, NeedTickets(height));
    assert (s.votes - {source})[source := VoteInfo(target, height)] == s.votes[source := VoteInfo(target, height)];
  }

  lemma MovedPool(s: State, s': State, height: nat, pool: set<MinerKey>, proposalTotal: u64)
    requires Moved(s, s', height)
    ensures Moved(s, s'.(pool := pool, proposalTotal := proposalTotal), height)
  {
  }

  lemma MoveTicketBallots(s: State, source: Address, target: Address, height: nat)
    requires Ballots(s.miners, s.tickets, s.votes, NeedTickets(height)) && IdentityIn(s.miners, source).Guard?
    requires MoveTicket(WithVote(s, source, target, height), PriorTarget(s, source), target, height).Done?
    ensures Moved(s, MoveTicket(WithVote(s, source, target, height), PriorTarget(s, source), target, height).st, height)
  {
    var prior, s1 := PriorTarget(s, source), WithVote(s, source, target, height);
    if prior == ZERO_ADDRESS {
      FirstVote(s, source, target, height);
    } else if prior == target {
      RenewedVote(s, source, target, height);
    } else {
      var s' := MoveTicket(s1, prior, target, height).st;
      MoveTicketTurn(s1, prior, target, height);
      TurnedVote(s, source, target, height);
      MovedPool(s, Turned(s, source, target, height), height, s'.pool, s'.proposalTotal);
    }
  }

  /** A change of one identity, as seen by votes, pools and guards. */
  lemma IdentityPut(miners: map<MinerKey, Miner>, a: Address, m: Miner)
    ensures forall b {:trigger IdentityIn(miners[MinerKey(a, Proposal) := m], b)} ::
              IdentityIn(miners[MinerKey(a, Proposal) := m], b) == if b == a then m.identity else IdentityIn(miners, b)
    ensures forall b {:trigger Working(miners[MinerKey(a, Proposal) := m], b)} ::
              Working(miners[MinerKey(a, Proposal) := m], b) == if b == a then m.status.Active? else Working(miners, b)
  {
  }

  lemma BallotsPut(
      miners: map<MinerKey, Miner>, tickets: map<Address, nat>, votes: map<Address, VoteInfo>, need: nat, a: Address, m: Miner)
    requires Ballots(miners, tickets, votes, need)
    requires a in votes ==> m.identity.Guard?
    requires m.identity.MinerPool? ==> TicketsIn(tickets, a) >= need
    requires m.status.Active? ==> !m.identity.InvalidPool?
    ensures Ballots(miners[MinerKey(a, Proposal) := m], tickets, votes, need)
  {
    var miners' := miners[MinerKey(a, Proposal) := m];
    IdentityPut(miners, a, m);
    assert forall b {:trigger IdentityIn(miners', b)} :: b != a ==> IdentityIn(miners', b) == IdentityIn(miners, b);
    assert forall b {:trigger Working(miners', b)} :: b != a ==> IdentityIn(miners', b) == IdentityIn(miners, b);
  }

  lemma PromotedBallots(s: State, a: Address, m: Miner, height: nat)
    requires Ballots(s.miners, s.tickets, s.votes, NeedTickets(height)) && !IdentityIn(s.miners, a).Guard?
    requires m.identity.MinerPool? && Tickets(s, a) >= NeedTickets(height)
    ensures Moved(s, SetMiner(s, MinerKey(a, Proposal), m), height)
  {
    BallotsPut(s.miners, s.tickets, s.votes, NeedTickets(height), a, m);
    IdentityPut(s.miners, a, m);
  }

  lemma PromoteBallots(read: State, s: State, a: Address, height: nat)
    requires Ballots(s.miners, s.tickets, s.votes, NeedTickets(height)) && !IdentityIn(s.miners, a).Guard?
    ensures Moved(s, PromotePool(read, s, a, height), height)
  {
    if Tickets(s, a) >= NeedTickets(height) {
      PromotedBallots(s, a, PromotedMiner(read, a, height), height);
    }
  }

  lemma MovedKeeps(s: State, s': State, height: nat)
    requires VoteInv(s, NeedTickets(height), {}) && Moved(s, s', height)
    ensures VoteInv(s', NeedTickets(height), {})
  {
    SameGuards(s.miners, s'.miners, s.fund, s.fullStake, {});
  }

  lemma VoteVotes(s: State, source: Address, target: Address, ctx: Context)
    requires VoteInv(s, NeedTickets(ctx.height), {}) && Vote(s, source, target, ctx).Done?
    ensures VoteInv(Vote(s, source, target, ctx).st, NeedTickets(ctx.height), {})
  {
    var prior, s1 := PriorTarget(s, source), WithVote(s, source, target, ctx.height);
    var s2 := MoveTicket(s1, prior, target, ctx.height).st;
    MoveTicketBallots(s, source, target, ctx.height);
    MovedKeeps(s, s2, ctx.height);
    assert IdentityIn(s2.miners, target).Guard? == IdentityIn(s.miners, target).Guard?;
    PromoteBallots(s, s2, target, ctx.height);
    MovedKeeps(s2, PromotePool(s, s2, target, ctx.height), ctx.height);
  }

  // ----- Applying for the guard role

  lemma GuardsPut(
      miners: map<MinerKey, Miner>, fund: map<Address, FundRecord>, fullStake: set<Address>, leaving: set<Address>,
      a: Address, m: Miner, fund': map<Address, FundRecord>, fullStake': set<Address>, leaving': set<Address>)
    requires GuardsExact(miners, fund, fullStake, leaving)
    requires forall b {:trigger FundGuardIn(fund', b)} :: b != a ==> FundGuardIn(fund', b) == FundGuardIn(fund, b)
    requires forall b :: b != a ==> (b in fullStake' <==> b in fullStake) && (b in leaving' <==> b in leaving)
    requires GuardExact(miners[MinerKey(a, Proposal) := m], fund', fullStake', leaving', a)
    ensures GuardsExact(miners[MinerKey(a, Proposal) := m], fund', fullStake', leaving')
  {
    IdentityPut(miners, a, m);
    var miners' := miners[MinerKey(a, Proposal) := m];
    forall b ensures GuardExact(miners', fund', fullStake', leaving', b) {
      assert GuardExact(miners, fund, fullStake, leaving, b);
      assert b != a ==> FundGuardIn(fund', b) == FundGuardIn(fund, b);
    }
  }

  lemma DismissPut(fund: map<Address, FundRecord>, fund': map<Address, FundRecord>, s: State, a: Address, height: nat)
    requires FundsUndismissed(fund, s.staked) && StakeKey(a, a, Proposal) in s.staked && !FundGuardIn(fund', a)
    requires forall b {:trigger FundGuardIn(fund', b)} :: b != a ==> FundGuardIn(fund', b) == FundGuardIn(fund, b)
    ensures FundsUndismissed(fund', SetDismiss(s, StakeKey(a, a, Proposal), height).staked)
  {
    forall b | FundGuardIn(fund', b) ensures SelfDismiss(SetDismiss(s, StakeKey(a, a, Proposal), height).staked, b) == 0 {
      assert b != a && FundGuardIn(fund, b);
    }
  }

  /** `a` saved as a guard with a dismissal height, listed in the full-stake pool and no initial fund guard. */
  lemma FullGuardKeeps(
      s: State, a: Address, m: Miner, fund: map<Address, FundRecord>, fullStake: set<Address>, height: nat, need: nat)
    requires VoteInv(s, need, {}) && StakeKey(a, a, Proposal) in s.staked && m.identity.Guard?
    requires a in fullStake && !FundGuardIn(fund, a)
    requires forall b {:trigger FundGuardIn(fund, b)} :: b != a ==> FundGuardIn(fund, b) == FundGuardIn(s.fund, b)
    requires forall b :: b != a ==> (b in fullStake <==> b in s.fullStake)
    ensures VoteInv(SetDismiss(SetMiner(s, MinerKey(a, Proposal), m), StakeKey(a, a, Proposal), height).(
                      fund := fund, fullStake := fullStake), need, {})
  {
    BallotsPut(s.miners, s.tickets, s.votes, need, a, m);
    GuardsPut(s.miners, s.fund, s.fullStake, {}, a, m, fund, fullStake, {});
    DismissPut(s.fund, fund, SetMiner(s, MinerKey(a, Proposal), m), a, height);
  }

  /** A fund guard that applies for the first time moves over to the full-stake guards. */
  function NewFund(
    dismiss: nat, fund: map<Address, FundRecord>, a: Address, was: Identity, height: nat): map<Address, FundRecord>
  {
    if was.Guard? && dismiss == 0 && a in fund
    then fund[a := fund[a].(kind := FullStakeGuardNode, height := height)] else fund
  }

  function NewFullStake(dismiss: nat, fullStake: set<Address>, a: Address, was: Identity): set<Address> {
    if was.Guard? && dismiss != 0 then fullStake else fullStake + {a}
  }

  function NewDismiss(dismiss: nat, was: Identity, height: nat): nat {
    if was.Guard? && dismiss != 0 then dismiss + HALF_PERIOD else height + HALF_PERIOD
  }

  lemma BecomeFullGuardIs(s: State, a: Address, was: Identity, height: nat, dismiss: nat)
    requires StakeKey(a, a, Proposal) in s.staked && BecomeFullGuard(s, a, was, height).Done?
    requires dismiss == s.staked[StakeKey(a, a, Proposal)].dismissHeight
    ensures BecomeFullGuard(s, a, was, height)
            == Done(SetDismiss(s, StakeKey(a, a, Proposal), NewDismiss(dismiss, was, height)).(
                      fund := NewFund(dismiss, s.fund, a, was, height),
                      fullStake := NewFullStake(dismiss, s.fullStake, a, was)))
  {
  }

  lemma NewGuardFits(s: State, a: Address, was: Identity, height: nat, need: nat)
    requires VoteInv(s, need, {}) && was == IdentityIn(s.miners, a) && (was.Normal? || was.Guard?)
    requires was.Guard? && SelfDismiss(s.staked, a) == 0 ==> a in s.fund
    ensures a in NewFullStake(SelfDismiss(s.staked, a), s.fullStake, a, was)
    ensures !FundGuardIn(NewFund(SelfDismiss(s.staked, a), s.fund, a, was, height), a)
  {
    assert GuardExact(s.miners, s.fund, s.fullStake, {}, a);
    assert FundGuardIn(s.fund, a) ==> SelfDismiss(s.staked, a) == 0;
  }

  lemma BecomeGuardKeeps(s: State, a: Address, m: Miner, was: Identity, height: nat, need: nat)
    requires VoteInv(s, need, {}) && StakeKey(a, a, Proposal) in s.staked && m.identity.Guard?
    requires was == IdentityIn(s.miners, a) && (was.Normal? || was.Guard?)
    requires BecomeFullGuard(SetMiner(s, MinerKey(a, Proposal), m), a, was, height).Done?
    ensures VoteInv(BecomeFullGuard(SetMiner(s, MinerKey(a, Proposal), m), a, was, height).st, need, {})
  {
    var dismiss := SelfDismiss(s.staked, a);
    NewGuardFits(s, a, was, height, need);
    FullGuardKeeps(s, a, m, NewFund(dismiss, s.fund, a, was, height), NewFullStake(dismiss, s.fullStake, a, was),
                   NewDismiss(dismiss, was, height), need);
    BecomeFullGuardIs(SetMiner(s, MinerKey(a, Proposal), m), a, was, height, dismiss);
  }

  lemma RenewKeeps(s: State, a: Address, height: nat, need: nat)
    requires VoteInv(s, need, {}) && a in s.votes
    ensures VoteInv(s.(votes := s.votes[a := s.votes[a].(height := height)]), need, {})
  {
    RenewVote(s.tickets, s.votes, a, height);
    assert s.votes[a].(height := height) == VoteInfo(s.votes[a].target, height);
  }

  lemma ApplyGuardVotes(s: State, a: Address, ctx: Context)
    requires VoteInv(s, NeedTickets(ctx.height), {}) && ApplyGuard(s, a, ctx).Done?
    ensures VoteInv(ApplyGuard(s, a, ctx).st, NeedTickets(ctx.height), {})
  {
    var m := s.miners[MinerKey(a, Proposal)];
    BecomeGuardKeeps(s, a, WithIdentity(m, Guard, ctx.height), m.identity, ctx.height, NeedTickets(ctx.height));
    var o := BecomeFullGuard(SetMiner(s, MinerKey(a, Proposal), WithIdentity(m, Guard, ctx.height)), a, m.identity, ctx.height);
    if a in o.st.votes { RenewKeeps(o.st, a, ctx.height, NeedTickets(ctx.height)); }
  }

  // ----- Expiry

  /** `a` stops being a guard; its place among the guards is given up in the same write. */
  lemma RetireKeeps(s: State, a: Address, m: Miner, fullStake: set<Address>, leaving: set<Address>, need: nat)
    requires VoteInv(s, need, leaving) && a !in s.votes
    requires m.identity.Normal? && !FundGuardIn(s.fund, a)
    requires fullStake == s.fullStake - {a}
    ensures VoteInv(SetMiner(s, MinerKey(a, Proposal), m).(fullStake := fullStake), need, leaving - {a})
  {
    BallotsPut(s.miners, s.tickets, s.votes, need, a, m);
    IdentityPut(s.miners, a, m);
    GuardsPut(s.miners, s.fund, s.fullStake, leaving, a, m, s.fund, fullStake, leaving - {a});
  }

  /** Without its vote the rest of the invariant still holds for the other voters. */
  lemma DropVoteKeeps(s: State, g: Address, height: nat, leaving: set<Address>)
    requires VoteInv(s, NeedTickets(height), leaving) && g in s.votes
    requires s.votes[g].target != ZERO_ADDRESS
    ensures VoteInv(TicketTaken(s, s.votes[g].target).(
                      votes := s.votes - {g},
                      miners := DemotedMiners(TicketTaken(s, s.votes[g].target), s.votes[g].target, height)),
                    NeedTickets(height), leaving)
  {
    var t := s.votes[g].target;
    DropVote(s.miners, s, g, height);
    DemotedFacts(s.miners, TicketTaken(s, t).tickets, t, height);
    SameGuards(s.miners, DemotedIn(s.miners, TicketTaken(s, t).tickets, t, height), s.fund, s.fullStake, leaving);
  }

  lemma DropEmptyVoteKeeps(s: State, g: Address, need: nat, leaving: set<Address>)
    requires VoteInv(s, need, leaving)
    requires g in s.votes ==> s.votes[g].target == ZERO_ADDRESS
    ensures VoteInv(s.(votes := s.votes - {g}), need, leaving)
  {
    if g in s.votes { TakeVote(s.tickets, s.votes, g); } else { assert s.votes - {g} == s.votes; }
  }

  lemma DemoteCommutes(miners: map<MinerKey, Miner>, tickets: map<Address, nat>, a: Address, m: Miner, t: Address, height: nat)
    requires !IdentityIn(miners, a).MinerPool? && !m.identity.MinerPool?
    ensures DemotedIn(miners[MinerKey(a, Proposal) := m], tickets, t, height)
            == DemotedIn(miners, tickets, t, height)[MinerKey(a, Proposal) := m]
  {
    if t != a {
      var k, kt := MinerKey(a, Proposal), MinerKey(t, Proposal);
      if kt in miners {
        var d := DemotedMiner(miners[kt], height);
        assert miners[k := m][kt := d] == miners[kt := d][k := m];
      }
    }
  }

  lemma PoolIsFree(s: State, pool: set<MinerKey>, proposalTotal: u64, need: nat, leaving: set<Address>)
    requires VoteInv(s, need, leaving)
    ensures VoteInv(s.(pool := pool, proposalTotal := proposalTotal), need, leaving)
  {
  }

  /** The ledger after the expiry of a guard, up to the pool. */
  function Expired(s: State, a: Address, height: nat): State
    requires MinerKey(a, Proposal) in s.miners
  {
    var m := WithIdentity(s.miners[MinerKey(a, Proposal)], Normal, height);
    var s1 := SetMiner(s, MinerKey(a, Proposal), m).(fullStake := s.fullStake - {a}, votes := s.votes - {a});
    if PriorTarget(s, a) == ZERO_ADDRESS then s1
    else TicketTaken(s1, PriorTarget(s, a)).(
           miners := DemotedIn(s.miners, TicketTaken(s1, PriorTarget(s, a)).tickets, PriorTarget(s, a), height)[
                       MinerKey(a, Proposal) := m])
  }

  lemma ExpireGuardIs(s: State, a: Address, height: nat, isFund: bool)
    requires MinerKey(a, Proposal) in s.miners && IdentityIn(s.miners, a).Guard?
    requires (isFund ==> a !in s.fullStake) && ExpireGuard(s, a, height, isFund).Done?
    ensures var s' := ExpireGuard(s, a, height, isFund).st;
            s' == Expired(s, a, height).(pool := s'.pool, proposalTotal := s'.proposalTotal)
  {
    var k := MinerKey(a, Proposal);
    var m := WithIdentity(s.miners[k], Normal, height);
    var s1 := SetMiner(s, k, m);
    var s2 := if isFund then s1 else s1.(fullStake := s1.fullStake - {a});
    assert s2 == s1.(fullStake := s.fullStake - {a}) by { if isFund { assert s.fullStake - {a} == s.fullStake; } }
    if a !in s.votes {
      assert s.votes - {a} == s.votes;
    } else if s.votes[a].target != ZERO_ADDRESS {
      var s3, t := s2.(votes := s2.votes - {a}), s.votes[a].target;
      ReduceTicketFrame(s3, t, height);
      DemoteCommutes(s.miners, TicketTaken(s3, t).tickets, a, m, t, height);
    }
  }

  /** The ledger after the vote of `a` is gone, with the ticket and the demotion that go with it. */
  function Unvoted(s: State, a: Address, height: nat): State {
    var t := PriorTarget(s, a);
    if t == ZERO_ADDRESS then s.(votes := s.votes - {a})
    else TicketTaken(s, t).(votes := s.votes - {a}, miners := DemotedMiners(TicketTaken(s, t), t, height))
  }

  lemma UnvotedKeeps(s: State, a: Address, height: nat, leaving: set<Address>)
    requires VoteInv(s, NeedTickets(height), leaving)
    ensures VoteInv(Unvoted(s, a, height), NeedTickets(height), leaving)
  {
    if PriorTarget(s, a) == ZERO_ADDRESS {
      DropEmptyVoteKeeps(s, a, NeedTickets(height), leaving);
    } else {
      DropVoteKeeps(s, a, height, leaving);
    }
  }

  lemma ExpiredIs(s: State, a: Address, height: nat)
    requires MinerKey(a, Proposal) in s.miners
    ensures Expired(s, a, height)
            == SetMiner(Unvoted(s, a, height), MinerKey(a, Proposal),
                        WithIdentity(s.miners[MinerKey(a, Proposal)], Normal, height)).(fullStake := s.fullStake - {a})
  {
  }

  lemma ExpiredKeeps(s: State, a: Address, height: nat, leaving: set<Address>)
    requires VoteInv(s, NeedTickets(height), leaving) && MinerKey(a, Proposal) in s.miners && !FundGuardIn(s.fund, a)
    ensures VoteInv(Expired(s, a, height), NeedTickets(height), leaving - {a})
  {
    UnvotedKeeps(s, a, height, leaving);
    ExpiredIs(s, a, height);
    RetireKeeps(Unvoted(s, a, height), a, WithIdentity(s.miners[MinerKey(a, Proposal)], Normal, height),
                s.fullStake - {a}, leaving, NeedTickets(height));
  }

  lemma ExpireGuardVotes(s: State, a: Address, height: nat, isFund: bool, leaving: set<Address>)
    requires VoteInv(s, NeedTickets(height), leaving) && ExpireGuard(s, a, height, isFund).Done?
    requires if isFund then a in leaving else a in s.fullStake
    ensures VoteInv(ExpireGuard(s, a, height, isFund).st, NeedTickets(height), leaving - {a})
    ensures ExpireGuard(s, a, height, isFund).st.fullStake == s.fullStake - {a}
  {
    assert GuardExact(s.miners, s.fund, s.fullStake, leaving, a);
    var s' := ExpireGuard(s, a, height, isFund).st;
    ExpireGuardIs(s, a, height, isFund);
    ExpiredKeeps(s, a, height, leaving);
    PoolIsFree(Expired(s, a, height), s'.pool, s'.proposalTotal, NeedTickets(height), leaving - {a});
  }

  function SetOf(xs: seq<Address>): set<Address> { set x | x in xs }

  lemma {:induction false} ExpireGuardsVotes(s: State, addrs: seq<Address>, height: nat, isFund: bool, leaving: set<Address>)
    requires VoteInv(s, NeedTickets(height), leaving) && Distinct(addrs)
    requires SetOf(addrs) <= if isFund then leaving else s.fullStake
    requires ExpireGuards(s, addrs, height, isFund).Done?
    ensures VoteInv(ExpireGuards(s, addrs, height, isFund).st, NeedTickets(height), leaving - SetOf(addrs))
    ensures ExpireGuards(s, addrs, height, isFund).st.fullStake == s.fullStake - SetOf(addrs)
    decreases |addrs|
  {
    if addrs == [] {
      assert leaving - SetOf(addrs) == leaving && s.fullStake - SetOf(addrs) == s.fullStake;
    } else {
      var front, a := addrs[..|addrs| - 1], addrs[|addrs| - 1];
      assert SetOf(addrs) == SetOf(front) + {a} && a !in front;
      ExpireGuardsVotes(s, front, height, isFund, leaving);
      ExpireGuardVotes(ExpireGuards(s, front, height, isFund).st, a, height, isFund, leaving - SetOf(front));
      assert leaving - SetOf(addrs) == leaving - SetOf(front) - {a};
      assert s.fullStake - SetOf(addrs) == s.fullStake - SetOf(front) - {a};
    }
  }

  lemma DistinctAppend(xs: seq<Address>, ys: seq<Address>)
    requires Distinct(xs) && Distinct(ys) && SetOf(xs) !! SetOf(ys)
    ensures Distinct(xs + ys) && SetOf(xs + ys) == SetOf(xs) + SetOf(ys)
  {
    forall i, j | 0 <= i < j < |xs + ys| ensures (xs + ys)[i] != (xs + ys)[j] {
      if i < |xs| <= j {
        assert (xs + ys)[i] in SetOf(xs) && (xs + ys)[j] in SetOf(ys);
      }
    }
  }

  lemma {:induction false} ExpiredAmongDistinct(s: State, addrs: seq<Address>, height: nat)
    requires forall a :: a in addrs ==> StakeKey(a, a, Proposal) in s.staked
    requires Distinct(addrs)
    ensures Distinct(ExpiredAmong(s, addrs, height))
    decreases |addrs|
  {
    if addrs != [] {
      var front, a := addrs[..|addrs| - 1], addrs[|addrs| - 1];
      ExpiredAmongDistinct(s, front, height);
      assert a !in ExpiredAmong(s, front, height);
      DistinctAppend(ExpiredAmong(s, front, height), [a]);
    }
  }

  lemma MarkCalm(s: State, addrs: seq<Address>, height: nat)
    requires forall a :: a in addrs ==> StakeKey(a, a, Proposal) in s.staked
    ensures Calm(s, MarkNotFull(s, addrs, height))
  {
  }

  lemma FullStakePassVotes(s: State, height: nat)
    requires VoteInv(s, NeedTickets(height), {}) && FullStakePass(s, height).Done?
    ensures VoteInv(FullStakePass(s, height).st, NeedTickets(height), {})
  {
    var addrs := Listing(s.fullStake);
    if height >= HALF_PERIOD && height % CHECK_INTERVAL == 0 {
      MarkCalm(s, addrs, height);
      CalmKeeps(s, MarkNotFull(s, addrs, height), NeedTickets(height));
      ExpiredAmongDistinct(s, addrs, height);
      ExpireGuardsVotes(MarkNotFull(s, addrs, height), ExpiredAmong(s, addrs, height), height, false, {});
      assert {} - SetOf(ExpiredAmong(s, addrs, height)) == {};
    }
  }

  /** Retiring fund records turns their owners from fund guards into guards that are leaving. */
  lemma RetireFundsKeeps(s: State, due: set<Address>, height: nat, need: nat)
    requires VoteInv(s, need, {}) && due <= s.fund.Keys && forall a :: a in due ==> FundGuardIn(s.fund, a)
    ensures VoteInv(RetireFunds(s, due, height), need, due)
  {
    var fund := RetireFunds(s, due, height).fund;
    forall a ensures FundGuardIn(fund, a) == (FundGuardIn(s.fund, a) && a !in due) {
    }
    forall a ensures GuardExact(s.miners, fund, s.fullStake, due, a) {
      assert GuardExact(s.miners, s.fund, s.fullStake, {}, a);
      assert FundGuardIn(fund, a) == (FundGuardIn(s.fund, a) && a !in due);
    }
    forall a | FundGuardIn(fund, a) ensures SelfDismiss(s.staked, a) == 0 {
      assert FundGuardIn(s.fund, a);
    }
  }

  lemma {:induction false} FundGuardsDistinct(s: State, addrs: seq<Address>, mode: FundMode)
    requires Distinct(addrs)
    ensures Distinct(FundGuardsAmong(s, addrs, mode))
    decreases |addrs|
  {
    if addrs != [] {
      var front, a := addrs[..|addrs| - 1], addrs[|addrs| - 1];
      FundGuardsDistinct(s, front, mode);
      assert a !in FundGuardsAmong(s, front, mode);
      DistinctAppend(FundGuardsAmong(s, front, mode), [a]);
    }
  }

  lemma DueListingIs(s: State, height: nat)
    ensures Distinct(DueListing(s, height)) && SetOf(DueListing(s, height)) == DueFunds(s, height)
  {
    var addrs := Listing(s.fund.Keys);
    var five := if ScanSixAddFive(s, height) then FundGuardsAmong(s, addrs, SixAddFive) else [];
    var six := if ScanSixAddSix(s, height) then FundGuardsAmong(s, addrs, SixAddSix) else [];
    FundGuardsDistinct(s, addrs, SixAddFive);
    FundGuardsDistinct(s, addrs, SixAddSix);
    assert SetOf(five) == if ScanSixAddFive(s, height) then FundGuardsOf(s, SixAddFive) else {};
    assert SetOf(six) == if ScanSixAddSix(s, height) then FundGuardsOf(s, SixAddSix) else {};
    DistinctAppend(five, six);
  }

  lemma FundPassVotes(s: State, height: nat)
    requires VoteInv(s, NeedTickets(height), {}) && FundPass(s, height).Done?
    ensures VoteInv(FundPass(s, height).st, NeedTickets(height), {})
  {
    var due := DueFunds(s, height);
    RetireFundsKeeps(s, due, height, NeedTickets(height));
    DueListingIs(s, height);
    var s1 := RetireFunds(s, due, height).(
                scannedSixAddFive := s.scannedSixAddFive || ScanSixAddFive(s, height),
                scannedSixAddSix := s.scannedSixAddSix || ScanSixAddSix(s, height));
    assert VoteInv(s1, NeedTickets(height), due);
    ExpireGuardsVotes(s1, DueListing(s, height), height, true, due);
    assert due - SetOf(DueListing(s, height)) == {};
  }

  lemma GuardCheckVotes(s: State, height: nat)
    requires VoteInv(s, NeedTickets(height), {}) && GuardCheck(s, height).Done?
    ensures VoteInv(GuardCheck(s, height).st, NeedTickets(height), {})
  {
    if FullStakePass(s, height).Done? { FullStakePassVotes(s, height); }
    var s1 := OrRevert(FullStakePass(s, height), s);
    if FundPass(s1, height).Done? { FundPassVotes(s1, height); }
  }

  // ----- Every operation, every run

  lemma ChangeFundModeVotes(s: State, source: Address, mode: FundMode, ctx: Context, need: nat)
    requires VoteInv(s, need, {}) && ChangeFundMode(s, source, mode, ctx).Done?
    ensures VoteInv(ChangeFundMode(s, source, mode, ctx).st, need, {})
  {
    var fund := ChangeFundMode(s, source, mode, ctx).st.fund;
    forall a ensures FundGuardIn(fund, a) == FundGuardIn(s.fund, a) {
    }
    forall a ensures GuardExact(s.miners, fund, s.fullStake, {}, a) {
      assert GuardExact(s.miners, s.fund, s.fullStake, {}, a) && FundGuardIn(fund, a) == FundGuardIn(s.fund, a);
    }
    forall a | FundGuardIn(fund, a) ensures SelfDismiss(s.staked, a) == 0 {
      assert FundGuardIn(s.fund, a);
    }
  }

  lemma StakeOpCalm(s: State, op: Op, ctx: Context)
    requires StakeInv(s)
    requires !op.OpVote? && !op.OpApplyGuard? && !op.OpChangeFundMode? && !op.OpGuardCheck?
    ensures CalmOutcome(Transition(s, op, ctx), s)
  {
    match op
    case OpStakeAdd(source, target, role, value, keys) => StakeAddCalm(s, StakeKey(target, source, role), value, keys, ctx);
    case OpStakeReduce(source, target, role, value) => StakeReduceCalm(s, StakeKey(target, source, role), value, ctx);
    case OpStakeRefund(source, target, role) =>
    case OpMinerAbort(addr, role) => MinerAbortCalm(s, addr, role, ctx);
    case OpMinerFreeze(addr) => MinerFreezeCalm(s, addr, ctx);
    case OpMinerPenalty(targets, rewards) => MinerPenaltyCalm(s, targets, rewards, MIN_MINER_STAKE, ctx);
  }

  lemma OpVotes(s: State, op: Op, ctx: Context)
    requires StakeInv(s) && VoteInv(s, NeedTickets(ctx.height), {}) && Transition(s, op, ctx).Done?
    ensures VoteInv(Transition(s, op, ctx).st, NeedTickets(ctx.height), {})
  {
    match op
    case OpVote(source, target) => VoteVotes(s, source, target, ctx);
    case OpApplyGuard(addr) => ApplyGuardVotes(s, addr, ctx);
    case OpChangeFundMode(source, mode) => ChangeFundModeVotes(s, source, mode, ctx, NeedTickets(ctx.height));
    case OpGuardCheck => GuardCheckVotes(s, ctx.height);
    case _ =>
      StakeOpCalm(s, op, ctx);
      CalmKeeps(s, Transition(s, op, ctx).st, NeedTickets(ctx.height));
  }

  /** The tickets a pool needs only fall as the chain grows. */
  lemma NeedFalls(h: nat, h': nat)
    requires h <= h'
    ensures NeedTickets(h') <= NeedTickets(h)
  {
    assert h / (ADJUST_WEIGHT_PERIOD * 3) <= h' / (ADJUST_WEIGHT_PERIOD * 3);
  }

  lemma LaterInv(s: State, h: nat, h': nat)
    requires Inv(s, h) && h <= h'
    ensures Inv(s, h')
  {
    NeedFalls(h, h');
  }

  /** Every operation at a height no lower than before keeps the whole invariant, whether it succeeds or is reverted. */
  lemma StepKeepsInv(s: State, h: nat, op: Op, ctx: Context)
    requires Inv(s, h) && h <= ctx.height
    ensures Inv(Execute(s, op, ctx), ctx.height)
    ensures Transition(s, op, ctx).Panic? <==> StepPanics(s, op)
  {
    LaterInv(s, h, ctx.height);
    StepKeepsStakes(s, op, ctx);
    if Transition(s, op, ctx).Done? { OpVotes(s, op, ctx); }
  }

  function TopHeight(h: nat, steps: seq<Step>): nat {
    if steps == [] then h else steps[|steps| - 1].ctx.height
  }

  predicate Rising(h: nat, steps: seq<Step>) {
    && (forall i :: 0 <= i < |steps| ==> h <= steps[i].ctx.height)
    && (forall i, j :: 0 <= i < j < |steps| ==> steps[i].ctx.height <= steps[j].ctx.height)
  }

  lemma RisingPrefix(h: nat, steps: seq<Step>)
    requires steps != [] && Rising(h, steps)
    ensures Rising(h, steps[..|steps| - 1])
    ensures TopHeight(h, steps[..|steps| - 1]) <= steps[|steps| - 1].ctx.height
  {
  }

  /** The whole invariant holds after any run of operations at non-decreasing heights. */
  lemma {:induction false} RunKeepsInv(s: State, h: nat, steps: seq<Step>)
    requires Inv(s, h) && Rising(h, steps)
    ensures Inv(Run(s, steps), TopHeight(h, steps))
    decreases |steps|
  {
    if steps != [] {
      var n := |steps| - 1;
      RisingPrefix(h, steps);
      RunKeepsInv(s, h, steps[..n]);
      StepKeepsInv(Run(s, steps[..n]), TopHeight(h, steps[..n]), steps[n].op, steps[n].ctx);
    }
  }

  // ----- Genesis

  lemma EmptyLedgerInv(balances: map<Address, nat>)
    requires Total(balances) < TWO64
    ensures Inv(EmptyLedger(balances), 0)
  {
    var s := EmptyLedger(balances);
    assert ActiveStakes(s.miners) == map[] && Values(s.staked) == map[];
    forall a ensures Voters(s.votes, a) == {} {
    }
    forall a ensures GuardExact(s.miners, s.fund, s.fullStake, {}, a) {
    }
  }

  /** Installing a fund guard overwrites its proposal record, so there must be no stake, work or guard place to lose. */
  predicate Installable(s: State, g: Address) {
    && (MinerKey(g, Proposal) in s.miners ==>
          s.miners[MinerKey(g, Proposal)].stake == 0 && !s.miners[MinerKey(g, Proposal)].status.Active?)
    && g !in s.fullStake && SelfDismiss(s.staked, g) == 0
  }

  lemma FreshIsInstallable(s: State, g: Address)
    requires Inv(s, 0) && MinerKey(g, Proposal) !in s.miners
    ensures Installable(s, g)
  {
    assert GuardExact(s.miners, s.fund, s.fullStake, {}, g);
    assert KeyOf(StakeKey(g, g, Proposal)) == MinerKey(g, Proposal);
  }

  lemma InstallGuardKeeps(s: State, g: Address)
    requires Inv(s, 0) && Installable(s, g)
    ensures Inv(InstallGuard(s, g), 0)
  {
    var k, m := MinerKey(g, Proposal), Miner(0, Prepare, 0, Guard, 0, 0, NoKeys);
    var fund := s.fund[g := FundRecord(FundGuardNode, 0, SixAddSix)];
    SameStakeKeeps(s, k, m);
    BallotsPut(s.miners, s.tickets, s.votes, NeedTickets(0), g, m);
    assert GuardExact(s.miners, s.fund, s.fullStake, {}, g);
    IdentityPut(s.miners, g, m);
    GuardsPut(s.miners, s.fund, s.fullStake, {}, g, m, fund, s.fullStake, {});
    forall a | FundGuardIn(fund, a) ensures SelfDismiss(s.staked, a) == 0 {
      if a != g { assert FundGuardIn(s.fund, a); }
    }
  }

  lemma {:induction false} InstalledFrame(s: State, guards: seq<Address>)
    ensures InstallGuards(s, guards) == s.(miners := InstallGuards(s, guards).miners, fund := InstallGuards(s, guards).fund)
    decreases |guards|
  {
    if guards != [] { InstalledFrame(s, guards[..|guards| - 1]); }
  }

  /** What is on record of `g` after guards were installed. */
  ghost predicate OnRecord(s: State, s': State, g: Address, installed: bool) {
    var k := MinerKey(g, Proposal);
    if installed then k in s'.miners && s'.miners[k] == Miner(0, Prepare, 0, Guard, 0, 0, NoKeys) && FundGuardIn(s'.fund, g)
    else (k in s'.miners <==> k in s.miners) && (k in s.miners ==> s'.miners[k] == s.miners[k])
  }

  lemma InstalledNext(s: State, s1: State, g: Address, last: Address, installed: bool)
    requires OnRecord(s, s1, g, installed)
    ensures OnRecord(s, InstallGuard(s1, last), g, installed || g == last)
  {
  }

  lemma {:induction false} Installed(s: State, guards: seq<Address>, g: Address)
    ensures OnRecord(s, InstallGuards(s, guards), g, g in guards)
    decreases |guards|
  {
    if guards != [] {
      var n := |guards| - 1;
      Installed(s, guards[..n], g);
      InstalledNext(s, InstallGuards(s, guards[..n]), g, guards[n], g in guards[..n]);
      assert g in guards <==> g in guards[..n] || g == guards[n];
    }
  }

  lemma {:induction false} InstallGuardsKeeps(s: State, guards: seq<Address>)
    requires Inv(s, 0) && forall g :: g in guards ==> Installable(s, g)
    ensures Inv(InstallGuards(s, guards), 0)
    decreases |guards|
  {
    if guards != [] {
      var front, last := guards[..|guards| - 1], guards[|guards| - 1];
      InstallGuardsKeeps(s, front);
      Installed(s, front, last);
      InstalledFrame(s, front);
      InstallGuardKeeps(InstallGuards(s, front), last);
    }
  }

  lemma InstalledWasInstallable(s: State, guards: seq<Address>, g: Address)
    requires Inv(s, 0) && Inv(InstallGuards(s, guards), 0) && g in guards
    ensures Installable(s, g)
  {
    var s', k := InstallGuards(s, guards), MinerKey(g, Proposal);
    Installed(s, guards, g);
    InstalledFrame(s, guards);
    assert s'.miners[k].stake == Total(StakesFor(s.staked, k));
    assert k in s.pool <==> k in s.miners && s.miners[k].status.Active?;
    assert k in s'.pool <==> s'.miners[k].status.Active?;
    assert k in s.miners ==> s.miners[k].stake == Total(StakesFor(s.staked, k));
    assert GuardExact(s'.miners, s'.fund, s'.fullStake, {}, g);
  }

  /** Installing the fund guards keeps the invariant if and only if none of them has proposal stake, works as a
      proposer or is a full-stake guard already. */
  lemma InstallGuardsExactly(s: State, guards: seq<Address>)
    requires Inv(s, 0)
    ensures Inv(InstallGuards(s, guards), 0) <==> forall g :: g in guards ==> Installable(s, g)
  {
    if Inv(InstallGuards(s, guards), 0) {
      forall g | g in guards ensures Installable(s, g) { InstalledWasInstallable(s, guards, g); }
    } else if forall g :: g in guards ==> Installable(s, g) {
      InstallGuardsKeeps(s, guards);
    }
  }

  lemma GenesisInv(balances: map<Address, nat>, genesis: seq<Step>)
    requires Total(balances) < TWO64
    requires forall i :: 0 <= i < |genesis| ==> genesis[i].ctx.height == 0
    ensures Inv(Run(EmptyLedger(balances), genesis), 0)
  {
    EmptyLedgerInv(balances);
    RunKeepsInv(EmptyLedger(balances), 0, genesis);
    assert TopHeight(0, genesis) == 0;
  }

  /** Every ledger a chain can reach: genesis stakes, then fund guards that can be installed, then any operations at
      non-decreasing heights. Otherwise the invariant does not hold from the start. */
  lemma ReachableInv(balances: map<Address, nat>, genesis: seq<Step>, guards: seq<Address>, steps: seq<Step>)
    requires Total(balances) < TWO64
    requires forall i :: 0 <= i < |genesis| ==> genesis[i].ctx.height == 0
    requires Rising(0, steps)
    ensures var s := Run(EmptyLedger(balances), genesis);
            if forall g :: g in guards ==> Installable(s, g)
            then Inv(Run(InstallGuards(s, guards), steps), TopHeight(0, steps))
            else !Inv(InstallGuards(s, guards), 0)
  {
    var s := Run(EmptyLedger(balances), genesis);
    GenesisInv(balances, genesis);
    InstallGuardsExactly(s, guards);
    if forall g :: g in guards ==> Installable(s, g) { RunKeepsInv(InstallGuards(s, guards), 0, steps); }
  }
}
