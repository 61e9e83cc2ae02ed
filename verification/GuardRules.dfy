/** What votes, applications and expiry do to single addresses: tickets, pools and guards, with the heights written out. */
module GuardRules {
  import opened Collections
  import opened Ledger
  import opened LedgerStakes
  import opened LedgerGuards

  // ----- Bounds

  /** A miner pool needs 8 tickets, two fewer every thirty million heights, and always one. */
  lemma TicketsNeeded(height: nat)
    ensures NeedTickets(height) == if height < 30_000_000 then 8
                                   else if height < 60_000_000 then 6
                                   else if height < 90_000_000 then 4
                                   else if height < 120_000_000 then 2 else 1
  {
  }

  // ----- Losing a ticket

  /** The record of `k` is as before. */
  predicate SameRecord(s: State, s': State, k: MinerKey) {
    (k in s'.miners <==> k in s.miners) && (k in s.miners ==> s'.miners[k] == s.miners[k])
  }

  /** `a` was a miner pool and has fewer tickets than it needs. */
  predicate Short(s: State, s': State, a: Address, height: nat) {
    MinerKey(a, Proposal) in s.miners && IdentityOf(s, a).MinerPool? && Tickets(s', a) < NeedTickets(height)
  }

  /** The record of a demoted pool: invalid, not at work, with its stake. */
  predicate IsDemoted(s: State, s': State, a: Address) {
    var k := MinerKey(a, Proposal);
    k in s.miners && k in s'.miners && s'.miners[k].identity.InvalidPool? && !s'.miners[k].status.Active?
    && s'.miners[k].stake == s.miners[k].stake
  }

  /** `a` loses one ticket and is demoted exactly if it is a pool that falls short; nothing else changes but the pool of
      working miners and its total. */
  ghost predicate LosesTicket(s: State, s': State, a: Address, height: nat) {
    && s' == s.(miners := s'.miners, tickets := s'.tickets, pool := s'.pool, proposalTotal := s'.proposalTotal)
    && (forall b {:trigger Tickets(s', b)} :: b != a ==> Tickets(s', b) == Tickets(s, b))
    && Tickets(s', a) == (if Tickets(s, a) > 0 then Tickets(s, a) - 1 else 0)
    && (forall k {:trigger SameRecord(s, s', k)} :: k != MinerKey(a, Proposal) ==> SameRecord(s, s', k))
    && (if Short(s, s', a, height) then IsDemoted(s, s', a) else SameRecord(s, s', MinerKey(a, Proposal)))
  }

  lemma LostIs(s: State, a: Address, height: nat, s1: State, s': State)
    requires s1 == TicketTaken(s, a)
    requires s' == s1.(miners := DemotedMiners(s1, a, height), pool := s'.pool, proposalTotal := s'.proposalTotal)
    ensures LosesTicket(s, s', a, height)
  {
    assert Short(s, s', a, height) == PoolFallsShort(s1, a, height);
  }

  lemma TicketLost(s: State, a: Address, height: nat, s': State)
    requires ReduceTicket(s, a, height) == Done(s')
    ensures LosesTicket(s, s', a, height)
  {
    ReduceTicketFrame(s, a, height);
    LostIs(s, a, height, TicketTaken(s, a), s');
  }

  // ----- Votes

  function Prior(s: State, source: Address): Address {
    if source in s.votes then s.votes[source].target else ZERO_ADDRESS
  }

  /** A guard votes once in each half period of five million heights, for any address that is not a guard. */
  lemma VoteAllowed(s: State, h: nat, source: Address, target: Address, ctx: Context)
    requires Inv(s, h) && h <= ctx.height
    ensures Vote(s, source, target, ctx).Done? <==>
              && IdentityOf(s, source).Guard? && !IdentityOf(s, target).Guard?
              && (source in s.votes ==>
                    s.votes[source].height == 0 || ctx.height / 5_000_000 > s.votes[source].height / 5_000_000)
  {
    StepKeepsInv(s, h, OpVote(source, target), ctx);
    var prior := Prior(s, source);
    var s1 := s.(votes := s.votes[source := VoteInfo(target, ctx.height)]);
    MoveTicketDone(s1, prior, target, ctx.height);
  }

  lemma MoveTicketDone(s: State, prior: Address, target: Address, height: nat)
    ensures !MoveTicket(s, prior, target, height).Rejected?
  {
    var left := if Tickets(s, prior) < 1 then 0 else Tickets(s, prior) - 1;
    var s1 := s.(tickets := s.tickets[prior := left]);
    if PoolFallsShort(s1, prior, height) { assert !Unpool(s1, MinerKey(prior, Proposal)).Rejected?; }
    assert !DemotePool(s1, prior, height).Rejected?;
  }

  /** One ticket goes from `prior`, unless that is nobody, to `target`; the old target is demoted exactly if it falls
      short, and no other record changes. */
  ghost predicate TicketMoved(s: State, s': State, prior: Address, target: Address, height: nat) {
    && s' == s.(miners := s'.miners, tickets := s'.tickets, pool := s'.pool, proposalTotal := s'.proposalTotal)
    && Tickets(s', target) == Tickets(s, target) + (if prior == target && prior != ZERO_ADDRESS then 0 else 1)
    && (prior != target && prior != ZERO_ADDRESS && Tickets(s, prior) > 0 ==> Tickets(s', prior) + 1 == Tickets(s, prior))
    && (forall a {:trigger Tickets(s', a)} :: a != target && a != prior ==> Tickets(s', a) == Tickets(s, a))
    && (forall k {:trigger SameRecord(s, s', k)} :: k != MinerKey(prior, Proposal) ==> SameRecord(s, s', k))
    && (if prior != target && prior != ZERO_ADDRESS && Short(s, s', prior, height) then IsDemoted(s, s', prior)
        else SameRecord(s, s', MinerKey(prior, Proposal)))
  }

  lemma TurnedTicket(s: State, s1: State, prior: Address, target: Address, height: nat)
    requires prior != target && prior != ZERO_ADDRESS && LosesTicket(s, s1, prior, height)
    ensures TicketMoved(s, s1.(tickets := s1.tickets[target := Tickets(s1, target) + 1]), prior, target, height)
  {
    var s2 := s1.(tickets := s1.tickets[target := Tickets(s1, target) + 1]);
    forall k | k != MinerKey(prior, Proposal) ensures SameRecord(s, s2, k) { assert SameRecord(s, s1, k); }
    forall a | a != target && a != prior ensures Tickets(s2, a) == Tickets(s, a) { assert Tickets(s1, a) == Tickets(s, a); }
    assert Tickets(s1, target) == Tickets(s, target) && Tickets(s2, prior) == Tickets(s1, prior);
    assert Short(s, s2, prior, height) == Short(s, s1, prior, height);
  }

  lemma NewTicket(s: State, target: Address, height: nat)
    ensures TicketMoved(s, s.(tickets := s.tickets[target := Tickets(s, target) + 1]), ZERO_ADDRESS, target, height)
  {
  }

  lemma TicketMoves(s: State, prior: Address, target: Address, height: nat, s': State)
    requires MoveTicket(s, prior, target, height) == Done(s')
    ensures TicketMoved(s, s', prior, target, height)
  {
    if prior == target && prior != ZERO_ADDRESS {
      assert s' == s;
    } else if prior == ZERO_ADDRESS {
      assert s' == s.(tickets := s.tickets[target := Tickets(s, target) + 1]);
      NewTicket(s, target, height);
    } else {
      var s1 := ReduceTicket(s, prior, height).st;
      assert s' == s1.(tickets := s1.tickets[target := Tickets(s1, target) + 1]);
      TicketLost(s, prior, height, s1);
      TurnedTicket(s, s1, prior, target, height);
    }
  }

  /** The target becomes a pool exactly if it has the tickets, with the stake, status and keys it had, or none; no other
      record changes. */
  ghost predicate MadePool(s: State, s': State, target: Address, height: nat) {
    && s' == s.(miners := s'.miners)
    && (forall k {:trigger SameRecord(s, s', k)} :: k != MinerKey(target, Proposal) ==> SameRecord(s, s', k))
    && (if Tickets(s, target) >= NeedTickets(height) then IdentityOf(s', target).MinerPool? && SameWork(s, s', target)
        else SameRecord(s, s', MinerKey(target, Proposal)))
  }

  /** The record of `a` has the stake, status and keys that it had before, or is new and empty. */
  predicate SameWork(s: State, s': State, a: Address) {
    var k := MinerKey(a, Proposal);
    k in s'.miners &&
    if k in s.miners then
      s'.miners[k].stake == s.miners[k].stake && s'.miners[k].status == s.miners[k].status && s'.miners[k].keys == s.miners[k].keys
    else s'.miners[k].stake == 0 && s'.miners[k].status.Prepare? && s'.miners[k].keys == NoKeys
  }

  lemma Promotes(read: State, s: State, target: Address, height: nat)
    requires SameRecord(read, s, MinerKey(target, Proposal))
    ensures MadePool(s, PromotePool(read, s, target, height), target, height)
  {
    var s', k := PromotePool(read, s, target, height), MinerKey(target, Proposal);
    if Tickets(s, target) < NeedTickets(height) || IdentityOf(read, target).MinerPool? {
      assert s' == s;
    } else {
      assert s' == SetMiner(s, k, PromotedMiner(read, target, height));
    }
  }

  /** What a vote does: it is recorded, moves one ticket from the address voted for before to the new one, makes the new
      one a miner pool exactly if it now has enough tickets, and demotes the old one exactly if it is a pool that falls
      short. No other ticket, identity or record changes. */
  ghost predicate Voted(s: State, s': State, source: Address, prior: Address, target: Address, height: nat) {
    && s' == s.(miners := s'.miners, votes := s.votes[source := VoteInfo(target, height)], tickets := s'.tickets,
                pool := s'.pool, proposalTotal := s'.proposalTotal)
    && Tickets(s', target) == Tickets(s, target) + (if prior == target && prior != ZERO_ADDRESS then 0 else 1)
    && (prior != target && prior != ZERO_ADDRESS ==> Tickets(s', prior) + 1 == Tickets(s, prior))
    && (forall a {:trigger Tickets(s', a)} :: a != target && a != prior ==> Tickets(s', a) == Tickets(s, a))
    && (if Tickets(s', target) >= NeedTickets(height) then IdentityOf(s', target).MinerPool? && SameWork(s, s', target)
        else SameRecord(s, s', MinerKey(target, Proposal)))
    && (forall k {:trigger SameRecord(s, s', k)} ::
          k != MinerKey(target, Proposal) && k != MinerKey(prior, Proposal) ==> SameRecord(s, s', k))
    && (prior != target ==>
          if prior != ZERO_ADDRESS && Short(s, s', prior, height) then IsDemoted(s, s', prior)
          else SameRecord(s, s', MinerKey(prior, Proposal)))
  }

  lemma VotedIs(s: State, s1: State, s2: State, s3: State, source: Address, prior: Address, target: Address, height: nat)
    requires s1 == s.(votes := s.votes[source := VoteInfo(target, height)])
    requires TicketMoved(s1, s2, prior, target, height) && MadePool(s2, s3, target, height)
    requires prior != target && prior != ZERO_ADDRESS ==> Tickets(s, prior) > 0
    ensures Voted(s, s3, source, prior, target, height)
  {
    forall k | k != MinerKey(target, Proposal) && k != MinerKey(prior, Proposal) ensures SameRecord(s, s3, k) {
      assert SameRecord(s1, s2, k) && SameRecord(s2, s3, k);
    }
    forall a ensures Tickets(s3, a) == Tickets(s2, a) && Tickets(s1, a) == Tickets(s, a) {
    }
    assert Short(s, s3, prior, height) == Short(s1, s2, prior, height);
    if prior != target {
      assert SameRecord(s1, s2, MinerKey(target, Proposal)) && SameRecord(s2, s3, MinerKey(prior, Proposal));
    }
  }

  lemma VoteMoves(s: State, h: nat, source: Address, target: Address, ctx: Context, s': State)
    requires Inv(s, h) && Vote(s, source, target, ctx) == Done(s')
    ensures Voted(s, s', source, Prior(s, source), target, ctx.height)
  {
    var prior := Prior(s, source);
    var s1 := s.(votes := s.votes[source := VoteInfo(target, ctx.height)]);
    var s2 := MoveTicket(s1, prior, target, ctx.height).st;
    TicketMoves(s1, prior, target, ctx.height, s2);
    assert SameRecord(s1, s2, MinerKey(target, Proposal));
    Promotes(s, s2, target, ctx.height);
    if prior != ZERO_ADDRESS { TakeVote(s.tickets, s.votes, source); }
    VotedIs(s, s1, s2, s', source, prior, target, ctx.height);
  }

  // ----- Which guards are overdue

  /** Fifteen days of blocks after its dismissal height, or after it was marked as no longer full. */
  predicate Overdue(d: Detail, height: nat) {
    height > d.dismissHeight + 432_000 || (d.notFullHeight > 0 && height > d.notFullHeight + 432_000)
  }

  lemma {:induction false} ExpiredExactly(s: State, addrs: seq<Address>, height: nat, a: Address)
    requires forall b :: b in addrs ==> StakeKey(b, b, Proposal) in s.staked
    ensures a in ExpiredAmong(s, addrs, height) <==> a in addrs && Overdue(s.staked[StakeKey(a, a, Proposal)], height)
    decreases |addrs|
  {
    if addrs != [] {
      var n := |addrs| - 1;
      ExpiredExactly(s, addrs[..n], height, a);
      assert a in addrs <==> a in addrs[..n] || a == addrs[n];
    }
  }

  // ----- Taking guards away

  predicate SameVote(s: State, s': State, g: Address) {
    (g in s'.votes <==> g in s.votes) && (g in s.votes ==> s'.votes[g] == s.votes[g])
  }

  /** What expiry does to one address: a guard that goes loses its identity and its vote, any other address keeps
      both. */
  predicate Parts(s: State, s': State, a: Address, gone: bool) {
    && (IdentityOf(s', a).Guard? <==> IdentityOf(s, a).Guard? && !gone)
    && (if gone then a !in s'.votes else SameVote(s, s', a))
  }

  /** The guards in `gone` are taken away, from the full-stake pool too unless they are fund guards; nothing is created
      and no stake, detail or fund record changes. */
  ghost predicate GuardsTaken(s: State, s': State, gone: seq<Address>, isFund: bool) {
    && s' == s.(miners := s'.miners, tickets := s'.tickets, pool := s'.pool, proposalTotal := s'.proposalTotal,
                votes := s'.votes, fullStake := s'.fullStake)
    && s'.miners.Keys == s.miners.Keys
    && (forall a {:trigger Parts(s, s', a, a in gone)} :: Parts(s, s', a, a in gone))
    && (forall a :: a in s'.fullStake <==> a in s.fullStake && (isFund || a !in gone))
  }

  /** A lost ticket makes nobody a guard and takes no guard away. */
  lemma LossKeepsGuards(s: State, s': State, a: Address, height: nat)
    requires LosesTicket(s, s', a, height)
    ensures s'.miners.Keys == s.miners.Keys
    ensures forall b {:trigger IdentityOf(s', b)} :: IdentityOf(s', b).Guard? <==> IdentityOf(s, b).Guard?
  {
    forall k ensures k in s'.miners <==> k in s.miners {
      if k != MinerKey(a, Proposal) { assert SameRecord(s, s', k); }
    }
    forall b ensures IdentityOf(s', b).Guard? <==> IdentityOf(s, b).Guard? {
      if b != a { assert SameRecord(s, s', MinerKey(b, Proposal)); }
    }
  }

  /** The ledger of an expiry before the ticket goes back. */
  function Retired(s: State, a: Address, height: nat, isFund: bool): State
    requires MinerKey(a, Proposal) in s.miners
  {
    s.(miners := s.miners[MinerKey(a, Proposal) := WithIdentity(s.miners[MinerKey(a, Proposal)], Normal, height)],
       fullStake := if isFund then s.fullStake else s.fullStake - {a},
       votes := s.votes - {a})
  }

  lemma RetiredTakes(s: State, a: Address, height: nat, isFund: bool)
    requires MinerKey(a, Proposal) in s.miners
    ensures GuardsTaken(s, Retired(s, a, height, isFund), [a], isFund)
  {
    var s' := Retired(s, a, height, isFund);
    assert s'.miners.Keys == s.miners.Keys;
    forall b ensures Parts(s, s', b, b in [a]) {
    }
  }

  lemma TakenByLoss(s: State, s1: State, s': State, a: Address, gone: seq<Address>, isFund: bool, height: nat)
    requires GuardsTaken(s, s1, gone, isFund) && LosesTicket(s1, s', a, height)
    ensures GuardsTaken(s, s', gone, isFund)
  {
    LossKeepsGuards(s1, s', a, height);
    forall b ensures Parts(s, s', b, b in gone) { assert Parts(s, s1, b, b in gone); }
  }

  lemma ExpireCases(s: State, a: Address, height: nat, isFund: bool)
    requires MinerKey(a, Proposal) in s.miners
    ensures var o := ExpireGuard(s, a, height, isFund);
            if a in s.votes && s.votes[a].target != ZERO_ADDRESS
            then o == ReduceTicket(Retired(s, a, height, isFund), s.votes[a].target, height)
            else o == Done(Retired(s, a, height, isFund))
  {
    var k := MinerKey(a, Proposal);
    var s1 := SetMiner(s, k, WithIdentity(s.miners[k], Normal, height));
    var s2 := if isFund then s1 else s1.(fullStake := s1.fullStake - {a});
    assert Retired(s, a, height, isFund) == s2.(votes := s.votes - {a});
    if a !in s.votes {
      assert s.votes - {a} == s.votes;
      assert ExpireGuard(s, a, height, isFund) == Done(s2);
    }
  }

  lemma OneTaken(s: State, a: Address, height: nat, isFund: bool, s': State)
    requires ExpireGuard(s, a, height, isFund) == Done(s')
    ensures GuardsTaken(s, s', [a], isFund)
  {
    ExpireCases(s, a, height, isFund);
    RetiredTakes(s, a, height, isFund);
    if a in s.votes && s.votes[a].target != ZERO_ADDRESS {
      var s1 := Retired(s, a, height, isFund);
      TicketLost(s1, s.votes[a].target, height, s');
      TakenByLoss(s, s1, s', s.votes[a].target, [a], isFund, height);
    }
  }

  lemma TakenTogether(s: State, s1: State, s2: State, gone: seq<Address>, a: Address, isFund: bool)
    requires GuardsTaken(s, s1, gone, isFund) && GuardsTaken(s1, s2, [a], isFund)
    ensures GuardsTaken(s, s2, gone + [a], isFund)
  {
    forall b ensures Parts(s, s2, b, b in gone + [a]) {
      assert Parts(s, s1, b, b in gone) && Parts(s1, s2, b, b in [a]);
    }
  }

  lemma {:induction false} AllTaken(s: State, gone: seq<Address>, height: nat, isFund: bool, s': State)
    requires ExpireGuards(s, gone, height, isFund) == Done(s')
    ensures GuardsTaken(s, s', gone, isFund)
    decreases |gone|
  {
    if gone == [] {
      forall a ensures Parts(s, s, a, a in gone) {
      }
    } else {
      var front, a := gone[..|gone| - 1], gone[|gone| - 1];
      var s1 := ExpireGuards(s, front, height, isFund).st;
      AllTaken(s, front, height, isFund, s1);
      OneTaken(s1, a, height, isFund, s');
      TakenTogether(s, s1, s', front, a, isFund);
      assert front + [a] == gone;
    }
  }

  /** Taking guards away fails only where there is no record. */
  lemma {:induction false} AllCanGo(s: State, gone: seq<Address>, height: nat, isFund: bool)
    requires forall a :: a in gone ==> MinerKey(a, Proposal) in s.miners
    ensures !ExpireGuards(s, gone, height, isFund).Rejected?
    decreases |gone|
  {
    if gone != [] {
      var front, a := gone[..|gone| - 1], gone[|gone| - 1];
      AllCanGo(s, front, height, isFund);
      var o := ExpireGuards(s, front, height, isFund);
      if o.Done? {
        AllTaken(s, front, height, isFund, o.st);
        ExpireCases(o.st, a, height, isFund);
        if a in o.st.votes { LossNeverRefused(Retired(o.st, a, height, isFund), o.st.votes[a].target, height); }
      }
    }
  }

  lemma LossNeverRefused(s: State, a: Address, height: nat)
    ensures !ReduceTicket(s, a, height).Rejected?
  {
    var left := if Tickets(s, a) < 1 then 0 else Tickets(s, a) - 1;
    var s1 := s.(tickets := s.tickets[a := left]);
    if PoolFallsShort(s1, a, height) { assert !Unpool(s1, MinerKey(a, Proposal)).Rejected?; }
  }

  // ----- The full-stake pass

  /** The heights at which the full-stake pool is scanned. */
  predicate FullStakeHeight(height: nat) { height >= 5_000_000 && height % 1000 == 0 }

  predicate AllDetailed(s: State) { forall a :: a in s.fullStake ==> StakeKey(a, a, Proposal) in s.staked }

  /** A member of the full-stake pool whose time is over. */
  predicate Dismissed(s: State, a: Address, height: nat) {
    a in s.fullStake && StakeKey(a, a, Proposal) in s.staked && Overdue(s.staked[StakeKey(a, a, Proposal)], height)
  }

  /** The detail is the own stake of a member that is neither overdue nor marked, and is not the full stake. */
  predicate ToMark(s: State, dk: StakeKey, height: nat)
    requires dk in s.staked
  {
    && dk.role.Proposal? && dk.source == dk.target && dk.target in s.fullStake
    && !Overdue(s.staked[dk], height) && s.staked[dk].notFullHeight == 0 && s.staked[dk].value != MaxStake(height)
  }

  /** Exactly the overdue members lose guard identity, vote and place in the pool, and exactly the details that are no
      longer full are marked with the height. */
  ghost predicate Scanned(s: State, s': State, height: nat) {
    && (forall a {:trigger Parts(s, s', a, Dismissed(s, a, height))} :: Parts(s, s', a, Dismissed(s, a, height)))
    && (forall a :: a in s'.fullStake <==> a in s.fullStake && !Dismissed(s, a, height))
    && s'.staked.Keys == s.staked.Keys
    && (forall dk :: dk in s.staked ==>
          s'.staked[dk] == if ToMark(s, dk, height) then s.staked[dk].(notFullHeight := height) else s.staked[dk])
    && s'.fund == s.fund && s'.balances == s.balances && s'.frozen == s.frozen && s'.miners.Keys == s.miners.Keys
    && s'.scannedSixAddFive == s.scannedSixAddFive && s'.scannedSixAddSix == s.scannedSixAddSix
  }

  lemma MarksExactly(s: State, addrs: seq<Address>, height: nat, dk: StakeKey)
    requires (forall a :: a in addrs <==> a in s.fullStake) && AllDetailed(s) && dk in s.staked
    ensures var s1 := MarkNotFull(s, addrs, height);
            s1.staked[dk] == if ToMark(s, dk, height) then s.staked[dk].(notFullHeight := height) else s.staked[dk]
  {
  }

  lemma FullStakePassScans(s: State, height: nat, s': State)
    requires FullStakePass(s, height) == Done(s')
    ensures if FullStakeHeight(height) then AllDetailed(s) && Scanned(s, s', height) else s' == s
  {
    if FullStakeHeight(height) {
      var addrs := Listing(s.fullStake);
      var s1, gone := MarkNotFull(s, addrs, height), ExpiredAmong(s, addrs, height);
      AllTaken(s1, gone, height, false, s');
      forall a ensures a in gone <==> Dismissed(s, a, height) { ExpiredExactly(s, addrs, height, a); }
      forall a ensures Parts(s, s', a, Dismissed(s, a, height)) { assert Parts(s1, s', a, a in gone); }
      forall dk | dk in s.staked
        ensures s'.staked[dk] == if ToMark(s, dk, height) then s.staked[dk].(notFullHeight := height) else s.staked[dk]
      {
        MarksExactly(s, addrs, height, dk);
      }
    }
  }

  lemma GuardHasRecord(s: State, h: nat, a: Address)
    requires Inv(s, h) && (a in s.fullStake || FundGuardIn(s.fund, a))
    ensures MinerKey(a, Proposal) in s.miners && IdentityOf(s, a).Guard?
  {
    assert GuardExact(s.miners, s.fund, s.fullStake, {}, a);
  }

  /** On a sound ledger the pass fails only for a missing detail. */
  lemma FullStakePassSucceeds(s: State, h: nat, height: nat)
    requires Inv(s, h)
    ensures FullStakePass(s, height).Done? <==> !FullStakeHeight(height) || AllDetailed(s)
  {
    FullStakePassKeeps(s, height);
    if FullStakeHeight(height) && AllDetailed(s) {
      var addrs := Listing(s.fullStake);
      var gone := ExpiredAmong(s, addrs, height);
      forall a | a in gone ensures MinerKey(a, Proposal) in s.miners { GuardHasRecord(s, h, a); }
      AllCanGo(MarkNotFull(s, addrs, height), gone, height, false);
    }
  }

  // ----- The fund pass

  predicate FiveHeight(s: State, height: nat) {
    5_000_000 <= height <= 20_000_000 && height % 1000 == 0 && !s.scannedSixAddFive
  }

  predicate SixHeight(s: State, height: nat) {
    10_000_000 <= height <= 30_000_000 && height % 1000 == 0 && !s.scannedSixAddSix
  }

  /** A fund guard in its initial type whose mode ends at this height: 6+5 guards from the first half period on, 6+6
      guards from the first whole period on, each once. */
  predicate FundEnds(s: State, a: Address, height: nat) {
    FundGuardIn(s.fund, a) &&
    if s.fund[a].mode.SixAddFive? then FiveHeight(s, height) else SixHeight(s, height)
  }

  /** Exactly the fund guards whose mode ends lose guard identity and vote, and their record says so. */
  ghost predicate FundsEnded(s: State, s': State, height: nat) {
    && (forall a {:trigger Parts(s, s', a, FundEnds(s, a, height))} :: Parts(s, s', a, FundEnds(s, a, height)))
    && s'.fund.Keys == s.fund.Keys
    && (forall a :: a in s.fund ==>
          s'.fund[a] == if FundEnds(s, a, height) then s.fund[a].(kind := NormalNode, height := height) else s.fund[a])
    && s'.fullStake == s.fullStake && s'.staked == s.staked && s'.balances == s.balances && s'.frozen == s.frozen
    && (s'.scannedSixAddFive <==> s.scannedSixAddFive || FiveHeight(s, height))
    && (s'.scannedSixAddSix <==> s.scannedSixAddSix || SixHeight(s, height))
  }

  lemma DueExactly(s: State, height: nat, a: Address)
    ensures a in DueFunds(s, height) <==> FundEnds(s, a, height)
    ensures a in DueListing(s, height) <==> FundEnds(s, a, height)
  {
    var all := Listing(s.fund.Keys);
    assert a in s.fund ==> a in all;
  }

  /** The ledger of the fund pass before the guards are taken away. */
  function WithRetired(s: State, height: nat): State {
    RetireFunds(s, DueFunds(s, height), height).(
      scannedSixAddFive := s.scannedSixAddFive || ScanSixAddFive(s, height),
      scannedSixAddSix := s.scannedSixAddSix || ScanSixAddSix(s, height))
  }

  lemma RetiredRecords(s: State, height: nat)
    ensures var s1 := WithRetired(s, height);
            && s1.fund.Keys == s.fund.Keys
            && (forall a :: a in s.fund ==>
                  s1.fund[a] == if FundEnds(s, a, height) then s.fund[a].(kind := NormalNode, height := height) else s.fund[a])
  {
    forall a | a in s.fund
      ensures WithRetired(s, height).fund[a]
              == if FundEnds(s, a, height) then s.fund[a].(kind := NormalNode, height := height) else s.fund[a]
    {
      DueExactly(s, height, a);
    }
  }

  lemma EndsWith(s: State, s1: State, s': State, gone: seq<Address>, height: nat)
    requires GuardsTaken(s1, s', gone, true) && s1.miners == s.miners && s1.votes == s.votes
    requires forall a :: a in gone <==> FundEnds(s, a, height)
    ensures forall a {:trigger Parts(s, s', a, FundEnds(s, a, height))} :: Parts(s, s', a, FundEnds(s, a, height))
    ensures s'.fullStake == s1.fullStake
  {
    forall a ensures Parts(s, s', a, FundEnds(s, a, height)) { assert Parts(s1, s', a, a in gone); }
  }

  lemma FundPassEnds(s: State, height: nat, s': State)
    requires FundPass(s, height) == Done(s')
    ensures FundsEnded(s, s', height)
  {
    var s1, gone := WithRetired(s, height), DueListing(s, height);
    assert ExpireGuards(s1, gone, height, true) == Done(s');
    AllTaken(s1, gone, height, true, s');
    forall a ensures a in gone <==> FundEnds(s, a, height) { DueExactly(s, height, a); }
    RetiredRecords(s, height);
    EndsWith(s, s1, s', gone, height);
  }

  lemma FundPassSucceeds(s: State, h: nat, height: nat)
    requires Inv(s, h)
    ensures FundPass(s, height).Done?
  {
    FundPassKeeps(s, height);
    forall a | a in DueListing(s, height) ensures MinerKey(a, Proposal) in s.miners {
      DueExactly(s, height, a);
      GuardHasRecord(s, h, a);
    }
    AllCanGo(WithRetired(s, height), DueListing(s, height), height, true);
  }

  // ----- The whole check

  /** The ledger after the first pass of the check. */
  function AfterFirst(s: State, height: nat): State { OrRevert(FullStakePass(s, height), s) }

  lemma FirstPass(s: State, h: nat, height: nat, a: Address)
    requires Inv(s, h) && h <= height
    ensures !FullStakePass(s, height).Panic? && Inv(AfterFirst(s, height), height)
    ensures FundEnds(AfterFirst(s, height), a, height) <==> FundEnds(s, a, height)
    ensures IdentityOf(AfterFirst(s, height), a).Guard? <==>
              IdentityOf(s, a).Guard? && !(FullStakeHeight(height) && AllDetailed(s) && Dismissed(s, a, height))
  {
    LaterInv(s, h, height);
    FullStakePassSucceeds(s, h, height);
    FullStakePassKeeps(s, height);
    var first := FullStakePass(s, height);
    if first.Done? {
      FullStakePassVotes(s, height);
      FullStakePassScans(s, height, first.st);
      if FullStakeHeight(height) { assert Parts(s, first.st, a, Dismissed(s, a, height)); }
    }
  }

  lemma SecondPass(s: State, h: nat, height: nat, a: Address)
    requires Inv(s, h)
    ensures FundPass(s, height).Done?
    ensures IdentityOf(FundPass(s, height).st, a).Guard? <==> IdentityOf(s, a).Guard? && !FundEnds(s, a, height)
  {
    FundPassSucceeds(s, h, height);
    FundPassEnds(s, height, FundPass(s, height).st);
    assert Parts(s, FundPass(s, height).st, a, FundEnds(s, a, height));
  }

  /** The periodic check takes guard identity from exactly the overdue members of the full-stake pool, unless a missing
      detail abandons that pass, and from exactly the fund guards whose mode ends. */
  lemma GuardCheckExactly(s: State, h: nat, height: nat, a: Address)
    requires Inv(s, h) && h <= height
    ensures GuardCheck(s, height).Done?
    ensures IdentityOf(GuardCheck(s, height).st, a).Guard? <==>
              && IdentityOf(s, a).Guard? && !FundEnds(s, a, height)
              && !(FullStakeHeight(height) && AllDetailed(s) && Dismissed(s, a, height))
  {
    FirstPass(s, h, height, a);
    SecondPass(AfterFirst(s, height), height, height, a);
    assert GuardCheck(s, height) == Done(FundPass(AfterFirst(s, height), height).st);
  }
}
