/** What each kind of transaction does to the accounts, and what a block pays to whom. */
module TxRules {

  import opened Ledger
  import opened LedgerStakes
  import opened LedgerRules
  import opened Rewards
  import opened Execution
  import opened ExecutionLaws

  // ----- Which transactions apply

  /** The price floor doubles every thirty million heights, three times. */
  lemma PriceFloor(height: nat)
    ensures LowestGasPrice(height) == if height < 30_000_000 then 500
                                      else if height < 60_000_000 then 1000
                                      else if height < 90_000_000 then 2000 else 4000
  {
  }

  /** The intrinsic gas is 400 and the whole part of 1.9073 for every byte. */
  lemma IntrinsicGasIs(tx: Tx)
    ensures 10_000 * IntrinsicGas(tx) <= 4_000_000 + 19_073 * tx.dataLength < 10_000 * IntrinsicGas(tx) + 10_000
  {
  }

  /** A transaction that is no reward applies if and only if it carries the next nonce, its source can pay the whole gas
      limit and, for a transfer, a stake or a contract, the value on top, its price is not below the floor, and its
      source is not blacklisted, which does not matter for an abort or before ZIP003. */
  lemma AppliesExactly(env: Env, w: World, tx: Tx, height: nat)
    requires !tx.body.Reward?
    ensures CanApply(env, w, tx, height) <==>
              && tx.nonce == (Nonce(w, tx.source) + 1) % TWO64
              && tx.gasLimit * tx.gasPrice <= Balance(w.ledger, tx.source)
              && (tx.body.Transfer? || tx.body.StakeAddTx? || (tx.body.Foreign? && tx.body.contract) ==>
                    tx.gasLimit * tx.gasPrice + tx.value <= Balance(w.ledger, tx.source))
              && tx.gasPrice >= LowestGasPrice(height)
              && (tx.body.MinerAbortTx? || height < ZIP003 || !env.isBlack(w.other, tx.source))
  {
  }

  /** A reward applies if and only if it parses and its block was not rewarded before. */
  lemma RewardApplies(env: Env, w: World, tx: Tx, height: nat)
    requires tx.body.Reward?
    ensures CanApply(env, w, tx, height) <==> tx.parses && tx.body.blockHash !in w.rewarded
  {
  }

  // ----- Transfers

  /** Only balances change. */
  predicate OnlyBalances(w: World, w': World) {
    w' == w.(ledger := w.ledger.(balances := w'.ledger.balances))
  }

  /** `value` goes from one account to another, and no other balance changes. */
  ghost predicate Moves(s: State, s': State, source: Address, target: Address, value: nat) {
    && (source == target ==> forall a {:trigger Balance(s', a)} :: Balance(s', a) == Balance(s, a))
    && (source != target ==>
          && Balance(s', source) + value == Balance(s, source) && Balance(s', target) == Balance(s, target) + value
          && forall a {:trigger Balance(s', a)} :: a != source && a != target ==> Balance(s', a) == Balance(s, a))
  }

  /** A transfer that its source can pay succeeds and moves exactly its value to the target; one that it cannot pay
      fails and moves nothing. */
  lemma TransferMoves(env: Env, b: Block, w: World, tx: Tx)
    requires tx.body.Transfer?
    ensures var t := TransitionOf(env, b, w, tx);
            && OnlyBalances(w, t.w) && t.gas == IntrinsicGas(tx)
            && (t.status.Success? <==> tx.value <= Balance(w.ledger, tx.source))
            && Moves(w.ledger, t.w.ledger, tx.source, tx.body.target, if t.status.Success? then tx.value else 0)
  {
    var s, source, target := w.ledger, tx.source, tx.body.target;
    if 0 < tx.value <= Balance(s, source) {
      var s1 := SubBalance(s, source, tx.value);
      var s2 := AddBalance(s1, target, tx.value);
      assert TransitionOf(env, b, w, tx).w.ledger == s2;
      forall a ensures Balance(s2, a) + (if a == source then tx.value else 0)
                       == Balance(s, a) + if a == target then tx.value else 0 {
        assert Balance(s1, a) + (if a == source then tx.value else 0) == Balance(s, a);
      }
    }
  }

  /** What the gas of a transaction other than a contract or an unknown type costs its source: the intrinsic gas, or
      the whole limit if that is less. */
  function GasPaid(tx: Tx): nat {
    (if IntrinsicGas(tx) < tx.gasLimit then IntrinsicGas(tx) else tx.gasLimit) * tx.gasPrice
  }

  lemma GasSplit(tx: Tx)
    ensures GasPaid(tx) <= GasCap(tx) && GasLeft(tx, IntrinsicGas(tx)) * tx.gasPrice + GasPaid(tx) == GasCap(tx)
  {
    var used := if IntrinsicGas(tx) < tx.gasLimit then IntrinsicGas(tx) else tx.gasLimit;
    assert (tx.gasLimit - used) * tx.gasPrice + used * tx.gasPrice == tx.gasLimit * tx.gasPrice;
  }

  lemma RefundedBalance(s: State, tx: Tx, used: nat, a: Address)
    ensures Balance(Refunded(s, tx, used), a) == Balance(s, a) + if a == tx.source then GasLeft(tx, used) * tx.gasPrice else 0
    ensures Refunded(s, tx, used) == s.(balances := Refunded(s, tx, used).balances)
  {
    assert GasLeft(tx, used) == 0 ==> GasLeft(tx, used) * tx.gasPrice == 0;
  }

  /** A transfer that applies succeeds: its source pays the value and the gas, its target gets the value, and nothing
      else in the world changes. */
  lemma TransferApplied(env: Env, b: Block, w: World, tx: Tx, a: Address)
    requires tx.body.Transfer? && CanApply(env, w, tx, b.ctx.height)
    ensures var t := ApplyTx(env, b, w, tx);
            && t.status.Success? && OnlyBalances(w, t.w)
            && Balance(t.w.ledger, a) + (if a == tx.source then tx.value + GasPaid(tx) else 0)
               == Balance(w.ledger, a) + if a == tx.body.target then tx.value else 0
  {
    var w1 := w.(ledger := SubBalance(w.ledger, tx.source, GasCap(tx)));
    TransferMoves(env, b, w1, tx);
    var t := TransitionOf(env, b, w1, tx);
    RefundedBalance(t.w.ledger, tx, t.gas, a);
    GasSplit(tx);
    MovedBalance(w1.ledger, t.w.ledger, tx.source, tx.body.target, tx.value, a);
  }

  lemma MovedBalance(s: State, s': State, source: Address, target: Address, value: nat, a: Address)
    requires Moves(s, s', source, target, value)
    ensures Balance(s', a) + (if a == source then value else 0) == Balance(s, a) + if a == target then value else 0
  {
  }

  // ----- Miner transactions

  /** Every miner transaction runs its own operation, for its source and with its value in 64 bits. */
  lemma OperationOf(tx: Tx)
    requires IsMinerTx(tx.body)
    ensures tx.body.StakeAddTx? ==>
              OpOf(tx) == OpStakeAdd(tx.source, tx.body.stakeTo, tx.body.stakeRole, tx.value % TWO64, tx.body.keys)
    ensures tx.body.StakeReduceTx? ==>
              OpOf(tx) == OpStakeReduce(tx.source, tx.body.reduceFrom, tx.body.reduceRole, tx.value % TWO64)
    ensures tx.body.StakeRefundTx? ==> OpOf(tx) == OpStakeRefund(tx.source, tx.body.refundFrom, tx.body.refundRole)
    ensures tx.body.MinerAbortTx? ==> OpOf(tx) == OpMinerAbort(tx.source, tx.body.abortRole)
    ensures tx.body.VoteTx? ==> OpOf(tx) == OpVote(tx.source, tx.body.votee)
    ensures tx.body.ApplyGuardTx? ==> OpOf(tx) == OpApplyGuard(tx.source)
    ensures tx.body.ChangeFundModeTx? ==> OpOf(tx) == OpChangeFundMode(tx.source, tx.body.mode)
  {
  }

  /** A miner transaction that parses leaves what its operation gives and reports its outcome; one that is rejected
      leaves the ledger alone. */
  lemma MinerTxRuns(env: Env, b: Block, w: World, tx: Tx)
    requires IsMinerTx(tx.body) && (tx.parses || tx.body.ApplyGuardTx?)
    ensures var t := TransitionOf(env, b, w, tx);
            var o := Transition(w.ledger, OpOf(tx), b.ctx);
            && t.gas == IntrinsicGas(tx) && t.w == w.(ledger := t.w.ledger)
            && (o.Done? ==> t.status == Success && t.w.ledger == o.st)
            && (o.Rejected? ==> t.status == Failed(o.rs) && t.w.ledger == w.ledger)
  {
  }

  /** What does not parse, or is of an unknown type, changes nothing; a foreign transaction does what the code outside
      the model does, or nothing when that fails. */
  lemma OtherTxRuns(env: Env, b: Block, w: World, tx: Tx)
    requires !tx.body.Reward?
    ensures var t := TransitionOf(env, b, w, tx);
            && (tx.body.Unsupported? ==> t == Transited(w, ParseFail, 0))
            && (!tx.parses && IsMinerTx(tx.body) && !tx.body.ApplyGuardTx? ==> t == Transited(w, ParseFail, IntrinsicGas(tx)))
            && (tx.body.Foreign? && tx.parses ==>
                  && t.w == (if env.foreign(w, tx).ok then env.foreign(w, tx).w else w)
                  && (t.status.Success? <==> env.foreign(w, tx).ok))
  {
  }

  // ----- Rewards

  /** A reward pays its value to each verifier as often as it is named and the pack fee to the castor, marks its block
      as rewarded, and changes nothing else; no second reward for that block applies. */
  lemma RewardPays(env: Env, b: Block, w: World, tx: Tx, a: Address)
    requires tx.body.Reward? && CanApply(env, w, tx, b.ctx.height)
    ensures var t := ApplyTx(env, b, w, tx);
            && t.status.Success? && t.gas == 0
            && t.w == w.(ledger := w.ledger.(balances := t.w.ledger.balances), rewarded := t.w.rewarded)
            && t.w.rewarded == w.rewarded[tx.body.blockHash := tx.hash]
            && Balance(t.w.ledger, a)
               == Balance(w.ledger, a) + TimesValue(tx.body.targets, tx.value)(a) + if a == b.castor then tx.body.packFee else 0
    ensures forall again: Tx, h: nat :: again.body.Reward? && again.body.blockHash == tx.body.blockHash ==>
              !CanApply(env, ApplyTx(env, b, w, tx).w, again, h)
  {
    RewardEach(w.ledger, tx.body.targets, tx.value, a);
    RewardEach(w.ledger, tx.body.targets, tx.value, b.castor);
    RewardsOnlyPay(w.ledger, tx.body.targets, tx.value);
  }

  lemma Emits(s: State, to: Address, v: nat, a: Address)
    ensures Emit(s, to, v) == s.(balances := Emit(s, to, v).balances)
    ensures Balance(Emit(s, to, v), a) == Balance(s, a) + if a == to then v else 0
  {
    if v == 0 { assert Emit(s, to, v) == s; } else { assert Emit(s, to, v) == AddBalance(s, to, v); }
  }

  /** A block pays the daemon, user and castor accounts their own shares, the castor also its part of the fees, and
      nobody else. */
  lemma BlockPays(b: Block, s: State, fee: u64, a: Address)
    ensures Paid(b, s, fee) == s.(balances := Paid(b, s, fee).balances)
    ensures Balance(Paid(b, s, fee), a)
            == Balance(s, a) + (if a == b.daemons then DaemonRewards(b.ctx.height) else 0)
               + (if a == b.users then UserRewards(b.ctx.height) else 0)
               + (if a == b.castor then CastorFee(fee) + CastorRewards(b.ctx.height) else 0)
  {
    var h := b.ctx.height;
    var s1 := Emit(s, b.daemons, DaemonRewards(h));
    Emits(s, b.daemons, DaemonRewards(h), a);
    Emits(s1, b.users, UserRewards(h), a);
    CastorTotalFits(h, fee);
  }

  /** After the loop the shares are paid, then the group's checks run, and the guard check comes last. */
  lemma SettledInOrder(env: Env, b: Block, w: World, fee: u64)
    ensures var w1 := w.(ledger := Paid(b, w.ledger, fee));
            && Settled(env, b, w, fee).ledger
               == Execute(Run(w1.ledger, Steps(env.checks(w1), b.ctx)), OpGuardCheck, b.ctx)
            && Settled(env, b, w, fee).nonces == w.nonces && Settled(env, b, w, fee).rewarded == w.rewarded
  {
    var w1 := w.(ledger := Paid(b, w.ledger, fee));
    var ops := env.checks(w1);
    var steps := Steps(ops + [OpGuardCheck], b.ctx);
    assert steps[..|ops|] == Steps(ops, b.ctx);
  }

  // ----- The loop

  /** The transaction is included: its effect, its nonce, its gas, its cost and its receipt are all accounted for. */
  predicate Included(b: Block, p: Progress, q: Progress, tx: Tx, t: Transited, cost: nat) {
    && q.stopped == p.stopped && q.evicted == p.evicted && q.executed == p.executed + [tx] && q.gas == p.gas + t.gas
    && q.receipts == p.receipts + [Receipt(tx.hash, t.status, t.gas, |p.executed|, b.ctx.height)]
    && q.fee == (p.fee + cost % TWO64) % TWO64
    && q.w == t.w.(nonces := if tx.body.Reward? then t.w.nonces else t.w.nonces[tx.source := tx.nonce])
  }

  lemma IncludedNext(b: Block, p: Progress, tx: Tx, t: Transited, cost: nat)
    ensures Included(b, p, Include(b, p, tx, t, cost), tx, t, cost)
  {
  }

  /** What happens to the next transaction: once the proposer's time or gas is up, or the block's gas limit would be
      exceeded, the loop stops; what does not apply is evicted; anything else is included, at the price of its gas. */
  lemma NextTx(env: Env, b: Block, mode: Mode, w: World, txs: seq<Tx>, tx: Tx)
    requires !Turns(env, b, mode, w, txs).stopped
    ensures var p := Turns(env, b, mode, w, txs);
            var q := Turns(env, b, mode, w, txs + [tx]);
            if mode.Packing? && (mode.timeUp(|txs|) || p.gas >= mode.limit) then q == p.(stopped := true)
            else if !CanApply(env, p.w, tx, b.ctx.height) then q == p.(evicted := p.evicted + [tx.hash])
            else
              var t := ApplyTx(env, b, p.w, tx);
              if p.gas + t.gas > 2_000_000 then q == p.(stopped := true)
              else Included(b, p, q, tx, t, t.gas * tx.gasPrice)
  {
    assert (txs + [tx])[..|txs|] == txs;
    var p := Turns(env, b, mode, w, txs);
    var attempt := TryTx(env, b, p.w, tx);
    assert Turns(env, b, mode, w, txs + [tx]) == Turn(b, mode, p, tx, |txs|, attempt);
    if attempt.Applied? { IncludedNext(b, p, tx, attempt.t, attempt.fee); }
  }

  /** Every receipt names its transaction, its place and its block. */
  predicate Named(p: Progress, height: nat) {
    |p.receipts| == |p.executed| && forall i :: 0 <= i < |p.executed| ==>
      p.receipts[i].txHash == p.executed[i].hash && p.receipts[i].index == i && p.receipts[i].height == height
  }

  lemma NamedNext(b: Block, mode: Mode, p: Progress, tx: Tx, i: nat, a: Attempt)
    requires Named(p, b.ctx.height)
    ensures Named(Turn(b, mode, p, tx, i, a), b.ctx.height)
  {
  }

  lemma {:induction false} ReceiptsName(env: Env, b: Block, mode: Mode, w: World, txs: seq<Tx>)
    ensures Named(Turns(env, b, mode, w, txs), b.ctx.height)
    decreases |txs|
  {
    if txs != [] {
      var n := |txs| - 1;
      var p := Turns(env, b, mode, w, txs[..n]);
      ReceiptsName(env, b, mode, w, txs[..n]);
      NamedNext(b, mode, p, txs[n], n, TryTx(env, b, p.w, txs[n]));
    }
  }

  lemma TurnAccounts(b: Block, mode: Mode, p: Progress, tx: Tx, i: nat, a: Attempt, q: Progress)
    requires q == Turn(b, mode, p, tx, i, a)
    ensures || (q.executed == p.executed + [tx] && q.evicted == p.evicted && q.stopped == p.stopped)
            || (q.executed == p.executed && q.evicted == p.evicted + [tx.hash] && q.stopped == p.stopped)
            || (q.executed == p.executed && q.evicted == p.evicted && q.stopped)
  {
  }

  /** The included and the evicted account for the offered transactions. */
  ghost predicate Accounts(txs: seq<Tx>, p: Progress) {
    && |p.executed| + |p.evicted| <= |txs| && (!p.stopped ==> |p.executed| + |p.evicted| == |txs|)
    && (forall x :: x in p.executed ==> x in txs)
    && (forall h :: h in p.evicted ==> exists i :: 0 <= i < |txs| && txs[i].hash == h)
  }

  lemma AccountsNext(txs: seq<Tx>, p: Progress, q: Progress, b: Block, mode: Mode, a: Attempt)
    requires txs != [] && Accounts(txs[..|txs| - 1], p) && q == Turn(b, mode, p, txs[|txs| - 1], |txs| - 1, a)
    ensures Accounts(txs, q)
  {
    var n := |txs| - 1;
    TurnAccounts(b, mode, p, txs[n], n, a, q);
    forall h | h in p.evicted ensures exists i :: 0 <= i < |txs| && txs[i].hash == h {
      var i :| 0 <= i < n && txs[..n][i].hash == h;
      assert txs[i].hash == h;
    }
  }

  /** As long as the loop goes on, every offered transaction is included or evicted. */
  lemma {:induction false} NoneForgotten(env: Env, b: Block, mode: Mode, w: World, txs: seq<Tx>)
    ensures Accounts(txs, Turns(env, b, mode, w, txs))
    decreases |txs|
  {
    if txs != [] {
      var n := |txs| - 1;
      var p := Turns(env, b, mode, w, txs[..n]);
      NoneForgotten(env, b, mode, w, txs[..n]);
      AccountsNext(txs, p, Turns(env, b, mode, w, txs), b, mode, TryTx(env, b, p.w, txs[n]));
    }
  }
}
