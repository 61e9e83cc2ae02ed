/** What executing a block keeps: the ledger's invariant, every token, and the order of nonces. */
module ExecutionLaws {

  import opened MapSums
  import opened Ledger
  import opened LedgerStakes
  import opened LedgerGuards
  import opened Rewards
  import opened Execution

  // ----- Moving balances

  /** Balances carry no other fact of the ledger's invariant than the size of the supply. */
  lemma BalancesKeepInv(s: State, balances: map<Address, nat>, h: nat)
    requires Inv(s, h) && Supply(s.(balances := balances)) < TWO64
    ensures Inv(s.(balances := balances), h)
  {
    assert Calm(s, s.(balances := balances));
    CalmKeeps(s, s.(balances := balances), NeedTickets(h));
  }

  lemma AddSupply(s: State, a: Address, v: nat)
    ensures Supply(AddBalance(s, a, v)) == Supply(s) + v
  {
    BalancesPut(s, a, Balance(s, a) + v);
  }

  lemma SubSupply(s: State, a: Address, v: nat)
    requires v <= Balance(s, a)
    ensures Supply(SubBalance(s, a, v)) + v == Supply(s)
  {
    BalancesPut(s, a, Balance(s, a) - v);
  }

  lemma AddKeeps(s: State, a: Address, v: nat, h: nat)
    requires Inv(s, h) && Supply(s) + v < TWO64
    ensures Inv(AddBalance(s, a, v), h) && Supply(AddBalance(s, a, v)) == Supply(s) + v
  {
    AddSupply(s, a, v);
    BalancesKeepInv(s, s.balances[a := Balance(s, a) + v], h);
  }

  lemma SubKeeps(s: State, a: Address, v: nat, h: nat)
    requires Inv(s, h) && v <= Balance(s, a)
    ensures Inv(SubBalance(s, a, v), h) && Supply(SubBalance(s, a, v)) + v == Supply(s)
  {
    SubSupply(s, a, v);
    BalancesKeepInv(s, s.balances[a := Balance(s, a) - v], h);
  }

  lemma {:induction false} RewardAllSupply(s: State, rewards: seq<Address>, each: nat, h: nat)
    requires Inv(s, h) && Supply(s) + |rewards| * each < TWO64
    ensures Inv(RewardAll(s, rewards, each), h) && Supply(RewardAll(s, rewards, each)) == Supply(s) + |rewards| * each
    decreases |rewards|
  {
    if rewards != [] {
      var n := |rewards| - 1;
      assert |rewards| * each == n * each + each;
      RewardAllSupply(s, rewards[..n], each, h);
      AddKeeps(RewardAll(s, rewards[..n], each), rewards[n], each, h);
    }
  }

  // ----- One transaction

  /** What the gas checks on entry to the pool and to a block guarantee. */
  predicate GasValid(tx: Tx) {
    tx.body.Reward? || IntrinsicGas(tx) <= tx.gasLimit <= GAS_LIMIT_PER_TRANSACTION
  }

  /** A foreign transaction that is no contract call touches neither tokens nor nonces. */
  ghost predicate Plain(env: Env, tx: Tx) {
    tx.body.Foreign? ==>
      && !tx.body.contract
      && forall w :: env.foreign(w, tx).w == w.(other := env.foreign(w, tx).w.other)
  }

  /** The tokens that a reward transaction brings into circulation. */
  function PaidOut(tx: Tx): nat {
    if tx.body.Reward? then |tx.body.targets| * tx.value + tx.body.packFee else 0
  }

  lemma TransferKeeps(s: State, source: Address, target: Address, value: nat, h: nat)
    requires Inv(s, h) && value <= Balance(s, source)
    ensures Inv(Transferred(s, source, target, value), h) && Supply(Transferred(s, source, target, value)) == Supply(s)
  {
    SubKeeps(s, source, value, h);
    AddKeeps(SubBalance(s, source, value), target, value, h);
  }

  lemma MinerTxKeeps(s: State, op: Op, ctx: Context, h: nat)
    requires Inv(s, h) && h <= ctx.height && !op.OpMinerPenalty?
    ensures Inv(Execute(s, op, ctx), ctx.height) && Supply(Execute(s, op, ctx)) == Supply(s)
    ensures !Transition(s, op, ctx).Panic?
  {
    StepKeepsInv(s, h, op, ctx);
    StepKeepsStakes(s, op, ctx);
  }

  lemma TransitionKeeps(env: Env, b: Block, w: World, tx: Tx, h: nat)
    requires Inv(w.ledger, h) && h <= b.ctx.height && !tx.body.Reward? && Plain(env, tx)
    ensures var t := TransitionOf(env, b, w, tx);
            Inv(t.w.ledger, b.ctx.height) && Supply(t.w.ledger) == Supply(w.ledger)
  {
    LaterInv(w.ledger, h, b.ctx.height);
    if tx.body.Transfer? && 0 < tx.value <= Balance(w.ledger, tx.source) {
      TransferKeeps(w.ledger, tx.source, tx.body.target, tx.value, b.ctx.height);
    }
    if IsMinerTx(tx.body) { MinerTxKeeps(w.ledger, OpOf(tx), b.ctx, h); }
  }

  lemma GasSplits(tx: Tx, used: nat)
    requires used <= tx.gasLimit
    ensures GasLeft(tx, used) * tx.gasPrice + used * tx.gasPrice == GasCap(tx)
  {
  }

  lemma RefundKeeps(s: State, tx: Tx, used: nat, h: nat)
    requires Inv(s, h) && used <= tx.gasLimit && Supply(s) + GasCap(tx) < TWO64
    ensures Inv(Refunded(s, tx, used), h)
    ensures Supply(Refunded(s, tx, used)) + used * tx.gasPrice == Supply(s) + GasCap(tx)
  {
    GasSplits(tx, used);
    if GasLeft(tx, used) > 0 { AddKeeps(s, tx.source, GasLeft(tx, used) * tx.gasPrice, h); }
  }

  lemma GasUsedFits(env: Env, b: Block, w: World, tx: Tx)
    requires !tx.body.Reward? && GasValid(tx)
    ensures TransitionOf(env, b, w, tx).gas <= tx.gasLimit
  {
  }

  lemma RewardTxKeeps(s: State, tx: Tx, castor: Address, h: nat)
    requires Inv(s, h) && tx.body.Reward? && Supply(s) + PaidOut(tx) < TWO64
    ensures Inv(RewardPaid(s, tx, castor), h) && Supply(RewardPaid(s, tx, castor)) == Supply(s) + PaidOut(tx)
  {
    assert 0 <= |tx.body.targets| * tx.value;
    RewardAllSupply(s, tx.body.targets, tx.value, h);
    AddKeeps(RewardAll(s, tx.body.targets, tx.value), castor, tx.body.packFee, h);
  }

  /** A transaction takes exactly the price of its gas out of circulation and brings in what it pays out. */
  lemma TxKeeps(env: Env, b: Block, w: World, tx: Tx, h: nat)
    requires Inv(w.ledger, h) && h <= b.ctx.height && GasValid(tx) && Plain(env, tx)
    requires CanApply(env, w, tx, b.ctx.height) && Supply(w.ledger) + PaidOut(tx) < TWO64
    ensures var t := ApplyTx(env, b, w, tx);
            && Inv(t.w.ledger, b.ctx.height)
            && Supply(t.w.ledger) + t.gas * tx.gasPrice == Supply(w.ledger) + PaidOut(tx)
  {
    LaterInv(w.ledger, h, b.ctx.height);
    if tx.body.Reward? {
      RewardTxKeeps(w.ledger, tx, b.castor, b.ctx.height);
    } else {
      var w1 := w.(ledger := SubBalance(w.ledger, tx.source, GasCap(tx)));
      SubKeeps(w.ledger, tx.source, GasCap(tx), b.ctx.height);
      TransitionKeeps(env, b, w1, tx, b.ctx.height);
      GasUsedFits(env, b, w1, tx);
      var t := TransitionOf(env, b, w1, tx);
      RefundKeeps(t.w.ledger, tx, t.gas, b.ctx.height);
    }
  }

  /** The gas limit covers all gas that the transaction can use. */
  predicate LimitCovers(tx: Tx) {
    tx.body.Unsupported? || IsContract(tx.body) || IntrinsicGas(tx) <= tx.gasLimit
  }

  lemma GasCovered(env: Env, b: Block, w: World, tx: Tx)
    requires !tx.body.Reward?
    ensures TransitionOf(env, b, w, tx).gas <= tx.gasLimit <==> LimitCovers(tx)
  {
  }

  lemma PriceIsPositive(height: nat)
    ensures LowestGasPrice(height) > 0
  {
  }

  /** A transaction that fails changes nothing but its source's balance, which pays for the gas used;
      it pays exactly that if and only if its limit covers the intrinsic gas, as validation asks. Contracts are
      never charged beyond their limit and unsupported types use no gas. */
  lemma FailedTxPays(env: Env, b: Block, w: World, tx: Tx)
    requires !tx.body.Reward? && CanApply(env, w, tx, b.ctx.height)
    requires !ApplyTx(env, b, w, tx).status.Success?
    ensures var t := ApplyTx(env, b, w, tx);
            && t.w.nonces == w.nonces && t.w.rewarded == w.rewarded && t.w.other == w.other
            && t.w.ledger == w.ledger.(balances := w.ledger.balances[tx.source := Balance(t.w.ledger, tx.source)])
            && (LimitCovers(tx) <==>
                Balance(t.w.ledger, tx.source) + t.gas * tx.gasPrice == Balance(w.ledger, tx.source))
  {
    var w1 := w.(ledger := SubBalance(w.ledger, tx.source, GasCap(tx)));
    var t := TransitionOf(env, b, w1, tx);
    assert t.w == w1;
    GasCovered(env, b, w1, tx);
    PriceIsPositive(b.ctx.height);
    PriceOrder(tx.gasLimit, t.gas, tx.gasPrice);
  }

  /** Without validation a failed transaction can use more gas than it pays for: the intrinsic gas of 400 is charged
      to the fees although only the limit of 1 was paid. */
  lemma LowLimitUnderpays(env: Env, b: Block) returns (w: World, tx: Tx)
    requires b.ctx.height < ZIP003
    ensures CanApply(env, w, tx, b.ctx.height) && !tx.body.Reward? && !LimitCovers(tx)
    ensures var t := ApplyTx(env, b, w, tx);
            !t.status.Success? && Balance(t.w.ledger, tx.source) + t.gas * tx.gasPrice > Balance(w.ledger, tx.source)
  {
    w := World(EmptyLedger(map[1 := 4000]), map[], map[], 0);
    tx := Tx(0, 1, 1, 1, 4000, 0, 0, true, ApplyGuardTx);
    var w1 := w.(ledger := SubBalance(w.ledger, 1, GasCap(tx)));
    assert TransitionOf(env, b, w1, tx) == Transited(w1, Failed(RSNotExists), 400);
  }

  lemma PriceOrder(limit: nat, used: nat, price: nat)
    ensures used <= limit ==> used * price + (limit - used) * price == limit * price
    ensures used > limit && price > 0 ==> used * price > limit * price
  {
  }

  // ----- The loop

  function Payouts(executed: seq<Tx>): nat {
    if executed == [] then 0 else Payouts(executed[..|executed| - 1]) + PaidOut(executed[|executed| - 1])
  }

  function GasOf(receipts: seq<Receipt>): nat {
    if receipts == [] then 0 else GasOf(receipts[..|receipts| - 1]) + receipts[|receipts| - 1].gas
  }

  /** What the included transactions paid for their gas. */
  function FeesOf(executed: seq<Tx>, receipts: seq<Receipt>): nat
    requires |executed| == |receipts|
  {
    if executed == [] then 0
    else
      var n := |executed| - 1;
      FeesOf(executed[..n], receipts[..n]) + receipts[n].gas * executed[n].gasPrice
  }

  /** The state of the loop: its totals are exact and no token is lost. */
  ghost predicate LoopInv(b: Block, supply: nat, p: Progress) {
    && Inv(p.w.ledger, b.ctx.height)
    && |p.receipts| == |p.executed|
    && p.gas == GasOf(p.receipts) <= GAS_LIMIT_PER_BLOCK
    && p.fee == FeesOf(p.executed, p.receipts)
    && Supply(p.w.ledger) + p.fee == supply + Payouts(p.executed)
  }

  lemma IncludeSums(b: Block, p: Progress, tx: Tx, t: Transited, fee: nat)
    requires |p.receipts| == |p.executed| && fee == t.gas * tx.gasPrice
    ensures var q := Include(b, p, tx, t, fee);
            && |q.receipts| == |q.executed|
            && Payouts(q.executed) == Payouts(p.executed) + PaidOut(tx)
            && GasOf(q.receipts) == GasOf(p.receipts) + t.gas
            && FeesOf(q.executed, q.receipts) == FeesOf(p.executed, p.receipts) + fee
  {
    var q := Include(b, p, tx, t, fee);
    assert q.executed[..|p.executed|] == p.executed;
    assert q.receipts[..|p.executed|] == p.receipts;
  }

  lemma FeeAdds(total: u64, fee: nat)
    requires total + fee < TWO64
    ensures Add64(total, fee % TWO64) == total + fee
  {
  }

  lemma IncludeKeeps(b: Block, supply: nat, p: Progress, tx: Tx, t: Transited, fee: nat)
    requires LoopInv(b, supply, p) && p.gas + t.gas <= GAS_LIMIT_PER_BLOCK && fee == t.gas * tx.gasPrice
    requires Inv(t.w.ledger, b.ctx.height) && Supply(t.w.ledger) + fee == Supply(p.w.ledger) + PaidOut(tx)
    requires supply + Payouts(p.executed) + PaidOut(tx) < TWO64
    ensures LoopInv(b, supply, Include(b, p, tx, t, fee))
  {
    IncludeSums(b, p, tx, t, fee);
    FeeAdds(p.fee, fee);
  }

  /** A turn includes the transaction or leaves world and totals alone. */
  lemma TurnCases(b: Block, mode: Mode, p: Progress, tx: Tx, i: nat, a: Attempt, q: Progress)
    requires q == Turn(b, mode, p, tx, i, a)
    ensures if q.executed == p.executed then q == p.(evicted := q.evicted, stopped := q.stopped)
            else a.Applied? && q == Include(b, p, tx, a.t, a.fee) && p.gas + a.t.gas <= GAS_LIMIT_PER_BLOCK
    ensures Payouts(q.executed) == Payouts(p.executed) + if q.executed == p.executed then 0 else PaidOut(tx)
  {
    assert (p.executed + [tx])[..|p.executed|] == p.executed;
  }

  lemma IdleKeeps(b: Block, supply: nat, p: Progress, q: Progress)
    requires LoopInv(b, supply, p) && q == p.(evicted := q.evicted, stopped := q.stopped)
    ensures LoopInv(b, supply, q)
  {
  }

  /** What a transaction that applies does to the ledger's tokens. */
  lemma AttemptKeeps(env: Env, b: Block, w: World, tx: Tx, a: Attempt)
    requires Inv(w.ledger, b.ctx.height) && GasValid(tx) && Plain(env, tx)
    requires a == TryTx(env, b, w, tx) && a.Applied? && Supply(w.ledger) + PaidOut(tx) < TWO64
    ensures Inv(a.t.w.ledger, b.ctx.height)
    ensures a.fee == a.t.gas * tx.gasPrice && Supply(a.t.w.ledger) + a.fee == Supply(w.ledger) + PaidOut(tx)
  {
    TxKeeps(env, b, w, tx, b.ctx.height);
  }

  lemma {:induction false} TurnsKeep(env: Env, b: Block, mode: Mode, w: World, txs: seq<Tx>, h: nat)
    requires Inv(w.ledger, h) && h <= b.ctx.height
    requires forall tx :: tx in txs ==> GasValid(tx) && Plain(env, tx)
    requires Supply(w.ledger) + Payouts(Turns(env, b, mode, w, txs).executed) < TWO64
    ensures LoopInv(b, Supply(w.ledger), Turns(env, b, mode, w, txs))
    decreases |txs|
  {
    if txs == [] {
      LaterInv(w.ledger, h, b.ctx.height);
    } else {
      var n := |txs| - 1;
      var p, q := Turns(env, b, mode, w, txs[..n]), Turns(env, b, mode, w, txs);
      var a := TryTx(env, b, p.w, txs[n]);
      TurnCases(b, mode, p, txs[n], n, a, q);
      TurnsKeep(env, b, mode, w, txs[..n], h);
      if q.executed == p.executed {
        IdleKeeps(b, Supply(w.ledger), p, q);
      } else {
        AttemptKeeps(env, b, p.w, txs[n], a);
        IncludeKeeps(b, Supply(w.ledger), p, txs[n], a.t, a.fee);
      }
    }
  }

  // ----- The whole block

  /** What a block itself releases, besides the castor's part of the fees. */
  function Released(height: nat): nat {
    DaemonRewards(height) + UserRewards(height) + CastorRewards(height)
  }

  /** What the checks after the block destroy. */
  function CheckLoss(env: Env, b: Block, w: World, fee: u64): nat {
    var w1 := w.(ledger := Paid(b, w.ledger, fee));
    RunLoss(w1.ledger, CheckSteps(env, b, w1))
  }

  lemma CastorTotalFits(height: nat, fee: u64)
    ensures CastorTotal(height, fee) == CastorFee(fee) + CastorRewards(height)
  {
  }

  lemma EmitKeeps(s: State, a: Address, v: nat, h: nat)
    requires Inv(s, h) && Supply(s) + v < TWO64
    ensures Inv(Emit(s, a, v), h) && Supply(Emit(s, a, v)) == Supply(s) + v
  {
    if v != 0 { AddKeeps(s, a, v, h); }
  }

  lemma PaidKeeps(b: Block, s: State, fee: u64)
    requires Inv(s, b.ctx.height) && Supply(s) + Released(b.ctx.height) + CastorFee(fee) < TWO64
    ensures Inv(Paid(b, s, fee), b.ctx.height)
    ensures Supply(Paid(b, s, fee)) == Supply(s) + Released(b.ctx.height) + CastorFee(fee)
  {
    var h := b.ctx.height;
    CastorTotalFits(h, fee);
    var s1 := Emit(s, b.daemons, DaemonRewards(h));
    EmitKeeps(s, b.daemons, DaemonRewards(h), h);
    EmitKeeps(s1, b.users, UserRewards(h), h);
    AddKeeps(Emit(s1, b.users, UserRewards(h)), b.castor, CastorTotal(h, fee), h);
  }

  lemma SettledKeeps(env: Env, b: Block, w: World, fee: u64)
    requires Inv(w.ledger, b.ctx.height)
    requires Supply(w.ledger) + Released(b.ctx.height) + CastorFee(fee) < TWO64
    ensures Inv(Settled(env, b, w, fee).ledger, b.ctx.height)
    ensures Supply(Settled(env, b, w, fee).ledger) + CheckLoss(env, b, w, fee)
            == Supply(w.ledger) + Released(b.ctx.height) + CastorFee(fee)
  {
    PaidKeeps(b, w.ledger, fee);
    var w1 := w.(ledger := Paid(b, w.ledger, fee));
    RunKeepsInv(w1.ledger, b.ctx.height, CheckSteps(env, b, w1));
    RunKeepsStakes(w1.ledger, CheckSteps(env, b, w1));
  }

  /** Inputs on which no 64-bit sum can overflow and no transaction is foreign to the ledger's tokens. */
  ghost predicate Sound(env: Env, b: Block, mode: Mode, w: World, txs: seq<Tx>) {
    && (forall tx :: tx in txs ==> GasValid(tx) && Plain(env, tx))
    && Supply(w.ledger) + Payouts(Turns(env, b, mode, w, txs).executed) + Released(b.ctx.height) < TWO64
  }

  function BlockLoss(env: Env, b: Block, mode: Mode, w: World, txs: seq<Tx>): nat {
    var p := Turns(env, b, mode, w, txs);
    CheckLoss(env, b, p.w, p.fee)
  }

  /** Executing a block keeps the whole ledger invariant and accounts for every token: what the block and
      its reward transactions release comes in, all fees go out, and nine tenths of them go to the castor. */
  lemma BlockKeeps(env: Env, b: Block, mode: Mode, w: World, txs: seq<Tx>, h: nat)
    requires Inv(w.ledger, h) && h <= b.ctx.height && Sound(env, b, mode, w, txs)
    ensures var r := Process(env, b, mode, w, txs);
            && Inv(r.w.ledger, b.ctx.height)
            && Supply(r.w.ledger) + r.fee + BlockLoss(env, b, mode, w, txs)
               == Supply(w.ledger) + Payouts(r.executed) + Released(b.ctx.height) + CastorFee(r.fee)
            && |r.receipts| == |r.executed| && r.fee == FeesOf(r.executed, r.receipts)
            && GasOf(r.receipts) <= GAS_LIMIT_PER_BLOCK
  {
    var p := Turns(env, b, mode, w, txs);
    TurnsKeep(env, b, mode, w, txs, h);
    FeeSplit(p.fee);
    SettledKeeps(env, b, p.w, p.fee);
  }

  // ----- Nonces

  /** The nonces of the transactions of `a`, in order. */
  function NoncesOf(executed: seq<Tx>, a: Address): seq<u64> {
    if executed == [] then []
    else
      var n := |executed| - 1;
      var rest := NoncesOf(executed[..n], a);
      if !executed[n].body.Reward? && executed[n].source == a then rest + [executed[n].nonce] else rest
  }

  predicate Consecutive(nonces: seq<u64>, start: u64) {
    forall i :: 0 <= i < |nonces| ==> nonces[i] == (start + 1 + i) % TWO64
  }

  lemma ApplyKeepsNonces(env: Env, b: Block, w: World, tx: Tx)
    requires CanApply(env, w, tx, b.ctx.height) && Plain(env, tx)
    ensures ApplyTx(env, b, w, tx).w.nonces == w.nonces
  {
  }

  lemma NextNonce(start: u64, n: nat, nonce: u64)
    requires nonce == Add64((start + n) % TWO64, 1)
    ensures nonce == (start + 1 + n) % TWO64
  {
  }

  /** The nonces of `a` in `p` run on from `start` to its account nonce. */
  predicate InOrder(start: u64, p: Progress, a: Address) {
    && Consecutive(NoncesOf(p.executed, a), start)
    && Nonce(p.w, a) == (start + |NoncesOf(p.executed, a)|) % TWO64
  }

  lemma TurnInOrder(b: Block, mode: Mode, p: Progress, tx: Tx, i: nat, a: Attempt, q: Progress,
                    start: u64, source: Address)
    requires InOrder(start, p, source) && q == Turn(b, mode, p, tx, i, a)
    requires a.Applied? ==> a.t.w.nonces == p.w.nonces
    requires a.Applied? && !tx.body.Reward? ==> tx.nonce == Add64(Nonce(p.w, tx.source), 1)
    ensures InOrder(start, q, source)
  {
    TurnCases(b, mode, p, tx, i, a, q);
    if q.executed != p.executed {
      assert q.executed[..|p.executed|] == p.executed;
      if !tx.body.Reward? && tx.source == source {
        NextNonce(start, |NoncesOf(p.executed, source)|, tx.nonce);
      }
    }
  }

  /** Each source's included transactions carry consecutive nonces from its account nonce on, and the account
      nonce ends at the last of them. */
  lemma {:induction false} NoncesConsecutive(env: Env, b: Block, mode: Mode, w: World, txs: seq<Tx>, a: Address)
    requires forall tx :: tx in txs ==> Plain(env, tx)
    ensures InOrder(Nonce(w, a), Turns(env, b, mode, w, txs), a)
    decreases |txs|
  {
    if txs != [] {
      var n := |txs| - 1;
      var p := Turns(env, b, mode, w, txs[..n]);
      var attempt := TryTx(env, b, p.w, txs[n]);
      NoncesConsecutive(env, b, mode, w, txs[..n], a);
      if attempt.Applied? { ApplyKeepsNonces(env, b, p.w, txs[n]); }
      TurnInOrder(b, mode, p, txs[n], n, attempt, Turns(env, b, mode, w, txs), Nonce(w, a), a);
    }
  }

  // ----- A chain of blocks

  datatype Chapter = Chapter(b: Block, mode: Mode, txs: seq<Tx>)

  function Replay(env: Env, w: World, chapters: seq<Chapter>): World {
    if chapters == [] then w
    else
      var n := |chapters| - 1;
      Process(env, chapters[n].b, chapters[n].mode, Replay(env, w, chapters[..n]), chapters[n].txs).w
  }

  function Top(h: nat, chapters: seq<Chapter>): nat {
    if chapters == [] then h else chapters[|chapters| - 1].b.ctx.height
  }

  ghost predicate SoundChain(env: Env, w: World, h: nat, chapters: seq<Chapter>) {
    chapters != [] ==>
      var n := |chapters| - 1;
      && SoundChain(env, w, h, chapters[..n])
      && Top(h, chapters[..n]) <= chapters[n].b.ctx.height
      && Sound(env, chapters[n].b, chapters[n].mode, Replay(env, w, chapters[..n]), chapters[n].txs)
  }

  /** All that the blocks of a chain bring into circulation. */
  function Minted(env: Env, w: World, chapters: seq<Chapter>): nat {
    if chapters == [] then 0
    else
      var n := |chapters| - 1;
      var r := Process(env, chapters[n].b, chapters[n].mode, Replay(env, w, chapters[..n]), chapters[n].txs);
      Minted(env, w, chapters[..n]) + Payouts(r.executed) + Released(chapters[n].b.ctx.height) + CastorFee(r.fee)
  }

  /** All that the blocks of a chain take out of circulation. */
  function Burned(env: Env, w: World, chapters: seq<Chapter>): nat {
    if chapters == [] then 0
    else
      var n := |chapters| - 1;
      var w1 := Replay(env, w, chapters[..n]);
      var r := Process(env, chapters[n].b, chapters[n].mode, w1, chapters[n].txs);
      Burned(env, w, chapters[..n]) + r.fee + BlockLoss(env, chapters[n].b, chapters[n].mode, w1, chapters[n].txs)
  }

  /** The ledger invariant holds after every block of a chain, and every token is accounted for. */
  lemma {:induction false} ChainKeeps(env: Env, w: World, h: nat, chapters: seq<Chapter>)
    requires Inv(w.ledger, h) && SoundChain(env, w, h, chapters)
    ensures Inv(Replay(env, w, chapters).ledger, Top(h, chapters))
    ensures Supply(Replay(env, w, chapters).ledger) + Burned(env, w, chapters)
            == Supply(w.ledger) + Minted(env, w, chapters)
    decreases |chapters|
  {
    if chapters != [] {
      var n := |chapters| - 1;
      ChainKeeps(env, w, h, chapters[..n]);
      BlockKeeps(env, chapters[n].b, chapters[n].mode, Replay(env, w, chapters[..n]), chapters[n].txs,
                 Top(h, chapters[..n]));
    }
  }
}
