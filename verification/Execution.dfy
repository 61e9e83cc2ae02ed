/** Block execution: applying one transaction, the packing and verifying loop, and what follows it. */
module Execution {

  import opened Ledger
  import opened Rewards

  const TRANSACTION_GAS_COST: nat := 400
  const CODE_BYTE_PRICE: nat := 19073
  const CODE_BYTE_PRECISION: nat := 10000
  const MIN_GAS_PRICE: nat := 500
  const GAS_PRICE_PERIOD: nat := 30_000_000
  const GAS_PRICE_TIMES: nat := 3
  const GAS_LIMIT_PER_TRANSACTION: nat := 500_000
  const GAS_LIMIT_PER_BLOCK: nat := 2_000_000

  type Hash = nat

  /** What a transaction asks for. `Foreign` stands for contract, group and blacklist transactions. */
  datatype Body =
    | Transfer(target: Address)
    | StakeAddTx(stakeTo: Address, stakeRole: Role, keys: Keys)
    | StakeReduceTx(reduceFrom: Address, reduceRole: Role)
    | StakeRefundTx(refundFrom: Address, refundRole: Role)
    | MinerAbortTx(abortRole: Role)
    | VoteTx(votee: Address)
    | ApplyGuardTx
    | ChangeFundModeTx(mode: FundMode)
    | Foreign(contract: bool, payload: nat)
    | Unsupported
    | Reward(blockHash: Hash, targets: seq<Address>, packFee: nat)

  /** `parses` says whether the payload decodes. */
  datatype Tx = Tx(
    hash: Hash, source: Address, nonce: u64, gasLimit: nat, gasPrice: nat, value: nat,
    dataLength: nat, parses: bool, body: Body)

  /** The account database; `other` is the part that only foreign transactions touch. */
  datatype World = World(ledger: State, nonces: map<Address, u64>, rewarded: map<Hash, Hash>, other: nat)

  datatype Status = Success | ParseFail | Failed(rs: ReceiptStatus)

  /** What a foreign transaction does; `left` is the gas that a contract's controller has left. */
  datatype ForeignResult = ForeignResult(w: World, ok: bool, left: nat)

  /** The code outside the model: foreign transactions, the blacklist, and the checks that follow a block. */
  datatype Env = Env(
    foreign: (World, Tx) -> ForeignResult,
    isBlack: (nat, Address) -> bool,
    checks: World -> seq<Op>,
    rest: World -> nat)

  /** What execution reads of a block header; it does not read the block time. */
  datatype Block = Block(castor: Address, daemons: Address, users: Address, ctx: Context)

  // ----- Applying one transaction

  function IntrinsicGas(tx: Tx): nat {
    TRANSACTION_GAS_COST + tx.dataLength * CODE_BYTE_PRICE / CODE_BYTE_PRECISION
  }

  predicate IsContract(body: Body) { body.Foreign? && body.contract }

  /** Transfers, contracts and guard applications have no payload that could fail to decode. */
  predicate FailsToParse(tx: Tx) {
    !tx.parses && !tx.body.Transfer? && !tx.body.ApplyGuardTx? && !IsContract(tx.body)
  }

  /** A contract uses its limit less what its controller has left of the limit after the intrinsic gas. */
  function ContractGas(tx: Tx, left: nat): (gas: nat)
    ensures gas <= tx.gasLimit
    ensures IntrinsicGas(tx) <= tx.gasLimit ==> IntrinsicGas(tx) <= gas
  {
    var granted := if IntrinsicGas(tx) < tx.gasLimit then tx.gasLimit - IntrinsicGas(tx) else 0;
    tx.gasLimit - if left < granted then left else granted
  }

  function LowestGasPrice(height: nat): nat {
    var times := height / GAS_PRICE_PERIOD;
    match if times > GAS_PRICE_TIMES then GAS_PRICE_TIMES else times
    case 0 => MIN_GAS_PRICE
    case 1 => MIN_GAS_PRICE * 2
    case 2 => MIN_GAS_PRICE * 4
    case _ => MIN_GAS_PRICE * 8
  }

  function Nonce(w: World, a: Address): u64 {
    if a in w.nonces then w.nonces[a] else 0
  }

  function GasCap(tx: Tx): nat { tx.gasLimit * tx.gasPrice }

  predicate MovesValue(body: Body) {
    body.Transfer? || body.StakeAddTx? || IsContract(body)
  }

  predicate StateValid(env: Env, w: World, tx: Tx, height: nat) {
    && GasCap(tx) <= Balance(w.ledger, tx.source)
    && (MovesValue(tx.body) ==> GasCap(tx) + tx.value <= Balance(w.ledger, tx.source))
    && LowestGasPrice(height) <= tx.gasPrice
    && (!tx.body.MinerAbortTx? && ZIP003 <= height ==> !env.isBlack(w.other, tx.source))
  }

  predicate CanApply(env: Env, w: World, tx: Tx, height: nat) {
    if tx.body.Reward? then tx.parses && tx.body.blockHash !in w.rewarded
    else tx.nonce == Add64(Nonce(w, tx.source), 1) && StateValid(env, w, tx, height)
  }

  predicate IsMinerTx(body: Body) {
    match body
    case StakeAddTx(_, _, _) => true
    case StakeReduceTx(_, _) => true
    case StakeRefundTx(_, _) => true
    case MinerAbortTx(_) => true
    case VoteTx(_) => true
    case ApplyGuardTx => true
    case ChangeFundModeTx(_) => true
    case _ => false
  }

  /** The ledger operation of a miner transaction. */
  function OpOf(tx: Tx): Op
    requires IsMinerTx(tx.body)
  {
    match tx.body
    case StakeAddTx(target, role, keys) => OpStakeAdd(tx.source, target, role, tx.value % TWO64, keys)
    case StakeReduceTx(target, role) => OpStakeReduce(tx.source, target, role, tx.value % TWO64)
    case StakeRefundTx(target, role) => OpStakeRefund(tx.source, target, role)
    case MinerAbortTx(role) => OpMinerAbort(tx.source, role)
    case VoteTx(target) => OpVote(tx.source, target)
    case ApplyGuardTx => OpApplyGuard(tx.source)
    case ChangeFundModeTx(mode) => OpChangeFundMode(tx.source, mode)
  }

  /** What a transition did; the world is the one before it when it failed. */
  datatype Transited = Transited(w: World, status: Status, gas: nat)

  function StatusOf(o: Outcome): Status {
    match o
    case Done(_) => Success
    case Rejected(rs) => Failed(rs)
    case Panic => Failed(RSFail)
  }

  function Transferred(s: State, source: Address, target: Address, value: nat): State
    requires value <= Balance(s, source)
  {
    AddBalance(SubBalance(s, source, value), target, value)
  }

  function TransitionOf(env: Env, b: Block, w: World, tx: Tx): Transited
    requires !tx.body.Reward?
  {
    var gas := IntrinsicGas(tx);
    if tx.body.Unsupported? then Transited(w, ParseFail, 0)
    else if FailsToParse(tx) then Transited(w, ParseFail, gas)
    else if tx.body.Transfer? then
      if tx.value == 0 then Transited(w, Success, gas)
      else if Balance(w.ledger, tx.source) < tx.value then Transited(w, Failed(RSBalanceNotEnough), gas)
      else Transited(w.(ledger := Transferred(w.ledger, tx.source, tx.body.target, tx.value)), Success, gas)
    else if tx.body.Foreign? then
      var r := env.foreign(w, tx);
      Transited(if r.ok then r.w else w, if r.ok then Success else Failed(RSFail),
                if IsContract(tx.body) then ContractGas(tx, r.left) else gas)
    else
      Transited(w.(ledger := Execute(w.ledger, OpOf(tx), b.ctx)), StatusOf(Transition(w.ledger, OpOf(tx), b.ctx)), gas)
  }

  function GasLeft(tx: Tx, used: nat): nat {
    if tx.gasLimit > used then tx.gasLimit - used else 0
  }

  function RewardPaid(s: State, tx: Tx, castor: Address): State
    requires tx.body.Reward?
  {
    AddBalance(RewardAll(s, tx.body.targets, tx.value), castor, tx.body.packFee)
  }

  /** The gas that was left over goes back to the source. */
  function Refunded(s: State, tx: Tx, used: nat): State {
    if GasLeft(tx, used) > 0 then AddBalance(s, tx.source, GasLeft(tx, used) * tx.gasPrice) else s
  }

  /** The price of the whole gas limit is taken first; what is left over comes back. */
  function ApplyPaid(env: Env, b: Block, w: World, tx: Tx): Transited
    requires !tx.body.Reward? && GasCap(tx) <= Balance(w.ledger, tx.source)
  {
    var t := TransitionOf(env, b, w.(ledger := SubBalance(w.ledger, tx.source, GasCap(tx))), tx);
    t.(w := t.w.(ledger := Refunded(t.w.ledger, tx, t.gas)))
  }

  /** The effect of a transaction that can be applied. A failed one still pays for its gas. */
  function ApplyTx(env: Env, b: Block, w: World, tx: Tx): Transited
    requires CanApply(env, w, tx, b.ctx.height)
  {
    if tx.body.Reward? then
      Transited(w.(ledger := RewardPaid(w.ledger, tx, b.castor), rewarded := w.rewarded[tx.body.blockHash := tx.hash]),
                Success, 0)
    else ApplyPaid(env, b, w, tx)
  }

  function WithNonce(w: World, tx: Tx): World {
    if tx.body.Reward? then w else w.(nonces := w.nonces[tx.source := tx.nonce])
  }

  // ----- The loop over the transactions

  datatype Receipt = Receipt(txHash: Hash, status: Status, gas: nat, index: nat, height: nat)

  datatype Progress = Progress(
    w: World, executed: seq<Tx>, receipts: seq<Receipt>, evicted: seq<Hash>, gas: nat, fee: u64, stopped: bool)

  /** A proposer stops at its own gas limit and when its time is up, whenever that is. */
  datatype Mode = Verifying | Packing(limit: nat, timeUp: nat -> bool)

  predicate Cut(mode: Mode, p: Progress, i: nat) {
    mode.Packing? && (mode.timeUp(i) || p.gas >= mode.limit)
  }

  function Include(b: Block, p: Progress, tx: Tx, t: Transited, fee: nat): Progress {
    p.(w := WithNonce(t.w, tx),
       executed := p.executed + [tx],
       receipts := p.receipts + [Receipt(tx.hash, t.status, t.gas, |p.executed|, b.ctx.height)],
       gas := p.gas + t.gas,
       fee := Add64(p.fee, fee % TWO64))
  }

  /** What came of a transaction: it does not apply, or it made this transition and its gas cost this fee. */
  datatype Attempt = Invalid | Applied(t: Transited, fee: nat)

  function TryTx(env: Env, b: Block, w: World, tx: Tx): Attempt {
    if CanApply(env, w, tx, b.ctx.height) then
      var t := ApplyTx(env, b, w, tx);
      Applied(t, t.gas * tx.gasPrice)
    else Invalid
  }

  /** One turn of the loop, for the transaction at index `i`, of which `a` came. */
  function Turn(b: Block, mode: Mode, p: Progress, tx: Tx, i: nat, a: Attempt): Progress {
    if p.stopped then p
    else if Cut(mode, p, i) then p.(stopped := true)
    else if a.Invalid? then p.(evicted := p.evicted + [tx.hash])
    else if p.gas + a.t.gas > GAS_LIMIT_PER_BLOCK then p.(stopped := true)
    else Include(b, p, tx, a.t, a.fee)
  }

  function Start(w: World): Progress { Progress(w, [], [], [], 0, 0, false) }

  function Turns(env: Env, b: Block, mode: Mode, w: World, txs: seq<Tx>): Progress {
    if txs == [] then Start(w)
    else
      var n := |txs| - 1;
      var p := Turns(env, b, mode, w, txs[..n]);
      Turn(b, mode, p, txs[n], n, TryTx(env, b, p.w, txs[n]))
  }

  // ----- After the loop

  function Emit(s: State, a: Address, v: nat): State {
    if v == 0 then s else AddBalance(s, a, v)
  }

  function CastorTotal(height: nat, fee: u64): nat {
    (CastorFee(fee) + CastorRewards(height)) % TWO64
  }

  function Paid(b: Block, s: State, fee: u64): State {
    AddBalance(Emit(Emit(s, b.daemons, DaemonRewards(b.ctx.height)), b.users, UserRewards(b.ctx.height)),
               b.castor, CastorTotal(b.ctx.height, fee))
  }

  function Steps(ops: seq<Op>, ctx: Context): (steps: seq<Step>)
    ensures |steps| == |ops| && forall i :: 0 <= i < |ops| ==> steps[i] == Step(ops[i], ctx)
  {
    seq(|ops|, i requires 0 <= i < |ops| => Step(ops[i], ctx))
  }

  function CheckSteps(env: Env, b: Block, w: World): seq<Step> {
    Steps(env.checks(w) + [OpGuardCheck], b.ctx)
  }

  /** The world after the block rewards and the checks that follow every block. */
  function Settled(env: Env, b: Block, w: World, fee: u64): World {
    var w1 := w.(ledger := Paid(b, w.ledger, fee));
    w1.(ledger := Run(w1.ledger, CheckSteps(env, b, w1)), other := env.rest(w1))
  }

  datatype Processed = Processed(w: World, evicted: seq<Hash>, executed: seq<Tx>, receipts: seq<Receipt>, fee: u64)

  function Process(env: Env, b: Block, mode: Mode, w: World, txs: seq<Tx>): Processed {
    var p := Turns(env, b, mode, w, txs);
    Processed(Settled(env, b, p.w, p.fee), p.evicted, p.executed, p.receipts, p.fee)
  }

  /** What a block carries and commits to; roots are taken to be collision-free. */
  datatype Sealed = Sealed(txs: seq<Tx>, fee: u64, w: World, receipts: seq<Receipt>)

  function Cast(env: Env, b: Block, limit: nat, timeUp: nat -> bool, w: World, txs: seq<Tx>): Sealed {
    var r := Process(env, b, Packing(limit, timeUp), w, txs);
    Sealed(r.executed, r.fee, r.w, r.receipts)
  }

  /** The verifier's comparison of its own run with the header. */
  predicate Accepts(env: Env, b: Block, w: World, sealed: Sealed) {
    var r := Process(env, b, Verifying, w, sealed.txs);
    r.executed == sealed.txs && r.fee == sealed.fee && r.w == sealed.w && r.receipts == sealed.receipts
  }

  // ----- The proposer and the verifier agree

  function Clean(p: Progress): Progress { p.(evicted := [], stopped := false) }

  /** A turn leaves world and totals alone, or a verifier's turn on the same transaction includes it too. */
  lemma TurnAgrees(b: Block, mode: Mode, p: Progress, tx: Tx, i: nat, a: Attempt)
    ensures var q := Turn(b, mode, p, tx, i, a);
            || Clean(q) == Clean(p)
            || (q.executed == p.executed + [tx] && Clean(q) == Turn(b, Verifying, Clean(p), tx, |p.executed|, a))
  {
  }

  /** Re-running what a run included, in verify mode and from the same world, repeats it and evicts nothing. */
  lemma {:induction false} RerunAgrees(env: Env, b: Block, mode: Mode, w: World, txs: seq<Tx>)
    ensures Turns(env, b, Verifying, w, Turns(env, b, mode, w, txs).executed) == Clean(Turns(env, b, mode, w, txs))
    decreases |txs|
  {
    if txs != [] {
      var n := |txs| - 1;
      var p := Turns(env, b, mode, w, txs[..n]);
      RerunAgrees(env, b, mode, w, txs[..n]);
      TurnAgrees(b, mode, p, txs[n], n, TryTx(env, b, p.w, txs[n]));
      assert (p.executed + [txs[n]])[..|p.executed|] == p.executed;
    }
  }

  /** Whatever the pool offered and whenever time ran out, verifiers accept the block and evict nothing. */
  lemma CastIsAccepted(env: Env, b: Block, limit: nat, timeUp: nat -> bool, w: World, txs: seq<Tx>)
    ensures Accepts(env, b, w, Cast(env, b, limit, timeUp, w, txs))
    ensures Process(env, b, Verifying, w, Cast(env, b, limit, timeUp, w, txs).txs).evicted == []
  {
    RerunAgrees(env, b, Packing(limit, timeUp), w, txs);
  }
}
