/** Block execution as the program runs it: transactions applied one by one to a mutable database. */
module BlockProcessor {

  import opened Ledger
  import opened Rewards
  import opened Execution
  import Ops = MinerOperations

  class Database {
    const ledger: Ops.AccountDB
    var nonces: map<Address, u64>
    var rewarded: map<Hash, Hash>
    var other: nat

    constructor (w: World)
      ensures fresh(ledger) && Value() == w
    {
      ledger := new Ops.AccountDB(w.ledger);
      nonces := w.nonces;
      rewarded := w.rewarded;
      other := w.other;
    }

    ghost function Value(): World
      reads this, ledger
    {
      World(ledger.data, nonces, rewarded, other)
    }

    method Snapshot() returns (w: World)
      ensures w == Value()
    {
      w := World(ledger.data, nonces, rewarded, other);
    }

    method Revert(w: World)
      modifies this, ledger
      ensures Value() == w
    {
      ledger.data := w.ledger;
      nonces := w.nonces;
      rewarded := w.rewarded;
      other := w.other;
    }
  }

  /** Runs a ledger operation with its own snapshot. A panic ends the program; the model leaves the
      database as it was, and no transaction reaches a panic on a ledger that satisfies its invariant. */
  method RunOperation(ledger: Ops.AccountDB, op: Op, ctx: Context) returns (status: Status)
    modifies ledger
    ensures ledger.data == Execute(old(ledger.data), op, ctx)
    ensures status == StatusOf(Transition(old(ledger.data), op, ctx))
  {
    var before := ledger.data;
    var e := Ops.RunTransition(ledger, op, ctx);
    match e
    case Success => return Success;
    case Failure(rs) => ledger.data := before; return Failed(rs);
    case Crash => ledger.data := before; return Failed(RSFail);
  }

  method TransferOp(ledger: Ops.AccountDB, source: Address, target: Address, value: nat) returns (status: Status)
    modifies ledger
    ensures value == 0 ==> ledger.data == old(ledger.data) && status == Success
    ensures Balance(old(ledger.data), source) < value ==>
              ledger.data == old(ledger.data) && status == Failed(RSBalanceNotEnough)
    ensures 0 < value <= Balance(old(ledger.data), source) ==>
              ledger.data == Transferred(old(ledger.data), source, target, value) && status == Success
  {
    if value == 0 { return Success; }
    if Balance(ledger.data, source) < value { return Failed(RSBalanceNotEnough); }
    ledger.data := SubBalance(ledger.data, source, value);
    ledger.AddToBalance(target, value);
    return Success;
  }

  /** Parses and runs the operation of a transaction; what it changed is reverted when it fails. */
  method RunBody(db: Database, env: Env, b: Block, tx: Tx) returns (status: Status, gas: nat)
    requires !tx.body.Reward?
    modifies db, db.ledger
    ensures Transited(db.Value(), status, gas) == TransitionOf(env, b, old(db.Value()), tx)
  {
    if tx.body.Unsupported? { return ParseFail, 0; }
    gas := IntrinsicGas(tx);
    if FailsToParse(tx) { return ParseFail, gas; }
    if tx.body.Transfer? {
      status := TransferOp(db.ledger, tx.source, tx.body.target, tx.value);
    } else if tx.body.Foreign? {
      var w := db.Snapshot();
      var r := env.foreign(w, tx);
      db.Revert(r.w);
      if !r.ok { db.Revert(w); }
      status := if r.ok then Success else Failed(RSFail);
      if tx.body.contract { gas := ContractGas(tx, r.left); }
    } else {
      status := RunOperation(db.ledger, OpOf(tx), b.ctx);
    }
  }

  /** Pays the verifiers one by one, then the castor, and marks the block as rewarded. */
  method RunReward(db: Database, b: Block, tx: Tx)
    requires tx.body.Reward?
    modifies db, db.ledger
    ensures db.Value() == old(db.Value()).(
              ledger := RewardPaid(old(db.ledger.data), tx, b.castor),
              rewarded := old(db.rewarded)[tx.body.blockHash := tx.hash])
  {
    ghost var s := db.ledger.data;
    var targets := tx.body.targets;
    var i := 0;
    while i < |targets|
      invariant 0 <= i <= |targets|
      invariant db.ledger.data == RewardAll(s, targets[..i], tx.value)
      invariant db.nonces == old(db.nonces) && db.rewarded == old(db.rewarded) && db.other == old(db.other)
    {
      assert targets[..i + 1][..i] == targets[..i];
      db.ledger.AddToBalance(targets[i], tx.value);
      i := i + 1;
    }
    assert targets[..i] == targets;
    db.ledger.AddToBalance(b.castor, tx.body.packFee);
    db.rewarded := db.rewarded[tx.body.blockHash := tx.hash];
  }

  datatype Verdict = Evict | Keep(status: Status, gas: nat)

  method RunPaid(db: Database, env: Env, b: Block, tx: Tx) returns (status: Status, gas: nat)
    requires !tx.body.Reward? && GasCap(tx) <= Balance(db.ledger.data, tx.source)
    modifies db, db.ledger
    ensures Transited(db.Value(), status, gas) == ApplyPaid(env, b, old(db.Value()), tx)
  {
    db.ledger.data := SubBalance(db.ledger.data, tx.source, GasCap(tx));
    status, gas := RunBody(db, env, b, tx);
    var left := GasLeft(tx, gas);
    if left > 0 { db.ledger.AddToBalance(tx.source, left * tx.gasPrice); }
  }

  /** Applies one transaction: an invalid one is evicted and leaves no trace, any other one pays for its gas. */
  method ApplyStateTransition(db: Database, env: Env, b: Block, tx: Tx) returns (v: Verdict)
    modifies db, db.ledger
    ensures v.Evict? <==> !CanApply(env, old(db.Value()), tx, b.ctx.height)
    ensures v.Evict? ==> db.Value() == old(db.Value())
    ensures v.Keep? ==> Transited(db.Value(), v.status, v.gas) == ApplyTx(env, b, old(db.Value()), tx)
  {
    var w := db.Snapshot();
    if !CanApply(env, w, tx, b.ctx.height) { return Evict; }
    if tx.body.Reward? {
      RunReward(db, b, tx);
      return Keep(Success, 0);
    }
    var status, gas := RunPaid(db, env, b, tx);
    return Keep(status, gas);
  }

  // ----- The block

  method PayRewards(db: Database, b: Block, fee: u64)
    modifies db.ledger
    ensures db.ledger.data == Paid(b, old(db.ledger.data), fee)
  {
    var height := b.ctx.height;
    var total := CastorFee(fee);
    total := (total + CastorRewards(height)) % TWO64;
    if DaemonRewards(height) != 0 { db.ledger.AddToBalance(b.daemons, DaemonRewards(height)); }
    if UserRewards(height) != 0 { db.ledger.AddToBalance(b.users, UserRewards(height)); }
    db.ledger.AddToBalance(b.castor, total);
  }

  method RunChecks(ledger: Ops.AccountDB, steps: seq<Step>)
    modifies ledger
    ensures ledger.data == Run(old(ledger.data), steps)
  {
    var i := 0;
    while i < |steps|
      invariant 0 <= i <= |steps|
      invariant ledger.data == Run(old(ledger.data), steps[..i])
    {
      assert steps[..i + 1][..i] == steps[..i];
      var _ := RunOperation(ledger, steps[i].op, steps[i].ctx);
      i := i + 1;
    }
    assert steps[..i] == steps;
  }

  lemma {:induction false} StopStays(env: Env, b: Block, mode: Mode, w: World, txs: seq<Tx>, n: nat)
    requires n <= |txs|
    ensures Turns(env, b, mode, w, txs[..n]).stopped ==> Turns(env, b, mode, w, txs) == Turns(env, b, mode, w, txs[..n])
    decreases |txs|
  {
    if n < |txs| {
      StopStays(env, b, mode, w, txs[..|txs| - 1], n);
      assert txs[..|txs| - 1][..n] == txs[..n];
    } else {
      assert txs[..n] == txs;
    }
  }

  /** The loop over the offered transactions. */
  method ExecuteAll(db: Database, env: Env, b: Block, mode: Mode, txs: seq<Tx>)
    returns (evicted: seq<Hash>, executed: seq<Tx>, receipts: seq<Receipt>, fee: u64)
    modifies db, db.ledger
    ensures var p := Turns(env, b, mode, old(db.Value()), txs);
            && db.Value() == p.w && evicted == p.evicted && executed == p.executed && receipts == p.receipts && fee == p.fee
  {
    ghost var w := db.Value();
    ghost var p := Start(w);
    evicted, executed, receipts, fee := [], [], [], 0;
    var total: nat := 0;
    var i := 0;
    while i < |txs|
      invariant 0 <= i <= |txs|
      invariant p == Turns(env, b, mode, w, txs[..i])
      invariant p == Progress(db.Value(), executed, receipts, evicted, total, fee, false)
    {
      p := Turns(env, b, mode, w, txs[..i + 1]);
      assert txs[..i + 1][..i] == txs[..i];
      StopStays(env, b, mode, w, txs, i + 1);
      if mode.Packing? && mode.timeUp(i) { return; }
      if mode.Packing? && total >= mode.limit { return; }
      var snapshot := db.Snapshot();
      var v := ApplyStateTransition(db, env, b, txs[i]);
      if v.Evict? {
        evicted := evicted + [txs[i].hash];
      } else {
        if total + v.gas > GAS_LIMIT_PER_BLOCK {
          db.Revert(snapshot);
          return;
        }
        total := total + v.gas;
        fee := Add64(fee, v.gas * txs[i].gasPrice % TWO64);
        if !txs[i].body.Reward? { db.nonces := db.nonces[txs[i].source := txs[i].nonce]; }
        receipts := receipts + [Receipt(txs[i].hash, v.status, v.gas, |executed|, b.ctx.height)];
        executed := executed + [txs[i]];
      }
      i := i + 1;
    }
    assert txs[..i] == txs;
  }

  /** Executes a block: the loop, the rewards, then the checks that follow every block. */
  method ProcessBlock(db: Database, env: Env, b: Block, mode: Mode, txs: seq<Tx>)
    returns (evicted: seq<Hash>, executed: seq<Tx>, receipts: seq<Receipt>, fee: u64)
    modifies db, db.ledger
    ensures Processed(db.Value(), evicted, executed, receipts, fee) == Process(env, b, mode, old(db.Value()), txs)
  {
    evicted, executed, receipts, fee := ExecuteAll(db, env, b, mode, txs);
    PayRewards(db, b, fee);
    var w := db.Snapshot();
    RunChecks(db.ledger, CheckSteps(env, b, w));
    db.other := env.rest(w);
  }
}
