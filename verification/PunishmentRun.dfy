/** A run from genesis that wraps the punishment record of a verifier: it is penalised and rewarded with its own
    penalty, leaves, and stakes again, over and over. */
module PunishmentRun {
  import opened Collections
  import opened MapSums
  import opened Ledger
  import opened LedgerStakes
  import opened LedgerGuards

  const VERIFIER: Address := 1
  const KEY: MinerKey := MinerKey(VERIFIER, Verify)
  const OWN: StakeKey := StakeKey(VERIFIER, VERIFIER, Verify)
  const KEYS: Keys := Keys(0, 0)
  const CYCLE: nat := ONE_HOUR_BLOCKS + 1

  function At(height: nat): Context { Context(height, 0, {}) }

  function StakeAgain(height: nat): Step { Step(OpStakeAdd(VERIFIER, VERIFIER, Verify, MIN_MINER_STAKE, KEYS), At(height)) }

  function Punish(height: nat): Step { Step(OpMinerPenalty([VERIFIER], [VERIFIER]), At(height)) }

  function Leave(height: nat): Step { Step(OpMinerAbort(VERIFIER, Verify), At(height)) }

  function Record(stake: u64, status: MinerStatus, height: nat): Miner {
    Miner(stake, status, height, Normal, 0, 0, KEYS)
  }

  function Holding(
      balance: nat, miners: map<MinerKey, Miner>, staked: map<StakeKey, Detail>, punished: map<Address, Detail>,
      pool: set<MinerKey>): State
  {
    State(map[VERIFIER := balance], miners, staked, map[], punished, pool, 0, map[], map[], map[], {}, false, false)
  }

  /** The verifier has its tokens and does not work. */
  function Resting(miners: map<MinerKey, Miner>, punished: map<Address, Detail>): State {
    Holding(MIN_MINER_STAKE, miners, map[], punished, {})
  }

  /** The verifier has staked its tokens and works. */
  function Working(punished: map<Address, Detail>, height: nat): State {
    Holding(0, map[KEY := Record(MIN_MINER_STAKE, Active, height)], map[OWN := Detail(MIN_MINER_STAKE, height, 0, 0)],
          punished, {KEY})
  }

  /** Nothing is recorded of the verifier, or that it left with no stake. */
  predicate Left(miners: map<MinerKey, Miner>) {
    miners == map[] || (KEY in miners && miners == map[KEY := Record(0, Prepare, miners[KEY].statusHeight)])
  }

  lemma LimitCovers(height: nat)
    ensures MIN_MINER_STAKE <= MaxStake(height)
  {
  }

  lemma MayStake(miners: map<MinerKey, Miner>, punished: map<Address, Detail>, height: nat)
    requires Left(miners)
    ensures StakeAddCheck(Resting(miners, punished), OWN, MIN_MINER_STAKE, KEYS, At(height)) == Accepted
  {
    LimitCovers(height);
  }

  lemma IsSaved(miners: map<MinerKey, Miner>, punished: map<Address, Detail>, height: nat, was: nat)
    requires Left(miners)
    ensures SaveStakedMiner(
              Holding(0, miners, map[], punished, {}), KEY, Record(MIN_MINER_STAKE, Prepare, was), MIN_MINER_STAKE, height)
            == Done(Holding(0, map[KEY := Record(MIN_MINER_STAKE, Active, height)], map[], punished, {KEY}))
  {
    assert miners[KEY := Record(MIN_MINER_STAKE, Active, height)] == map[KEY := Record(MIN_MINER_STAKE, Active, height)];
    assert {} + {KEY} == {KEY};
  }

  lemma IsDetailed(punished: map<Address, Detail>, height: nat)
    ensures RaiseDetail(
              Holding(0, map[KEY := Record(MIN_MINER_STAKE, Active, height)], map[], punished, {KEY}), OWN, MIN_MINER_STAKE, height)
            == Done(Working(punished, height))
  {
  }

  lemma Prepared(miners: map<MinerKey, Miner>, punished: map<Address, Detail>, height: nat)
    requires Left(miners) && (miners == map[] ==> height == 0)
    ensures var m := StakedMiner(Resting(miners, punished), KEY, VERIFIER, MIN_MINER_STAKE, KEYS, height);
            m == Record(MIN_MINER_STAKE, Prepare, m.statusHeight)
    ensures Debit(Resting(miners, punished), VERIFIER, MIN_MINER_STAKE) == Holding(0, miners, map[], punished, {})
  {
    assert map[VERIFIER := MIN_MINER_STAKE][VERIFIER := 0] == map[VERIFIER := 0];
  }

  lemma Stakes(miners: map<MinerKey, Miner>, punished: map<Address, Detail>, height: nat)
    requires Left(miners) && (miners == map[] ==> height == 0)
    ensures Execute(Resting(miners, punished), StakeAgain(height).op, At(height)) == Working(punished, height)
  {
    MayStake(miners, punished, height);
    Prepared(miners, punished, height);
    var m := StakedMiner(Resting(miners, punished), KEY, VERIFIER, MIN_MINER_STAKE, KEYS, height);
    IsSaved(miners, punished, height, m.statusHeight);
    IsDetailed(punished, height);
  }

  function Punished(punished: map<Address, Detail>, height: nat): map<Address, Detail> {
    punished[VERIFIER := PunishmentRecord(Working(punished, height), VERIFIER, MIN_MINER_STAKE, height)]
  }

  /** The record is the sum modulo 2^64. */
  lemma RecordIs(punished: map<Address, Detail>, height: nat)
    ensures var sum := DetailOf(punished) + MIN_MINER_STAKE;
            DetailOf(Punished(punished, height)) == if sum < TWO64 then sum else sum - TWO64
  {
  }

  lemma IsPenalized(punished: map<Address, Detail>, height: nat)
    ensures Penalize(Working(punished, height), VERIFIER, MIN_MINER_STAKE, height)
            == Done(Holding(0, map[KEY := Record(0, Frozen, height)], map[], Punished(punished, height), {}))
  {
    var s := Working(punished, height);
    assert Unpool(s, KEY) == Done(s.(pool := {}));
    assert s.miners[KEY := Record(0, Frozen, height)] == map[KEY := Record(0, Frozen, height)];
    var s1 := Holding(0, map[KEY := Record(0, Frozen, height)], s.staked, Punished(punished, height), {});
    assert s1.staked - {OWN} == map[];
    assert TakePenalty(s1, OWN, MIN_MINER_STAKE, height) == Done(s1.(staked := map[]));
  }

  /** One target that is the one rewardee gets the whole penalty. */
  lemma OneOfOne(s: State, height: nat, s1: State)
    requires Penalize(s, VERIFIER, MIN_MINER_STAKE, height) == Done(s1)
    ensures MinerPenalty(s, [VERIFIER], [VERIFIER], MIN_MINER_STAKE, At(height))
            == Done(AddBalance(s1, VERIFIER, MIN_MINER_STAKE))
  {
    assert [VERIFIER][..0] == [];
    assert PenalizeAll(s, [VERIFIER], MIN_MINER_STAKE, height) == Done(s1);
    assert RewardAll(s1, [VERIFIER], MIN_MINER_STAKE) == AddBalance(s1, VERIFIER, MIN_MINER_STAKE);
  }

  lemma IsPunished(punished: map<Address, Detail>, height: nat)
    ensures Transition(Working(punished, height), Punish(height).op, At(height))
            == Done(Resting(map[KEY := Record(0, Frozen, height)], Punished(punished, height)))
  {
    IsPenalized(punished, height);
    OneOfOne(Working(punished, height), height,
             Holding(0, map[KEY := Record(0, Frozen, height)], map[], Punished(punished, height), {}));
    assert map[VERIFIER := 0][VERIFIER := MIN_MINER_STAKE] == map[VERIFIER := MIN_MINER_STAKE];
  }

  lemma Leaves(punished: map<Address, Detail>, height: nat)
    ensures Execute(Resting(map[KEY := Record(0, Frozen, height)], punished), Leave(height + CYCLE).op, At(height + CYCLE))
            == Resting(map[KEY := Record(0, Prepare, height + CYCLE)], punished)
  {
    var s := Resting(map[KEY := Record(0, Frozen, height)], punished);
    assert s.miners[KEY := Record(0, Prepare, height + CYCLE)] == map[KEY := Record(0, Prepare, height + CYCLE)];
  }

  lemma RunOne(s: State, steps: seq<Step>, step: Step)
    ensures Run(s, steps + [step]) == Execute(Run(s, steps), step.op, step.ctx)
  {
    assert (steps + [step])[..|steps|] == steps;
  }

  lemma RisingOne(steps: seq<Step>, step: Step)
    requires Rising(0, steps) && TopHeight(0, steps) <= step.ctx.height
    ensures Rising(0, steps + [step]) && TopHeight(0, steps + [step]) == step.ctx.height
  {
  }

  function Genesis(): State { EmptyLedger(map[VERIFIER := MIN_MINER_STAKE]) }

  /** After `n` penalties the record is `n` times the penalty and the verifier has its tokens again. */
  ghost predicate Driven(steps: seq<Step>, n: nat, miners: map<MinerKey, Miner>, punished: map<Address, Detail>) {
    && Rising(0, steps) && Left(miners) && Run(Genesis(), steps) == Resting(miners, punished)
    && (miners == map[] ==> TopHeight(0, steps) == 0)
    && DetailOf(punished) == n * MIN_MINER_STAKE
  }

  function DetailOf(punished: map<Address, Detail>): nat {
    if VERIFIER in punished then punished[VERIFIER].value else 0
  }

  function WithCycle(steps: seq<Step>, h: nat): seq<Step> {
    steps + [StakeAgain(h)] + [Punish(h)] + [Leave(h + CYCLE)]
  }

  lemma CycleRuns(steps: seq<Step>, miners: map<MinerKey, Miner>, punished: map<Address, Detail>, h: nat)
    requires Left(miners) && Run(Genesis(), steps) == Resting(miners, punished) && (miners == map[] ==> h == 0)
    ensures Run(Genesis(), WithCycle(steps, h)) == Resting(map[KEY := Record(0, Prepare, h + CYCLE)], Punished(punished, h))
  {
    var s1 := steps + [StakeAgain(h)];
    RunOne(Genesis(), steps, StakeAgain(h));
    Stakes(miners, punished, h);
    RunOne(Genesis(), s1, Punish(h));
    IsPunished(punished, h);
    RunOne(Genesis(), s1 + [Punish(h)], Leave(h + CYCLE));
    Leaves(Punished(punished, h), h);
  }

  lemma CycleRises(steps: seq<Step>, h: nat)
    requires Rising(0, steps) && TopHeight(0, steps) == h
    ensures Rising(0, WithCycle(steps, h))
  {
    RisingOne(steps, StakeAgain(h));
    RisingOne(steps + [StakeAgain(h)], Punish(h));
    RisingOne(steps + [StakeAgain(h)] + [Punish(h)], Leave(h + CYCLE));
  }

  lemma Cycle(steps: seq<Step>, n: nat, miners: map<MinerKey, Miner>, punished: map<Address, Detail>)
    returns (steps': seq<Step>, miners': map<MinerKey, Miner>, punished': map<Address, Detail>)
    requires Driven(steps, n, miners, punished) && (n + 1) * MIN_MINER_STAKE < TWO64
    ensures Driven(steps', n + 1, miners', punished')
  {
    var h := TopHeight(0, steps);
    CycleRuns(steps, miners, punished, h);
    CycleRises(steps, h);
    RecordIs(punished, h);
    return WithCycle(steps, h), map[KEY := Record(0, Prepare, h + CYCLE)], Punished(punished, h);
  }

  lemma Undriven()
    ensures Driven([], 0, map[], map[])
  {
  }

  lemma {:induction false} Drive(n: nat)
    returns (steps: seq<Step>, miners: map<MinerKey, Miner>, punished: map<Address, Detail>)
    requires n * MIN_MINER_STAKE < TWO64
    ensures Driven(steps, n, miners, punished)
  {
    if n == 0 {
      Undriven();
      return [], map[], map[];
    }
    steps, miners, punished := Drive(n - 1);
    steps, miners, punished := Cycle(steps, n - 1, miners, punished);
  }

  /** The punishment record is the one sum that nothing bounds: a run from genesis leads to a ledger on which the next
      penalty, which conserves all tokens, makes it smaller. */
  lemma PunishmentWraps() returns (steps: seq<Step>, ctx: Context)
    ensures Rising(0, steps) && TopHeight(0, steps) <= ctx.height
    ensures var s := Run(EmptyLedger(map[VERIFIER := MIN_MINER_STAKE]), steps);
            var o := Transition(s, OpMinerPenalty([VERIFIER], [VERIFIER]), ctx);
            && o.Done? && VERIFIER in s.punished && VERIFIER in o.st.punished
            && o.st.punished[VERIFIER].value < s.punished[VERIFIER].value
  {
    var n := (TWO64 - 1) / MIN_MINER_STAKE;
    MostFit(n);
    var before, miners, punished := Drive(n);
    var h := TopHeight(0, before);
    steps, ctx := before + [StakeAgain(h)], At(h);
    RunOne(Genesis(), before, StakeAgain(h));
    RisingOne(before, StakeAgain(h));
    Stakes(miners, punished, h);
    IsPunished(punished, h);
    RecordIs(punished, h);
  }

  lemma MostFit(n: nat)
    requires n == (TWO64 - 1) / MIN_MINER_STAKE
    ensures 0 < n * MIN_MINER_STAKE < TWO64 <= n * MIN_MINER_STAKE + MIN_MINER_STAKE
  {
  }
}
