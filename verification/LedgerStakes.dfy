/** The redundant copies of stake agree in every ledger that the operations can reach, and tokens are conserved. */
module LedgerStakes {
  import opened Collections
  import opened MapSums
  import opened Ledger

  // ----- What is counted

  ghost function Values(details: map<StakeKey, Detail>): map<StakeKey, nat> {
    map dk | dk in details :: details[dk].value
  }

  function KeyOf(dk: StakeKey): MinerKey { MinerKey(dk.target, dk.role) }

  /** The staked details that belong to one miner, by source. */
  ghost function StakesFor(staked: map<StakeKey, Detail>, k: MinerKey): map<StakeKey, nat> {
    map dk | dk in staked && KeyOf(dk) == k :: staked[dk].value
  }

  ghost function ActiveStakes(miners: map<MinerKey, Miner>): map<MinerKey, nat> {
    map k | k in miners && k.role.Proposal? && miners[k].status.Active? :: miners[k].stake
  }

  /** All tokens: free, staked and waiting for a refund. */
  ghost function Supply(s: State): nat {
    Total(s.balances) + Total(Values(s.staked)) + Total(Values(s.frozen))
  }

  // ----- The invariant

  ghost predicate StakesExact(miners: map<MinerKey, Miner>, staked: map<StakeKey, Detail>) {
    && (forall k {:trigger StakesFor(staked, k)} :: k in miners ==> miners[k].stake == Total(StakesFor(staked, k)))
    && (forall dk {:trigger KeyOf(dk)} :: dk in staked ==> KeyOf(dk) in miners)
  }

  ghost predicate VerifySelfStaked(staked: map<StakeKey, Detail>) {
    forall dk :: dk in staked && dk.role.Verify? ==> dk.source == dk.target
  }

  ghost predicate PoolExact(miners: map<MinerKey, Miner>, pool: set<MinerKey>) {
    forall k {:trigger k in pool} :: k in pool <==> k in miners && miners[k].status.Active?
  }

  /** The copies of stake agree: totals and details, the pool and its members, the proposal total. */
  ghost predicate Books(
    miners: map<MinerKey, Miner>, staked: map<StakeKey, Detail>, pool: set<MinerKey>, proposalTotal: nat)
  {
    && StakesExact(miners, staked)
    && VerifySelfStaked(staked)
    && PoolExact(miners, pool)
    && proposalTotal == Total(ActiveStakes(miners))
  }

  ghost predicate StakeInv(s: State) {
    match s
    case State(_, miners, staked, _, _, pool, proposalTotal, _, _, _, _, _, _) =>
      Books(miners, staked, pool, proposalTotal) && Supply(s) < TWO64
  }

  /** An operation that keeps the invariant and the supply, or is refused without a panic. */
  ghost predicate Conserves(o: Outcome, s: State) {
    match o
    case Done(s') => StakeInv(s') && Supply(s') == Supply(s)
    case Rejected(_) => true
    case Panic => false
  }

  // ----- How the counted maps change

  lemma ValuesPut(details: map<StakeKey, Detail>, dk: StakeKey, d: Detail)
    ensures Total(Values(details[dk := d])) + (if dk in details then details[dk].value else 0)
            == Total(Values(details)) + d.value
  {
    TotalPut(Values(details), dk, d.value);
    assert Values(details[dk := d]) == Values(details)[dk := d.value];
  }

  lemma ValuesRemove(details: map<StakeKey, Detail>, dk: StakeKey)
    requires dk in details
    ensures Total(Values(details - {dk})) + details[dk].value == Total(Values(details))
  {
    TotalRemove(Values(details), dk);
    assert Values(details - {dk}) == Values(details) - {dk};
  }

  lemma BalancesPut(s: State, a: Address, v: nat)
    ensures Total(s.balances[a := v]) + Balance(s, a) == Total(s.balances) + v
  {
    TotalPut(s.balances, a, v);
  }

  lemma StakesForPut(staked: map<StakeKey, Detail>, dk: StakeKey, d: Detail, k: MinerKey)
    ensures KeyOf(dk) == k ==>
              Total(StakesFor(staked[dk := d], k)) + (if dk in staked then staked[dk].value else 0)
              == Total(StakesFor(staked, k)) + d.value
    ensures KeyOf(dk) != k ==> StakesFor(staked[dk := d], k) == StakesFor(staked, k)
  {
    if KeyOf(dk) == k {
      TotalPut(StakesFor(staked, k), dk, d.value);
      assert StakesFor(staked[dk := d], k) == StakesFor(staked, k)[dk := d.value];
    }
  }

  lemma StakesForRemove(staked: map<StakeKey, Detail>, dk: StakeKey, k: MinerKey)
    requires dk in staked
    ensures KeyOf(dk) == k ==>
              Total(StakesFor(staked - {dk}, k)) + staked[dk].value == Total(StakesFor(staked, k))
    ensures KeyOf(dk) != k ==> StakesFor(staked - {dk}, k) == StakesFor(staked, k)
  {
    if KeyOf(dk) == k {
      TotalRemove(StakesFor(staked, k), dk);
      assert StakesFor(staked - {dk}, k) == StakesFor(staked, k) - {dk};
    } else {
      assert StakesFor(staked - {dk}, k) == StakesFor(staked, k);
    }
  }

  ghost function Counted(miners: map<MinerKey, Miner>, k: MinerKey): nat {
    if k in miners && k.role.Proposal? && miners[k].status.Active? then miners[k].stake else 0
  }

  lemma ActiveStakesPut(miners: map<MinerKey, Miner>, k: MinerKey, m: Miner)
    ensures Total(ActiveStakes(miners[k := m])) + Counted(miners, k)
            == Total(ActiveStakes(miners)) + Counted(miners[k := m], k)
  {
    var was, now := ActiveStakes(miners), ActiveStakes(miners[k := m]);
    assert now - {k} == was - {k};
    if k in was { TotalRemove(was, k); } else { assert was - {k} == was; }
    if k in now { TotalRemove(now, k); } else { assert now - {k} == now; }
  }

  ghost function StakeMap(miners: map<MinerKey, Miner>, ks: set<MinerKey>): map<MinerKey, nat>
    requires ks <= miners.Keys
  {
    map k | k in ks :: miners[k].stake
  }

  ghost function DetailMap(staked: map<StakeKey, Detail>, ks: set<MinerKey>): map<StakeKey, nat> {
    map dk | dk in staked && KeyOf(dk) in ks :: staked[dk].value
  }

  lemma DetailMapSplit(staked: map<StakeKey, Detail>, ks: set<MinerKey>, k: MinerKey)
    requires k in ks
    ensures Total(DetailMap(staked, ks)) == Total(DetailMap(staked, ks - {k})) + Total(StakesFor(staked, k))
  {
    assert DetailMap(staked, ks) == DetailMap(staked, ks - {k}) + StakesFor(staked, k);
    TotalUnion(DetailMap(staked, ks - {k}), StakesFor(staked, k));
  }

  lemma StakeMapSplit(miners: map<MinerKey, Miner>, ks: set<MinerKey>, k: MinerKey)
    requires k in ks && ks <= miners.Keys
    ensures Total(StakeMap(miners, ks)) == Total(StakeMap(miners, ks - {k})) + miners[k].stake
  {
    TotalRemove(StakeMap(miners, ks), k);
    assert StakeMap(miners, ks) - {k} == StakeMap(miners, ks - {k});
  }

  /** Summing miners' stakes is summing their details. */
  lemma {:induction false} StakesOfMiners(
      miners: map<MinerKey, Miner>, staked: map<StakeKey, Detail>, ks: set<MinerKey>)
    requires StakesExact(miners, staked) && ks <= miners.Keys
    ensures Total(StakeMap(miners, ks)) == Total(DetailMap(staked, ks))
    decreases ks
  {
    if ks == {} {
      assert StakeMap(miners, ks) == map[] && DetailMap(staked, ks) == map[];
    } else {
      var k :| k in ks;
      StakesOfMiners(miners, staked, ks - {k});
      StakeMapSplit(miners, ks, k);
      DetailMapSplit(staked, ks, k);
    }
  }

  lemma ActiveAtMostStaked(miners: map<MinerKey, Miner>, staked: map<StakeKey, Detail>)
    requires StakesExact(miners, staked)
    ensures Total(ActiveStakes(miners)) <= Total(Values(staked))
  {
    var ks := ActiveStakes(miners).Keys;
    StakesOfMiners(miners, staked, ks);
    assert ActiveStakes(miners) == StakeMap(miners, ks);
    TotalSubmap(DetailMap(staked, ks), Values(staked));
  }

  lemma StakeAtMostStaked(staked: map<StakeKey, Detail>, k: MinerKey)
    ensures Total(StakesFor(staked, k)) <= Total(Values(staked))
  {
    TotalSubmap(StakesFor(staked, k), Values(staked));
  }

  // ----- The books after a change to one miner and one of its details

  ghost function PoolWith(pool: set<MinerKey>, k: MinerKey, m: Miner): set<MinerKey> {
    if m.status.Active? then pool + {k} else pool - {k}
  }

  lemma StakesExactPut(
      miners: map<MinerKey, Miner>, staked: map<StakeKey, Detail>, k: MinerKey, m: Miner, staked': map<StakeKey, Detail>)
    requires StakesExact(miners, staked)
    requires m.stake == Total(StakesFor(staked', k))
    requires forall dk :: dk in staked' ==> dk in staked || KeyOf(dk) == k
    requires forall j :: j in miners && j != k ==> StakesFor(staked', j) == StakesFor(staked, j)
    ensures StakesExact(miners[k := m], staked')
  {
  }

  lemma PoolExactPut(miners: map<MinerKey, Miner>, pool: set<MinerKey>, k: MinerKey, m: Miner)
    requires PoolExact(miners, pool)
    ensures PoolExact(miners[k := m], PoolWith(pool, k, m))
  {
  }

  /** Whatever happens to one miner and its details, the books stay right if that miner's own sum does. */
  lemma BooksPut(
      miners: map<MinerKey, Miner>, staked: map<StakeKey, Detail>, pool: set<MinerKey>, proposalTotal: nat,
      k: MinerKey, m: Miner, staked': map<StakeKey, Detail>)
    requires Books(miners, staked, pool, proposalTotal)
    requires m.stake == Total(StakesFor(staked', k)) && VerifySelfStaked(staked')
    requires forall dk :: dk in staked' ==> dk in staked || KeyOf(dk) == k
    requires forall j :: j in miners && j != k ==> StakesFor(staked', j) == StakesFor(staked, j)
    ensures Counted(miners, k) <= proposalTotal
    ensures Books(miners[k := m], staked', PoolWith(pool, k, m),
                  proposalTotal - Counted(miners, k) + Counted(miners[k := m], k))
  {
    StakesExactPut(miners, staked, k, m, staked');
    PoolExactPut(miners, pool, k, m);
    ActiveStakesPut(miners, k, m);
    if Counted(miners, k) > 0 { ValueAtMostTotal(ActiveStakes(miners), k); }
  }

  lemma BooksSame(
      miners: map<MinerKey, Miner>, staked: map<StakeKey, Detail>, pool: set<MinerKey>, proposalTotal: nat,
      k: MinerKey, m: Miner)
    requires Books(miners, staked, pool, proposalTotal)
    requires m.stake == if k in miners then miners[k].stake else 0
    ensures Counted(miners, k) <= proposalTotal
    ensures Books(miners[k := m], staked, PoolWith(pool, k, m),
                  proposalTotal - Counted(miners, k) + Counted(miners[k := m], k))
  {
    if k !in miners { assert StakesFor(staked, k) == map[]; }
    BooksPut(miners, staked, pool, proposalTotal, k, m, staked);
  }

  /** The same amount goes into a miner and into one of its details. */
  lemma BooksRaise(
      miners: map<MinerKey, Miner>, staked: map<StakeKey, Detail>, pool: set<MinerKey>, proposalTotal: nat,
      dk: StakeKey, m: Miner, d: Detail, v: nat)
    requires Books(miners, staked, pool, proposalTotal)
    requires m.stake == (if KeyOf(dk) in miners then miners[KeyOf(dk)].stake else 0) + v
    requires d.value == (if dk in staked then staked[dk].value else 0) + v
    requires dk.role.Verify? ==> dk.source == dk.target
    ensures Counted(miners, KeyOf(dk)) <= proposalTotal
    ensures Books(miners[KeyOf(dk) := m], staked[dk := d], PoolWith(pool, KeyOf(dk), m),
                  proposalTotal - Counted(miners, KeyOf(dk)) + Counted(miners[KeyOf(dk) := m], KeyOf(dk)))
  {
    var k := KeyOf(dk);
    if k !in miners { assert StakesFor(staked, k) == map[]; }
    StakesForPut(staked, dk, d, k);
    forall j | j in miners && j != k ensures StakesFor(staked[dk := d], j) == StakesFor(staked, j) {
      StakesForPut(staked, dk, d, j);
    }
    BooksPut(miners, staked, pool, proposalTotal, k, m, staked[dk := d]);
  }

  /** The same amount comes out of a miner and out of one of its details. */
  lemma BooksLower(
      miners: map<MinerKey, Miner>, staked: map<StakeKey, Detail>, pool: set<MinerKey>, proposalTotal: nat,
      dk: StakeKey, m: Miner, v: u64, height: nat)
    requires Books(miners, staked, pool, proposalTotal)
    requires dk in staked && v <= staked[dk].value && m.stake + v == miners[KeyOf(dk)].stake
    ensures Counted(miners, KeyOf(dk)) <= proposalTotal
    ensures Books(miners[KeyOf(dk) := m], Reduced(staked, dk, v, height), PoolWith(pool, KeyOf(dk), m),
                  proposalTotal - Counted(miners, KeyOf(dk)) + Counted(miners[KeyOf(dk) := m], KeyOf(dk)))
  {
    var k := KeyOf(dk);
    var d := staked[dk].(value := staked[dk].value - v, height := height);
    var staked' := Reduced(staked, dk, v, height);
    StakesForRemove(staked, dk, k);
    StakesForPut(staked, dk, d, k);
    forall j | j in miners && j != k ensures StakesFor(staked', j) == StakesFor(staked, j) {
      StakesForRemove(staked, dk, j);
      StakesForPut(staked, dk, d, j);
    }
    BooksPut(miners, staked, pool, proposalTotal, k, m, staked');
  }

  // ----- Saving a miner

  /** The proposal total once `m` replaces the record of `k`. */
  ghost function AdjustedTotal(s: State, k: MinerKey, m: Miner): int {
    s.proposalTotal - Counted(s.miners, k) + Counted(s.miners[k := m], k)
  }

  /** The ledger with pool and proposal total brought in line with `m`, which is yet to be saved. */
  ghost function Repooled(s: State, k: MinerKey, m: Miner): State
    requires 0 <= AdjustedTotal(s, k, m) < TWO64
  {
    s.(pool := PoolWith(s.pool, k, m), proposalTotal := AdjustedTotal(s, k, m))
  }

  /** `k` is in the pool exactly when its record says so. */
  predicate Pooled(s: State, k: MinerKey) {
    k in s.pool <==> k in s.miners && s.miners[k].status.Active?
  }

  lemma RepooledSame(s: State, k: MinerKey, m: Miner)
    requires Pooled(s, k)
    requires if k in s.pool then m.stake == s.miners[k].stake && m.status.Active? else !m.status.Active?
    ensures AdjustedTotal(s, k, m) == s.proposalTotal && Repooled(s, k, m) == s
  {
    assert PoolWith(s.pool, k, m) == s.pool;
  }

  /** An active miner leaves the pool, whatever its new stake. */
  lemma RepooledOut(s: State, k: MinerKey, m: Miner)
    requires k in s.miners && s.miners[k].status.Active? && Counted(s.miners, k) <= s.proposalTotal
    requires !m.status.Active?
    ensures 0 <= AdjustedTotal(s, k, m) < TWO64
    ensures RemoveFromPool(s, k, s.miners[k].stake) == Done(Repooled(s, k, m))
  {
  }

  ghost function Activated(m: Miner, height: nat): Miner {
    if m.status.Active? || !(m.keys.Keys? && m.stake >= MIN_MINER_STAKE) then m else WithStatus(m, Active, height)
  }

  lemma RepooledRaise(s: State, k: MinerKey, m: Miner, value: u64)
    requires Pooled(s, k) && Counted(s.miners, k) <= s.proposalTotal
    requires k in s.miners && m.stake == s.miners[k].stake + value && m.status == s.miners[k].status
    requires m.status.Active? && AdjustedTotal(s, k, m) < TWO64
    ensures (if k.role.Proposal? then AddProposalTotal(s, value) else Done(s)) == Done(Repooled(s, k, m))
  {
    assert PoolWith(s.pool, k, m) == s.pool;
  }

  lemma RepooledIn(s: State, k: MinerKey, m: Miner)
    requires Pooled(s, k) && (k in s.miners ==> !s.miners[k].status.Active?)
    requires m.status.Active? && AdjustedTotal(s, k, m) < TWO64
    ensures AddToPool(s, k, m.stake) == Done(Repooled(s, k, m))
  {
  }

  lemma SavedStaked(s: State, k: MinerKey, m: Miner, value: u64, height: nat)
    requires Pooled(s, k) && Counted(s.miners, k) <= s.proposalTotal
    requires if k in s.miners then m.stake == s.miners[k].stake + value && m.status == s.miners[k].status
             else !m.status.Active?
    requires AdjustedTotal(s, k, Activated(m, height)) < TWO64
    ensures var m' := Activated(m, height);
            SaveStakedMiner(s, k, m, value, height) == Done(SetMiner(Repooled(s, k, m'), k, m'))
  {
    if m.status.Active? {
      RepooledRaise(s, k, m, value);
    } else if m.keys.Keys? && m.stake >= MIN_MINER_STAKE {
      RepooledIn(s, k, WithStatus(m, Active, height));
    } else {
      RepooledSame(s, k, m);
    }
  }

  ghost function Deactivated(k: MinerKey, m: Miner, height: nat): Miner {
    if m.status.Active? && k.role.Proposal? && m.stake < MIN_MINER_STAKE then WithStatus(m, Prepare, height) else m
  }

  lemma RepooledLower(s: State, k: MinerKey, m: Miner, value: u64)
    requires Pooled(s, k) && Counted(s.miners, k) <= s.proposalTotal
    requires k in s.miners && m.stake + value == s.miners[k].stake && m.status == s.miners[k].status
    ensures 0 <= AdjustedTotal(s, k, m) < TWO64
    ensures (if m.status.Active? && k.role.Proposal? then SubProposalTotal(s, value) else Done(s)) == Done(Repooled(s, k, m))
  {
    assert PoolWith(s.pool, k, m) == s.pool;
  }

  lemma SavedReduced(s: State, k: MinerKey, m: Miner, value: u64, height: nat)
    requires Pooled(s, k) && Counted(s.miners, k) <= s.proposalTotal
    requires k in s.miners && m.stake + value == s.miners[k].stake && m.status == s.miners[k].status
    ensures 0 <= AdjustedTotal(s, k, Deactivated(k, m, height)) < TWO64
    ensures var m' := Deactivated(k, m, height);
            SaveReducedMiner(s, k, m, s.miners[k].stake, value, height) == Done(SetMiner(Repooled(s, k, m'), k, m'))
  {
    if m.status.Active? && k.role.Proposal? && m.stake < MIN_MINER_STAKE {
      RepooledOut(s, k, WithStatus(m, Prepare, height));
    } else {
      RepooledLower(s, k, m, value);
    }
  }

  // ----- Adding stake

  lemma StakeAddFits(s: State, source: Address, dk: StakeKey, value: u64)
    requires StakeInv(s) && value <= Balance(s, source)
    ensures (if KeyOf(dk) in s.miners then s.miners[KeyOf(dk)].stake else 0) + value < TWO64
    ensures (if dk in s.staked then s.staked[dk].value else 0) + value < TWO64
    ensures Total(Values(s.staked)) + value < TWO64
  {
    if source in s.balances { ValueAtMostTotal(s.balances, source); }
    StakeAtMostStaked(s.staked, KeyOf(dk));
    if dk in s.staked { ValueAtMostTotal(Values(s.staked), dk); }
  }

  lemma StakeAddBooks(s: State, source: Address, dk: StakeKey, m: Miner, d: Detail, value: u64)
    requires StakeInv(s) && value <= Balance(s, source)
    requires m.stake == (if KeyOf(dk) in s.miners then s.miners[KeyOf(dk)].stake else 0) + value
    requires d.value == (if dk in s.staked then s.staked[dk].value else 0) + value
    requires dk.role.Verify? ==> dk.source == dk.target
    ensures Counted(s.miners, KeyOf(dk)) <= s.proposalTotal && AdjustedTotal(s, KeyOf(dk), m) < TWO64
    ensures Books(s.miners[KeyOf(dk) := m], s.staked[dk := d], PoolWith(s.pool, KeyOf(dk), m), AdjustedTotal(s, KeyOf(dk), m))
    ensures Total(Values(s.staked[dk := d])) == Total(Values(s.staked)) + value
  {
    StakeAddFits(s, source, dk, value);
    BooksRaise(s.miners, s.staked, s.pool, s.proposalTotal, dk, m, d, value);
    ActiveAtMostStaked(s.miners[KeyOf(dk) := m], s.staked[dk := d]);
    ValuesPut(s.staked, dk, d);
  }

  ghost function RaisedMiner(s: State, dk: StakeKey, value: u64, keys: Keys, height: nat): Miner {
    Activated(StakedMiner(s, KeyOf(dk), dk.source, value, keys, height), height)
  }

  /** The ledger after a successful stake-add. */
  ghost function StakeAdded(s: State, dk: StakeKey, m: Miner, d: Detail, value: u64): State
    requires value <= Balance(s, dk.source) && 0 <= AdjustedTotal(s, KeyOf(dk), m) < TWO64
  {
    s.(balances := Debit(s, dk.source, value).balances,
       miners := s.miners[KeyOf(dk) := m],
       staked := s.staked[dk := d],
       pool := PoolWith(s.pool, KeyOf(dk), m),
       proposalTotal := AdjustedTotal(s, KeyOf(dk), m))
  }

  lemma StakeAddEffect(s: State, dk: StakeKey, value: u64, keys: Keys, ctx: Context)
    requires value <= Balance(s, dk.source)
    requires Pooled(s, KeyOf(dk)) && Counted(s.miners, KeyOf(dk)) <= s.proposalTotal
    requires AdjustedTotal(s, KeyOf(dk), RaisedMiner(s, dk, value, keys, ctx.height)) < TWO64
    requires KeyOf(dk) in s.miners ==> s.miners[KeyOf(dk)].stake + value < TWO64
    requires dk in s.staked ==> s.staked[dk].value + value < TWO64
    ensures StakeAdd(s, dk.source, dk.target, dk.role, value, keys, ctx).Rejected?
            || StakeAdd(s, dk.source, dk.target, dk.role, value, keys, ctx)
               == Done(StakeAdded(s, dk, RaisedMiner(s, dk, value, keys, ctx.height),
                                  Accumulated(s.staked, dk, value, ctx.height), value))
  {
    SavedStaked(Debit(s, dk.source, value), KeyOf(dk), StakedMiner(s, KeyOf(dk), dk.source, value, keys, ctx.height),
                value, ctx.height);
  }

  lemma StakeAddedSupply(s: State, dk: StakeKey, m: Miner, d: Detail, value: u64)
    requires value <= Balance(s, dk.source) && 0 <= AdjustedTotal(s, KeyOf(dk), m) < TWO64
    requires Total(Values(s.staked[dk := d])) == Total(Values(s.staked)) + value
    ensures Supply(StakeAdded(s, dk, m, d, value)) == Supply(s)
  {
    BalancesPut(s, dk.source, Balance(s, dk.source) - value);
  }

  lemma StakeAddedKeeps(s: State, dk: StakeKey, m: Miner, d: Detail, value: u64)
    requires StakeInv(s) && value <= Balance(s, dk.source)
    requires m.stake == (if KeyOf(dk) in s.miners then s.miners[KeyOf(dk)].stake else 0) + value
    requires d.value == (if dk in s.staked then s.staked[dk].value else 0) + value
    requires dk.role.Verify? ==> dk.source == dk.target
    requires 0 <= AdjustedTotal(s, KeyOf(dk), m) < TWO64
    ensures Conserves(Done(StakeAdded(s, dk, m, d, value)), s)
  {
    StakeAddBooks(s, dk.source, dk, m, d, value);
    StakeAddedSupply(s, dk, m, d, value);
  }

  /** What a stake-add does when the books are right: it never panics. */
  lemma StakeAddIs(s: State, dk: StakeKey, value: u64, keys: Keys, ctx: Context)
    requires StakeInv(s) && StakeAddCheck(s, dk, value, keys, ctx).Accepted?
    ensures 0 <= AdjustedTotal(s, KeyOf(dk), RaisedMiner(s, dk, value, keys, ctx.height)) < TWO64
    ensures StakeAdd(s, dk.source, dk.target, dk.role, value, keys, ctx).Rejected?
            || StakeAdd(s, dk.source, dk.target, dk.role, value, keys, ctx)
               == Done(StakeAdded(s, dk, RaisedMiner(s, dk, value, keys, ctx.height),
                                  Accumulated(s.staked, dk, value, ctx.height), value))
  {
    MinerFacts(s, KeyOf(dk));
    StakeAddFits(s, dk.source, dk, value);
    StakeAddBooks(s, dk.source, dk, RaisedMiner(s, dk, value, keys, ctx.height),
                  Accumulated(s.staked, dk, value, ctx.height), value);
    StakeAddEffect(s, dk, value, keys, ctx);
  }

  lemma StakeAddKeeps(s: State, dk: StakeKey, value: u64, keys: Keys, ctx: Context)
    requires StakeInv(s)
    ensures Conserves(StakeAdd(s, dk.source, dk.target, dk.role, value, keys, ctx), s)
  {
    if StakeAddCheck(s, dk, value, keys, ctx).Accepted? {
      StakeAddIs(s, dk, value, keys, ctx);
      StakeAddFits(s, dk.source, dk, value);
      StakeAddedKeeps(s, dk, RaisedMiner(s, dk, value, keys, ctx.height), Accumulated(s.staked, dk, value, ctx.height), value);
    }
  }

  // ----- Taking stake out

  lemma ReducedTotal(details: map<StakeKey, Detail>, dk: StakeKey, v: u64, height: nat)
    requires dk in details && v <= details[dk].value
    ensures Total(Values(Reduced(details, dk, v, height))) + v == Total(Values(details))
  {
    ValuesRemove(details, dk);
    ValuesPut(details, dk, details[dk].(value := details[dk].value - v, height := height));
  }

  lemma MinerFacts(s: State, k: MinerKey)
    requires StakeInv(s)
    ensures Pooled(s, k) && Counted(s.miners, k) <= s.proposalTotal
    ensures forall dk :: dk in s.staked && KeyOf(dk) == k ==> k in s.miners && s.staked[dk].value <= s.miners[k].stake
  {
    if Counted(s.miners, k) > 0 { ValueAtMostTotal(ActiveStakes(s.miners), k); }
    forall dk | dk in s.staked && KeyOf(dk) == k ensures k in s.miners && s.staked[dk].value <= s.miners[k].stake {
      ValueAtMostTotal(StakesFor(s.staked, k), dk);
    }
  }

  ghost function LoweredMiner(s: State, dk: StakeKey, value: u64, height: nat): Miner
    requires KeyOf(dk) in s.miners && value <= s.miners[KeyOf(dk)].stake
  {
    Deactivated(KeyOf(dk), s.miners[KeyOf(dk)].(stake := s.miners[KeyOf(dk)].stake - value), height)
  }

  /** The ledger after a successful stake-reduce. */
  ghost function StakeReduced(s: State, dk: StakeKey, m: Miner, value: u64, height: nat): State
    requires dk in s.staked && value <= s.staked[dk].value && 0 <= AdjustedTotal(s, KeyOf(dk), m) < TWO64
  {
    s.(miners := s.miners[KeyOf(dk) := m],
       staked := Reduced(s.staked, dk, value, height),
       frozen := s.frozen[dk := Accumulated(s.frozen, dk, value, height)],
       pool := PoolWith(s.pool, KeyOf(dk), m),
       proposalTotal := AdjustedTotal(s, KeyOf(dk), m))
  }

  lemma CutInTwo(s: State, dk: StakeKey, value: u64, height: nat, s1: State)
    requires KeyOf(dk) in s.miners && value <= s.miners[KeyOf(dk)].stake
    requires Pooled(s, KeyOf(dk)) && Counted(s.miners, KeyOf(dk)) <= s.proposalTotal
    requires 0 <= AdjustedTotal(s, KeyOf(dk), LoweredMiner(s, dk, value, height)) < TWO64
    requires var m := LoweredMiner(s, dk, value, height); s1 == SetMiner(Repooled(s, KeyOf(dk), m), KeyOf(dk), m)
    ensures CutStake(s, dk, value, height) == FreezeStake(s1, dk, s.miners[KeyOf(dk)].stake, value, height)
  {
    SavedReduced(s, KeyOf(dk), s.miners[KeyOf(dk)].(stake := s.miners[KeyOf(dk)].stake - value), value, height);
  }

  lemma FreezeEffect(s: State, dk: StakeKey, origin: u64, value: u64, height: nat)
    requires dk in s.staked && value <= s.staked[dk].value <= origin
    ensures FreezeStake(s, dk, origin, value, height).Rejected?
            || FreezeStake(s, dk, origin, value, height)
               == Done(s.(staked := Reduced(s.staked, dk, value, height),
                          frozen := s.frozen[dk := Accumulated(s.frozen, dk, value, height)]))
  {
  }

  lemma CutStakeEffect(s: State, dk: StakeKey, value: u64, height: nat)
    requires KeyOf(dk) in s.miners && value <= s.miners[KeyOf(dk)].stake
    requires Pooled(s, KeyOf(dk)) && Counted(s.miners, KeyOf(dk)) <= s.proposalTotal
    requires dk in s.staked && value <= s.staked[dk].value <= s.miners[KeyOf(dk)].stake
    requires 0 <= AdjustedTotal(s, KeyOf(dk), LoweredMiner(s, dk, value, height)) < TWO64
    ensures CutStake(s, dk, value, height).Rejected?
            || CutStake(s, dk, value, height) == Done(StakeReduced(s, dk, LoweredMiner(s, dk, value, height), value, height))
  {
    var m := LoweredMiner(s, dk, value, height);
    var s1 := SetMiner(Repooled(s, KeyOf(dk), m), KeyOf(dk), m);
    CutInTwo(s, dk, value, height, s1);
    FreezeEffect(s1, dk, s.miners[KeyOf(dk)].stake, value, height);
  }

  lemma StakeReduceEffect(s: State, dk: StakeKey, value: u64, ctx: Context)
    requires KeyOf(dk) in s.miners && value <= s.miners[KeyOf(dk)].stake
    requires Pooled(s, KeyOf(dk)) && Counted(s.miners, KeyOf(dk)) <= s.proposalTotal
    requires dk in s.staked && value <= s.staked[dk].value <= s.miners[KeyOf(dk)].stake
    requires 0 <= AdjustedTotal(s, KeyOf(dk), LoweredMiner(s, dk, value, ctx.height)) < TWO64
    ensures StakeReduce(s, dk.source, dk.target, dk.role, value, ctx).Rejected?
            || StakeReduce(s, dk.source, dk.target, dk.role, value, ctx)
               == Done(StakeReduced(s, dk, LoweredMiner(s, dk, value, ctx.height), value, ctx.height))
  {
    CutStakeEffect(s, dk, value, ctx.height);
  }

  lemma CutStakeRefused(s: State, dk: StakeKey, value: u64, height: nat)
    requires KeyOf(dk) in s.miners && value <= s.miners[KeyOf(dk)].stake
    requires Pooled(s, KeyOf(dk)) && Counted(s.miners, KeyOf(dk)) <= s.proposalTotal
    requires dk in s.staked ==> s.staked[dk].value < value
    ensures CutStake(s, dk, value, height).Rejected?
  {
    var m := LoweredMiner(s, dk, value, height);
    SavedReduced(s, KeyOf(dk), s.miners[KeyOf(dk)].(stake := s.miners[KeyOf(dk)].stake - value), value, height);
    var s1 := SetMiner(Repooled(s, KeyOf(dk), m), KeyOf(dk), m);
    CutInTwo(s, dk, value, height, s1);
    FreezeRefused(s1, s.staked, dk, s.miners[KeyOf(dk)].stake, value, height);
  }

  /** Without enough in the detail the reduction is refused, but it does not panic. */
  lemma StakeReduceRefused(s: State, dk: StakeKey, value: u64, ctx: Context)
    requires KeyOf(dk) in s.miners && value <= s.miners[KeyOf(dk)].stake
    requires Pooled(s, KeyOf(dk)) && Counted(s.miners, KeyOf(dk)) <= s.proposalTotal
    requires dk in s.staked ==> s.staked[dk].value < value
    ensures StakeReduce(s, dk.source, dk.target, dk.role, value, ctx).Rejected?
  {
    CutStakeRefused(s, dk, value, ctx.height);
  }

  lemma FreezeRefused(s: State, staked: map<StakeKey, Detail>, dk: StakeKey, origin: u64, value: u64, height: nat)
    requires s.staked == staked
    requires dk in staked ==> staked[dk].value < value <= origin
    ensures FreezeStake(s, dk, origin, value, height).Rejected?
  {
  }

  lemma FreezeTotals(
      staked: map<StakeKey, Detail>, frozen: map<StakeKey, Detail>, dk: StakeKey, value: u64, height: nat)
    requires dk in staked && value <= staked[dk].value
    requires Total(Values(staked)) + Total(Values(frozen)) < TWO64
    ensures Total(Values(Reduced(staked, dk, value, height))) + Total(Values(frozen[dk := Accumulated(frozen, dk, value, height)]))
            == Total(Values(staked)) + Total(Values(frozen))
  {
    ReducedTotal(staked, dk, value, height);
    ValueAtMostTotal(Values(staked), dk);
    if dk in frozen { ValueAtMostTotal(Values(frozen), dk); }
    ValuesPut(frozen, dk, Accumulated(frozen, dk, value, height));
  }

  lemma StakeReducedSupply(s: State, dk: StakeKey, m: Miner, value: u64, height: nat)
    requires Supply(s) < TWO64
    requires dk in s.staked && value <= s.staked[dk].value && 0 <= AdjustedTotal(s, KeyOf(dk), m) < TWO64
    ensures Supply(StakeReduced(s, dk, m, value, height)) == Supply(s)
  {
    FreezeTotals(s.staked, s.frozen, dk, value, height);
  }

  lemma StakeReducedKeeps(s: State, dk: StakeKey, m: Miner, value: u64, height: nat)
    requires StakeInv(s)
    requires dk in s.staked && value <= s.staked[dk].value && m.stake + value == s.miners[KeyOf(dk)].stake
    requires 0 <= AdjustedTotal(s, KeyOf(dk), m) < TWO64
    ensures Conserves(Done(StakeReduced(s, dk, m, value, height)), s)
  {
    BooksLower(s.miners, s.staked, s.pool, s.proposalTotal, dk, m, value, height);
    StakeReducedSupply(s, dk, m, value, height);
  }

  /** What a stake-reduce does when the books are right: a detail never exceeds its miner's stake, so the
      panic for that case is dead. */
  lemma StakeReduceIs(s: State, dk: StakeKey, value: u64, ctx: Context)
    requires StakeInv(s) && KeyOf(dk) in s.miners && value <= s.miners[KeyOf(dk)].stake
    requires dk in s.staked && value <= s.staked[dk].value
    ensures 0 <= AdjustedTotal(s, KeyOf(dk), LoweredMiner(s, dk, value, ctx.height)) < TWO64
    ensures StakeReduce(s, dk.source, dk.target, dk.role, value, ctx).Rejected?
            || StakeReduce(s, dk.source, dk.target, dk.role, value, ctx)
               == Done(StakeReduced(s, dk, LoweredMiner(s, dk, value, ctx.height), value, ctx.height))
  {
    MinerFacts(s, KeyOf(dk));
    BooksLower(s.miners, s.staked, s.pool, s.proposalTotal, dk, LoweredMiner(s, dk, value, ctx.height), value, ctx.height);
    StakeReduceEffect(s, dk, value, ctx);
  }

  lemma StakeReduceShort(s: State, dk: StakeKey, value: u64, ctx: Context)
    requires StakeInv(s)
    requires !(KeyOf(dk) in s.miners && value <= s.miners[KeyOf(dk)].stake && dk in s.staked && value <= s.staked[dk].value)
    ensures StakeReduce(s, dk.source, dk.target, dk.role, value, ctx).Rejected?
  {
    if KeyOf(dk) in s.miners && value <= s.miners[KeyOf(dk)].stake {
      MinerFacts(s, KeyOf(dk));
      StakeReduceRefused(s, dk, value, ctx);
    }
  }

  lemma StakeReduceKeeps(s: State, dk: StakeKey, value: u64, ctx: Context)
    requires StakeInv(s)
    ensures Conserves(StakeReduce(s, dk.source, dk.target, dk.role, value, ctx), s)
  {
    if KeyOf(dk) in s.miners && value <= s.miners[KeyOf(dk)].stake && dk in s.staked && value <= s.staked[dk].value {
      StakeReduceIs(s, dk, value, ctx);
      StakeReducedKeeps(s, dk, LoweredMiner(s, dk, value, ctx.height), value, ctx.height);
    } else {
      StakeReduceShort(s, dk, value, ctx);
    }
  }

  lemma StakeRefundSupply(s: State, dk: StakeKey)
    requires dk in s.frozen
    ensures Supply(AddBalance(s.(frozen := s.frozen - {dk}), dk.source, s.frozen[dk].value)) == Supply(s)
  {
    ValuesRemove(s.frozen, dk);
    BalancesPut(s, dk.source, Balance(s, dk.source) + s.frozen[dk].value);
  }

  lemma StakeRefundKeeps(s: State, dk: StakeKey, ctx: Context)
    requires StakeInv(s)
    ensures Conserves(StakeRefund(s, dk.source, dk.target, dk.role, ctx), s)
  {
    if dk in s.frozen { StakeRefundSupply(s, dk); }
  }

  // ----- Leaving the pool

  /** The ledger with `m` saved and the pool in line with it. */
  ghost function Saved(s: State, k: MinerKey, m: Miner): State
    requires 0 <= AdjustedTotal(s, k, m) < TWO64
  {
    s.(miners := s.miners[k := m], pool := PoolWith(s.pool, k, m), proposalTotal := AdjustedTotal(s, k, m))
  }

  lemma UnpoolEffect(s: State, k: MinerKey, m: Miner)
    requires k in s.miners && Pooled(s, k) && Counted(s.miners, k) <= s.proposalTotal && !m.status.Active?
    ensures 0 <= AdjustedTotal(s, k, m) < TWO64 && Unpool(s, k) == Done(Repooled(s, k, m))
  {
    if s.miners[k].status.Active? { RepooledOut(s, k, m); } else { RepooledSame(s, k, m); }
  }

  lemma SavedKeeps(s: State, k: MinerKey, m: Miner)
    requires StakeInv(s) && m.stake == if k in s.miners then s.miners[k].stake else 0
    requires 0 <= AdjustedTotal(s, k, m) < TWO64
    ensures Conserves(Done(Saved(s, k, m)), s)
  {
    BooksSame(s.miners, s.staked, s.pool, s.proposalTotal, k, m);
  }

  lemma UnpoolIs(s: State, k: MinerKey, m: Miner)
    requires StakeInv(s) && k in s.miners && !m.status.Active?
    ensures 0 <= AdjustedTotal(s, k, m) < TWO64
    ensures Unpool(s, k).Done? && SetMiner(Unpool(s, k).st, k, m) == Saved(s, k, m)
  {
    MinerFacts(s, k);
    UnpoolEffect(s, k, m);
  }

  /** Taking a miner off the pool and saving it with the same stake. */
  lemma UnpoolKeeps(s: State, k: MinerKey, m: Miner)
    requires StakeInv(s) && k in s.miners && m.stake == s.miners[k].stake && !m.status.Active?
    ensures Unpool(s, k).Done? && Conserves(Done(SetMiner(Unpool(s, k).st, k, m)), s)
  {
    UnpoolIs(s, k, m);
    SavedKeeps(s, k, m);
  }

  lemma MinerAbortKeeps(s: State, addr: Address, role: Role, ctx: Context)
    requires StakeInv(s)
    ensures Conserves(MinerAbort(s, addr, role, ctx), s)
  {
    var k := MinerKey(addr, role);
    if k in s.miners { UnpoolKeeps(s, k, WithStatus(s.miners[k], Prepare, ctx.height)); }
  }

  lemma MinerFreezeKeeps(s: State, addr: Address, ctx: Context)
    requires StakeInv(s)
    ensures Conserves(MinerFreeze(s, addr, ctx), s)
  {
    var k := MinerKey(addr, Verify);
    if k in s.miners { UnpoolKeeps(s, k, WithStatus(s.miners[k], Frozen, ctx.height)); }
  }

  // ----- Penalties

  /** A verifier's stake is one detail: its own. */
  lemma VerifierStake(s: State, a: Address)
    requires StakeInv(s) && MinerKey(a, Verify) in s.miners
    ensures s.miners[MinerKey(a, Verify)].stake
            == if StakeKey(a, a, Verify) in s.staked then s.staked[StakeKey(a, a, Verify)].value else 0
  {
    var k, dk := MinerKey(a, Verify), StakeKey(a, a, Verify);
    var mine := StakesFor(s.staked, k);
    assert KeyOf(dk) == k;
    if dk in s.staked {
      TotalRemove(mine, dk);
      assert mine - {dk} == map[];
    } else {
      assert mine == map[];
    }
  }

  ghost function PenalizedMiner(s: State, a: Address, value: u64, height: nat): Miner
    requires MinerKey(a, Verify) in s.miners && value <= s.miners[MinerKey(a, Verify)].stake
  {
    WithStatus(s.miners[MinerKey(a, Verify)].(stake := s.miners[MinerKey(a, Verify)].stake - value), Frozen, height)
  }

  /** The ledger after one penalty: the frozen detail is not touched. */
  ghost function Penalized(s: State, a: Address, m: Miner, value: u64, height: nat): State
    requires StakeKey(a, a, Verify) in s.staked && value <= s.staked[StakeKey(a, a, Verify)].value
    requires 0 <= AdjustedTotal(s, MinerKey(a, Verify), m) < TWO64
  {
    s.(miners := s.miners[MinerKey(a, Verify) := m],
       staked := Reduced(s.staked, StakeKey(a, a, Verify), value, height),
       punished := s.punished[a := PunishmentRecord(s, a, value, height)],
       pool := PoolWith(s.pool, MinerKey(a, Verify), m),
       proposalTotal := AdjustedTotal(s, MinerKey(a, Verify), m))
  }

  lemma TakePenaltyEffect(s: State, dk: StakeKey, value: u64, height: nat)
    requires dk in s.staked && value <= s.staked[dk].value
    ensures TakePenalty(s, dk, value, height) == Done(s.(staked := Reduced(s.staked, dk, value, height)))
  {
  }

  lemma PenalizeEffect(s: State, a: Address, value: u64, height: nat)
    requires MinerKey(a, Verify) in s.miners && Pooled(s, MinerKey(a, Verify))
    requires StakeKey(a, a, Verify) in s.staked
    requires value <= s.miners[MinerKey(a, Verify)].stake == s.staked[StakeKey(a, a, Verify)].value
    requires 0 <= AdjustedTotal(s, MinerKey(a, Verify), PenalizedMiner(s, a, value, height)) < TWO64
    ensures Penalize(s, a, value, height) == Done(Penalized(s, a, PenalizedMiner(s, a, value, height), value, height))
  {
    var k, m := MinerKey(a, Verify), PenalizedMiner(s, a, value, height);
    UnpoolEffect(s, k, m);
    var s1 := Repooled(s, k, m);
    var s2 := SetMiner(s1, k, m).(punished := s1.punished[a := PunishmentRecord(s1, a, value, height)]);
    TakePenaltyEffect(s2, StakeKey(a, a, Verify), value, height);
  }

  lemma PenalizedSupply(s: State, a: Address, m: Miner, value: u64, height: nat)
    requires StakeKey(a, a, Verify) in s.staked && value <= s.staked[StakeKey(a, a, Verify)].value
    requires 0 <= AdjustedTotal(s, MinerKey(a, Verify), m) < TWO64
    ensures Supply(Penalized(s, a, m, value, height)) + value == Supply(s)
  {
    ReducedTotal(s.staked, StakeKey(a, a, Verify), value, height);
  }

  lemma PenalizedKeeps(s: State, a: Address, m: Miner, value: u64, height: nat)
    requires StakeInv(s) && MinerKey(a, Verify) in s.miners
    requires StakeKey(a, a, Verify) in s.staked && value <= s.staked[StakeKey(a, a, Verify)].value
    requires m.stake + value == s.miners[MinerKey(a, Verify)].stake
    requires 0 <= AdjustedTotal(s, MinerKey(a, Verify), m) < TWO64
    ensures StakeInv(Penalized(s, a, m, value, height))
  {
    BooksLower(s.miners, s.staked, s.pool, s.proposalTotal, StakeKey(a, a, Verify), m, value, height);
    PenalizedSupply(s, a, m, value, height);
  }

  /** The verifier stake of an address, zero when it has no record. */
  function VerifierStakeOf(s: State, a: Address): nat {
    if MinerKey(a, Verify) in s.miners then s.miners[MinerKey(a, Verify)].stake else 0
  }

  /** What a penalty of `taken(a)` tokens on each address leaves of the ledger. */
  ghost predicate TakenFrom(s: State, s': State, total: nat, taken: Address -> nat) {
    match s'
    case State(balances, miners, _, frozen, _, _, _, _, _, _, _, _, _) =>
      && StakeInv(s') && Supply(s') + total == Supply(s)
      && frozen == s.frozen && balances == s.balances
      && miners.Keys == s.miners.Keys
      && forall a {:trigger VerifierStakeOf(s', a)} :: VerifierStakeOf(s', a) + taken(a) == VerifierStakeOf(s, a)
  }

  function Once(a: Address, value: nat): Address -> nat {
    b => if b == a then value else 0
  }

  /** One penalty takes exactly its value from one verifier; it panics exactly when the stake is short. */
  lemma PenalizeKeeps(s: State, a: Address, value: u64, height: nat)
    requires StakeInv(s) && value > 0
    ensures MinerKey(a, Verify) !in s.miners ==> Penalize(s, a, value, height).Rejected?
    ensures MinerKey(a, Verify) in s.miners && VerifierStakeOf(s, a) < value ==> Penalize(s, a, value, height).Panic?
    ensures VerifierStakeOf(s, a) >= value ==>
              Penalize(s, a, value, height).Done? && TakenFrom(s, Penalize(s, a, value, height).st, value, Once(a, value))
  {
    var k := MinerKey(a, Verify);
    if k in s.miners {
      MinerFacts(s, k);
      if value <= s.miners[k].stake {
        var m := PenalizedMiner(s, a, value, height);
        VerifierStake(s, a);
        UnpoolEffect(s, k, m);
        PenalizeEffect(s, a, value, height);
        PenalizedKeeps(s, a, m, value, height);
        PenalizedSupply(s, a, m, value, height);
        PenalizedTaken(s, a, m, value, height);
      } else {
        UnpoolEffect(s, k, WithStatus(s.miners[k], Frozen, height));
      }
    }
  }

  lemma PenalizedTaken(s: State, a: Address, m: Miner, value: u64, height: nat)
    requires MinerKey(a, Verify) in s.miners && m.stake + value == s.miners[MinerKey(a, Verify)].stake
    requires StakeKey(a, a, Verify) in s.staked && value <= s.staked[StakeKey(a, a, Verify)].value
    requires 0 <= AdjustedTotal(s, MinerKey(a, Verify), m) < TWO64
    requires StakeInv(Penalized(s, a, m, value, height)) && Supply(Penalized(s, a, m, value, height)) + value == Supply(s)
    ensures TakenFrom(s, Penalized(s, a, m, value, height), value, Once(a, value))
  {
    assert s.miners[MinerKey(a, Verify) := m].Keys == s.miners.Keys;
  }

  lemma TakenTwice(
      s: State, s1: State, s2: State, t1: nat, t2: nat, f1: Address -> nat, f2: Address -> nat, f: Address -> nat)
    requires TakenFrom(s, s1, t1, f1) && TakenFrom(s1, s2, t2, f2)
    requires forall a :: f(a) == f1(a) + f2(a)
    ensures TakenFrom(s, s2, t1 + t2, f)
  {
    assert forall a {:trigger VerifierStakeOf(s2, a)} :: VerifierStakeOf(s1, a) == VerifierStakeOf(s2, a) + f2(a);
  }

  /** How often `a` stands among the targets. */
  function Times(targets: seq<Address>, a: Address): nat {
    if targets == [] then 0
    else Times(targets[..|targets| - 1], a) + if targets[|targets| - 1] == a then 1 else 0
  }

  function TimesValue(targets: seq<Address>, value: nat): Address -> nat {
    a => value * Times(targets, a)
  }

  /** The target at `i` can be penalised: it is a verifier and its stake covers every penalty up to there. */
  predicate Covered(s: State, targets: seq<Address>, value: u64, i: nat)
    requires i < |targets|
  {
    MinerKey(targets[i], Verify) in s.miners && VerifierStakeOf(s, targets[i]) >= value * Times(targets[..i + 1], targets[i])
  }

  predicate AllCovered(s: State, targets: seq<Address>, value: u64) {
    forall i {:trigger Covered(s, targets, value, i)} :: 0 <= i < |targets| ==> Covered(s, targets, value, i)
  }

  /** The first target that is not covered decides: a short stake panics, a missing record only rejects. */
  predicate FirstShort(s: State, targets: seq<Address>, value: u64, i: nat)
    requires i < |targets|
  {
    && !Covered(s, targets, value, i) && MinerKey(targets[i], Verify) in s.miners
    && AllCovered(s, targets[..i], value)
  }

  predicate PenaltyPanics(s: State, targets: seq<Address>, value: u64) {
    exists i {:trigger FirstShort(s, targets, value, i)} :: 0 <= i < |targets| && FirstShort(s, targets, value, i)
  }

  lemma CoveredPrefix(s: State, targets: seq<Address>, value: u64, n: nat, i: nat)
    requires i < n <= |targets|
    ensures Covered(s, targets[..n], value, i) == Covered(s, targets, value, i)
    ensures FirstShort(s, targets[..n], value, i) == FirstShort(s, targets, value, i)
  {
    assert targets[..n][..i + 1] == targets[..i + 1] && targets[..n][..i] == targets[..i];
  }

  /** Cutting the last target off changes the verdict only through that target. */
  lemma CutLast(s: State, targets: seq<Address>, value: u64)
    requires targets != []
    ensures AllCovered(s, targets, value)
            <==> AllCovered(s, targets[..|targets| - 1], value) && Covered(s, targets, value, |targets| - 1)
    ensures PenaltyPanics(s, targets, value)
            <==> PenaltyPanics(s, targets[..|targets| - 1], value) || FirstShort(s, targets, value, |targets| - 1)
  {
    var n := |targets| - 1;
    forall i | 0 <= i < n
      ensures Covered(s, targets[..n], value, i) == Covered(s, targets, value, i)
      ensures FirstShort(s, targets[..n], value, i) == FirstShort(s, targets, value, i)
    {
      CoveredPrefix(s, targets, value, n, i);
    }
    if PenaltyPanics(s, targets, value) {
      var i :| 0 <= i < |targets| && FirstShort(s, targets, value, i);
      assert i == n || FirstShort(s, targets[..n], value, i);
    }
  }

  ghost predicate PenaltyVerdict(s: State, o: Outcome, targets: seq<Address>, value: u64) {
    match o
    case Done(s') => AllCovered(s, targets, value) && TakenFrom(s, s', value * |targets|, TimesValue(targets, value))
    case Rejected(_) => !AllCovered(s, targets, value) && !PenaltyPanics(s, targets, value)
    case Panic => PenaltyPanics(s, targets, value)
  }

  lemma TimesLast(targets: seq<Address>, value: nat, b: Address)
    requires targets != []
    ensures TimesValue(targets, value)(b)
            == TimesValue(targets[..|targets| - 1], value)(b) + Once(targets[|targets| - 1], value)(b)
  {
    var front, last := Times(targets[..|targets| - 1], b), if targets[|targets| - 1] == b then 1 else 0;
    assert value * (front + last) == value * front + value * last;
  }

  lemma OneMore(value: nat, n: nat)
    ensures value * (n + 1) == value * n + value
  {
  }

  lemma TakenNext(s: State, s1: State, s2: State, targets: seq<Address>, value: u64, total: nat)
    requires targets != []
    requires TakenFrom(s, s1, total, TimesValue(targets[..|targets| - 1], value))
    requires TakenFrom(s1, s2, value, Once(targets[|targets| - 1], value))
    ensures TakenFrom(s, s2, total + value, TimesValue(targets, value))
  {
    var f1, f2, f := TimesValue(targets[..|targets| - 1], value), Once(targets[|targets| - 1], value), TimesValue(targets, value);
    forall b ensures f(b) == f1(b) + f2(b) { TimesLast(targets, value, b); }
    TakenTwice(s, s1, s2, total, value, f1, f2, f);
  }

  /** The last target is covered exactly when what the others left of its stake pays one more penalty. */
  lemma LastCovered(s: State, s1: State, targets: seq<Address>, value: u64, total: nat)
    requires targets != []
    requires TakenFrom(s, s1, total, TimesValue(targets[..|targets| - 1], value))
    ensures MinerKey(targets[|targets| - 1], Verify) in s1.miners <==> MinerKey(targets[|targets| - 1], Verify) in s.miners
    ensures MinerKey(targets[|targets| - 1], Verify) in s.miners ==>
              (Covered(s, targets, value, |targets| - 1) <==> VerifierStakeOf(s1, targets[|targets| - 1]) >= value)
    ensures StakeInv(s1)
  {
    var n := |targets| - 1;
    TimesLast(targets, value, targets[n]);
    assert targets[..n + 1] == targets;
    assert VerifierStakeOf(s1, targets[n]) + TimesValue(targets[..n], value)(targets[n]) == VerifierStakeOf(s, targets[n]);
  }

  lemma PenalizeNext(s: State, s1: State, targets: seq<Address>, value: u64, height: nat)
    requires targets != [] && value > 0
    requires PenaltyVerdict(s, Done(s1), targets[..|targets| - 1], value)
    ensures PenaltyVerdict(s, Penalize(s1, targets[|targets| - 1], value, height), targets, value)
  {
    var a := targets[|targets| - 1];
    LastCovered(s, s1, targets, value, value * |targets[..|targets| - 1]|);
    PenalizeKeeps(s1, a, value, height);
    CutLast(s, targets, value);
    var o := Penalize(s1, a, value, height);
    if o.Done? {
      TakenNext(s, s1, o.st, targets, value, value * |targets[..|targets| - 1]|);
      OneMore(value, |targets| - 1);
    }
  }

  /** Penalising a list succeeds exactly when every target is covered, and panics exactly when the first
      uncovered target has a record. */
  lemma {:induction false} PenalizeAllKeeps(s: State, targets: seq<Address>, value: u64, height: nat)
    requires StakeInv(s) && value > 0
    ensures PenaltyVerdict(s, PenalizeAll(s, targets, value, height), targets, value)
    decreases |targets|
  {
    if targets != [] {
      var front := targets[..|targets| - 1];
      PenalizeAllKeeps(s, front, value, height);
      CutLast(s, targets, value);
      var o := PenalizeAll(s, front, value, height);
      if o.Done? {
        PenalizeNext(s, o.st, targets, value, height);
      } else if o.Panic? {
        assert PenaltyPanics(s, targets, value);
      } else {
        assert !AllCovered(s, targets[..|targets| - 1], value);
      }
    }
  }

  lemma {:induction false} RewardAllKeeps(s: State, rewards: seq<Address>, each: nat)
    requires StakeInv(s) && Supply(s) + each * |rewards| < TWO64
    ensures StakeInv(RewardAll(s, rewards, each)) && Supply(RewardAll(s, rewards, each)) == Supply(s) + each * |rewards|
    decreases |rewards|
  {
    if rewards != [] {
      var n := |rewards| - 1;
      assert each * |rewards| == each * n + each;
      RewardAllKeeps(s, rewards[..n], each);
      AddBalanceKeeps(RewardAll(s, rewards[..n], each), rewards[n], each);
    }
  }

  lemma AddBalanceKeeps(s: State, a: Address, v: nat)
    requires StakeInv(s) && Supply(s) + v < TWO64
    ensures StakeInv(AddBalance(s, a, v)) && Supply(AddBalance(s, a, v)) == Supply(s) + v
  {
    BalancesPut(s, a, Balance(s, a) + v);
  }

  /** What a penalty destroys: all of it without rewardees, otherwise only the dust of the division. */
  function PenaltyLoss(targets: nat, rewards: nat, value: nat): (loss: nat)
    ensures rewards > 0 ==> loss < rewards
  {
    if rewards == 0 then value * targets else value * targets % rewards
  }

  lemma ShareAndLoss(targets: nat, rewards: nat, value: u64)
    requires rewards > 0 && value * targets < TWO64
    ensures PenaltyShare(targets, rewards, value) * rewards + PenaltyLoss(targets, rewards, value) == value * targets
  {
    assert value * targets % TWO64 == value * targets;
  }

  ghost predicate PenaltyConserves(s: State, o: Outcome, targets: seq<Address>, rewards: nat, value: u64) {
    match o
    case Done(s') =>
      AllCovered(s, targets, value) && StakeInv(s') && Supply(s') + PenaltyLoss(|targets|, rewards, value) == Supply(s)
    case Rejected(_) => !AllCovered(s, targets, value) && !PenaltyPanics(s, targets, value)
    case Panic => PenaltyPanics(s, targets, value)
  }

  lemma MinerPenaltyKeeps(s: State, targets: seq<Address>, rewards: seq<Address>, value: u64, ctx: Context)
    requires StakeInv(s) && value > 0
    ensures PenaltyConserves(s, MinerPenalty(s, targets, rewards, value, ctx), targets, |rewards|, value)
  {
    PenalizeAllKeeps(s, targets, value, ctx.height);
    var o := PenalizeAll(s, targets, value, ctx.height);
    if o.Done? && rewards != [] {
      ShareAndLoss(|targets|, |rewards|, value);
      RewardAllKeeps(o.st, rewards, PenaltyShare(|targets|, |rewards|, value));
    }
  }

  // ----- What taking a ticket away changes

  lemma UnpoolFrame(s: State, k: MinerKey)
    requires k in s.miners && Unpool(s, k).Done?
    ensures Unpool(s, k).st == s.(pool := Unpool(s, k).st.pool, proposalTotal := Unpool(s, k).st.proposalTotal)
  {
    if s.miners[k].status.Active? {
      RemoveFromPoolFrame(s, k, s.miners[k].stake);
    } else {
      assert Unpool(s, k) == Done(s);
    }
  }

  lemma RemoveFromPoolFrame(s: State, k: MinerKey, stake: u64)
    requires RemoveFromPool(s, k, stake).Done?
    ensures k.role.Proposal? ==> stake <= s.proposalTotal
    ensures RemoveFromPool(s, k, stake)
            == Done(s.(pool := s.pool - {k},
                       proposalTotal := if k.role.Proposal? then s.proposalTotal - stake else s.proposalTotal))
  {
  }

  function DemotedIn(
    miners: map<MinerKey, Miner>, tickets: map<Address, nat>, a: Address, height: nat): map<MinerKey, Miner>
  {
    if MinerKey(a, Proposal) in miners && IdentityIn(miners, a).MinerPool? && TicketsIn(tickets, a) < NeedTickets(height)
    then miners[MinerKey(a, Proposal) := DemotedMiner(miners[MinerKey(a, Proposal)], height)]
    else miners
  }

  function DemotedMiners(s: State, a: Address, height: nat): map<MinerKey, Miner> {
    DemotedIn(s.miners, s.tickets, a, height)
  }

  lemma DemotePoolFrame(s: State, a: Address, height: nat)
    requires DemotePool(s, a, height).Done?
    ensures var s' := DemotePool(s, a, height).st;
            s' == s.(miners := DemotedMiners(s, a, height), pool := s'.pool, proposalTotal := s'.proposalTotal)
  {
    if PoolFallsShort(s, a, height) { UnpoolFrame(s, MinerKey(a, Proposal)); }
  }

  /** The ledger with one ticket less for `a`. */
  function TicketTaken(s: State, a: Address): State {
    s.(tickets := s.tickets[a := if Tickets(s, a) < 1 then 0 else Tickets(s, a) - 1])
  }

  lemma ReduceTicketFrame(s: State, a: Address, height: nat)
    requires ReduceTicket(s, a, height).Done?
    ensures var s' := ReduceTicket(s, a, height).st;
            s' == TicketTaken(s, a).(
                    miners := DemotedMiners(TicketTaken(s, a), a, height), pool := s'.pool, proposalTotal := s'.proposalTotal)
  {
    DemotePoolFrame(TicketTaken(s, a), a, height);
  }

  /** Moving a ticket rewrites at most the record of the address it is taken from. */
  lemma MoveTicketTurn(s: State, prior: Address, target: Address, height: nat)
    requires prior != target && prior != ZERO_ADDRESS && MoveTicket(s, prior, target, height).Done?
    ensures var s' := MoveTicket(s, prior, target, height).st;
            var s1 := TicketTaken(s, prior);
            s' == s1.(tickets := s1.tickets[target := Tickets(s1, target) + 1],
                      miners := DemotedMiners(s1, prior, height), pool := s'.pool, proposalTotal := s'.proposalTotal)
  {
    assert ReduceTicket(s, prior, height).Done?;
    ReduceTicketFrame(s, prior, height);
  }

  // ----- Votes and guards touch stake only by taking a pool off

  lemma DemotePoolKeeps(s: State, a: Address, height: nat)
    requires StakeInv(s)
    ensures DemotePool(s, a, height).Done? && Conserves(DemotePool(s, a, height), s)
  {
    var k := MinerKey(a, Proposal);
    if k in s.miners {
      var m := DemotedMiner(s.miners[k], height);
      UnpoolKeeps(s, k, m);
    }
  }

  lemma ReduceTicketKeeps(s: State, target: Address, height: nat)
    requires StakeInv(s)
    ensures ReduceTicket(s, target, height).Done? && Conserves(ReduceTicket(s, target, height), s)
  {
    var left := if Tickets(s, target) < 1 then 0 else Tickets(s, target) - 1;
    DemotePoolKeeps(s.(tickets := s.tickets[target := left]), target, height);
  }

  lemma MoveTicketKeeps(s: State, prior: Address, target: Address, height: nat)
    requires StakeInv(s)
    ensures MoveTicket(s, prior, target, height).Done? && Conserves(MoveTicket(s, prior, target, height), s)
  {
    if prior != ZERO_ADDRESS { ReduceTicketKeeps(s, prior, height); }
  }

  /** A miner that keeps its stake and its place in the pool may change otherwise. */
  lemma SameStakeKeeps(s: State, k: MinerKey, m: Miner)
    requires StakeInv(s)
    requires if k in s.miners then m.stake == s.miners[k].stake && m.status.Active? == s.miners[k].status.Active?
             else m.stake == 0 && !m.status.Active?
    ensures Conserves(Done(SetMiner(s, k, m)), s)
  {
    MinerFacts(s, k);
    RepooledSame(s, k, m);
    SavedKeeps(s, k, m);
    assert Saved(s, k, m) == SetMiner(Repooled(s, k, m), k, m);
  }

  predicate SameMiner(s: State, s': State, k: MinerKey) {
    (k in s.miners <==> k in s'.miners) && (k in s.miners ==> s.miners[k] == s'.miners[k])
  }

  lemma PromotePoolKeeps(read: State, s: State, a: Address, height: nat)
    requires StakeInv(s) && SameMiner(read, s, MinerKey(a, Proposal))
    ensures Conserves(Done(PromotePool(read, s, a, height)), s)
  {
    SameStakeKeeps(s, MinerKey(a, Proposal), PromotedMiner(read, a, height));
  }

  /** A vote moves no stake of its target, even when it demotes the pool voted for before. */
  lemma MoveTicketTarget(s: State, prior: Address, target: Address, height: nat)
    requires MoveTicket(s, prior, target, height).Done?
    ensures SameMiner(s, MoveTicket(s, prior, target, height).st, MinerKey(target, Proposal))
  {
    if prior != target && prior != ZERO_ADDRESS { MoveTicketTurn(s, prior, target, height); }
  }

  lemma VoteKeeps(s: State, source: Address, target: Address, ctx: Context)
    requires StakeInv(s)
    ensures Conserves(Vote(s, source, target, ctx), s)
  {
    var prior := if source in s.votes then s.votes[source].target else ZERO_ADDRESS;
    var s1 := s.(votes := s.votes[source := VoteInfo(target, ctx.height)]);
    MoveTicketKeeps(s1, prior, target, ctx.height);
    var s2 := MoveTicket(s1, prior, target, ctx.height).st;
    MoveTicketTarget(s1, prior, target, ctx.height);
    PromotePoolKeeps(s, s2, target, ctx.height);
  }

  /** Details that keep their values keep every sum. */
  lemma SameValuesKeep(s: State, staked: map<StakeKey, Detail>)
    requires StakeInv(s) && staked.Keys == s.staked.Keys
    requires forall dk :: dk in staked ==> staked[dk].value == s.staked[dk].value
    ensures Conserves(Done(s.(staked := staked)), s)
  {
    assert Values(staked) == Values(s.staked);
    forall k ensures StakesFor(staked, k) == StakesFor(s.staked, k) {
    }
    assert Books(s.miners, staked, s.pool, s.proposalTotal);
  }

  lemma SetDismissKeeps(s: State, dk: StakeKey, height: nat)
    requires StakeInv(s) && dk in s.staked
    ensures Conserves(Done(SetDismiss(s, dk, height)), s)
  {
    SameValuesKeep(s, SetDismiss(s, dk, height).staked);
  }

  /** Guard lists carry no stake. */
  lemma ListsKeep(s: State, s': State, fund: map<Address, FundRecord>, fullStake: set<Address>)
    requires Conserves(Done(s'), s)
    ensures Conserves(Done(s'.(fund := fund, fullStake := fullStake)), s)
  {
  }

  lemma RelistedKeeps(s: State, dk: StakeKey, dismiss: nat, fund: map<Address, FundRecord>, fullStake: set<Address>)
    requires StakeInv(s) && dk in s.staked
    ensures Conserves(Done(SetDismiss(s, dk, dismiss).(fund := fund, fullStake := fullStake)), s)
  {
    SetDismissKeeps(s, dk, dismiss);
    ListsKeep(s, SetDismiss(s, dk, dismiss), fund, fullStake);
  }

  /** The lists of fund guards and of full-stake guards after a successful application. */
  ghost function RelistedFund(s: State, a: Address, was: Identity, height: nat): map<Address, FundRecord> {
    if was.Guard? && a in s.fund then s.fund[a := s.fund[a].(kind := FullStakeGuardNode, height := height)] else s.fund
  }

  lemma BecomeFullGuardCases(s: State, a: Address, was: Identity, height: nat)
    requires StakeKey(a, a, Proposal) in s.staked
    ensures var dk := StakeKey(a, a, Proposal);
            var dismiss := s.staked[dk].dismissHeight;
            var o := BecomeFullGuard(s, a, was, height);
            || o == Rejected(RSFail)
            || o == Done(SetDismiss(s, dk, dismiss + HALF_PERIOD))
            || o == Done(SetDismiss(s, dk, height + HALF_PERIOD).(
                           fund := RelistedFund(s, a, was, height), fullStake := s.fullStake + {a}))
  {
  }

  lemma SameOutcome(o: Outcome, o': Outcome, s: State)
    requires o == o' && Conserves(o', s)
    ensures Conserves(o, s)
  {
  }

  lemma BecomeFullGuardKeeps(s: State, a: Address, was: Identity, height: nat)
    requires StakeInv(s) && StakeKey(a, a, Proposal) in s.staked
    ensures Conserves(BecomeFullGuard(s, a, was, height), s)
  {
    var dk := StakeKey(a, a, Proposal);
    var o := BecomeFullGuard(s, a, was, height);
    BecomeFullGuardCases(s, a, was, height);
    var renewed := SetDismiss(s, dk, s.staked[dk].dismissHeight + HALF_PERIOD);
    if o == Done(renewed) {
      SetDismissKeeps(s, dk, s.staked[dk].dismissHeight + HALF_PERIOD);
      SameOutcome(o, Done(renewed), s);
    } else if o.Done? {
      RelistedKeeps(s, dk, height + HALF_PERIOD, RelistedFund(s, a, was, height), s.fullStake + {a});
      SameOutcome(o, Done(o.st), s);
    }
  }

  lemma ApplyGuardKeeps(s: State, a: Address, ctx: Context)
    requires StakeInv(s)
    ensures Conserves(ApplyGuard(s, a, ctx), s)
  {
    var k := MinerKey(a, Proposal);
    if k in s.miners && StakeKey(a, a, Proposal) in s.staked {
      SameStakeKeeps(s, k, WithIdentity(s.miners[k], Guard, ctx.height));
      BecomeFullGuardKeeps(SetMiner(s, k, WithIdentity(s.miners[k], Guard, ctx.height)), a, s.miners[k].identity, ctx.height);
    }
  }

  lemma ExpireGuardKeeps(s: State, a: Address, height: nat, isFund: bool)
    requires StakeInv(s)
    ensures Conserves(ExpireGuard(s, a, height, isFund), s)
  {
    var k := MinerKey(a, Proposal);
    if k in s.miners {
      SameStakeKeeps(s, k, WithIdentity(s.miners[k], Normal, height));
      var s1 := SetMiner(s, k, WithIdentity(s.miners[k], Normal, height));
      var s2 := if isFund then s1 else s1.(fullStake := s1.fullStake - {a});
      if a in s2.votes {
        ReduceTicketKeeps(s2.(votes := s2.votes - {a}), s2.votes[a].target, height);
      }
    }
  }

  lemma {:induction false} ExpireGuardsKeeps(s: State, addrs: seq<Address>, height: nat, isFund: bool)
    requires StakeInv(s)
    ensures Conserves(ExpireGuards(s, addrs, height, isFund), s)
    decreases |addrs|
  {
    if addrs != [] {
      ExpireGuardsKeeps(s, addrs[..|addrs| - 1], height, isFund);
      var o := ExpireGuards(s, addrs[..|addrs| - 1], height, isFund);
      if o.Done? { ExpireGuardKeeps(o.st, addrs[|addrs| - 1], height, isFund); }
    }
  }

  lemma FullStakePassKeeps(s: State, height: nat)
    requires StakeInv(s)
    ensures Conserves(FullStakePass(s, height), s)
  {
    var addrs := Listing(s.fullStake);
    if forall a :: a in addrs ==> StakeKey(a, a, Proposal) in s.staked {
      SameValuesKeep(s, MarkNotFull(s, addrs, height).staked);
      ExpireGuardsKeeps(MarkNotFull(s, addrs, height), ExpiredAmong(s, addrs, height), height, false);
    }
  }

  lemma FundPassKeeps(s: State, height: nat)
    requires StakeInv(s)
    ensures Conserves(FundPass(s, height), s)
  {
    var s1 := RetireFunds(s, DueFunds(s, height), height).(
                scannedSixAddFive := s.scannedSixAddFive || ScanSixAddFive(s, height),
                scannedSixAddSix := s.scannedSixAddSix || ScanSixAddSix(s, height));
    ExpireGuardsKeeps(s1, DueListing(s, height), height, true);
  }

  lemma GuardCheckKeeps(s: State, height: nat)
    requires StakeInv(s)
    ensures Conserves(GuardCheck(s, height), s)
  {
    FullStakePassKeeps(s, height);
    FundPassKeeps(OrRevert(FullStakePass(s, height), s), height);
  }

  // ----- Every operation, every run

  /** The tokens that a step takes out of circulation. */
  function Loss(s: State, op: Op, ctx: Context): nat {
    if op.OpMinerPenalty? && Transition(s, op, ctx).Done?
    then PenaltyLoss(|op.targets|, |op.rewards|, MIN_MINER_STAKE) else 0
  }

  predicate StepPanics(s: State, op: Op) {
    op.OpMinerPenalty? && PenaltyPanics(s, op.targets, MIN_MINER_STAKE)
  }

  ghost predicate StepConserves(s: State, op: Op, ctx: Context) {
    && (Transition(s, op, ctx).Panic? <==> StepPanics(s, op))
    && StakeInv(Execute(s, op, ctx))
    && Supply(Execute(s, op, ctx)) + Loss(s, op, ctx) == Supply(s)
  }

  lemma PenaltyStepKeeps(s: State, op: Op, ctx: Context)
    requires StakeInv(s) && op.OpMinerPenalty?
    ensures StepConserves(s, op, ctx)
  {
    MinerPenaltyKeeps(s, op.targets, op.rewards, MIN_MINER_STAKE, ctx);
  }

  lemma PlainStepKeeps(s: State, op: Op, ctx: Context)
    requires StakeInv(s) && !op.OpMinerPenalty?
    ensures Conserves(Transition(s, op, ctx), s)
  {
    match op
    case OpStakeAdd(source, target, role, value, keys) => StakeAddKeeps(s, StakeKey(target, source, role), value, keys, ctx);
    case OpStakeReduce(source, target, role, value) => StakeReduceKeeps(s, StakeKey(target, source, role), value, ctx);
    case OpStakeRefund(source, target, role) => StakeRefundKeeps(s, StakeKey(target, source, role), ctx);
    case OpMinerAbort(addr, role) => MinerAbortKeeps(s, addr, role, ctx);
    case OpMinerFreeze(addr) => MinerFreezeKeeps(s, addr, ctx);
    case OpVote(source, target) => VoteKeeps(s, source, target, ctx);
    case OpApplyGuard(addr) => ApplyGuardKeeps(s, addr, ctx);
    case OpChangeFundMode(source, mode) =>
    case OpGuardCheck => GuardCheckKeeps(s, ctx.height);
  }

  /** Every operation keeps the copies of stake equal and conserves tokens, and the only panic left is a
      penalty on a verifier with too little stake. */
  lemma StepKeepsStakes(s: State, op: Op, ctx: Context)
    requires StakeInv(s)
    ensures StepConserves(s, op, ctx)
  {
    if op.OpMinerPenalty? { PenaltyStepKeeps(s, op, ctx); } else { PlainStepKeeps(s, op, ctx); }
  }

  function RunLoss(s: State, steps: seq<Step>): nat {
    if steps == [] then 0
    else
      var n := |steps| - 1;
      RunLoss(s, steps[..n]) + Loss(Run(s, steps[..n]), steps[n].op, steps[n].ctx)
  }

  /** Over any run the copies of stake agree and tokens are conserved up to what penalties destroy. */
  lemma {:induction false} RunKeepsStakes(s: State, steps: seq<Step>)
    requires StakeInv(s)
    ensures StakeInv(Run(s, steps)) && Supply(Run(s, steps)) + RunLoss(s, steps) == Supply(s)
    decreases |steps|
  {
    if steps != [] {
      var n := |steps| - 1;
      RunKeepsStakes(s, steps[..n]);
      StepKeepsStakes(Run(s, steps[..n]), steps[n].op, steps[n].ctx);
    }
  }

  // ----- Which additions can wrap

  ghost function DetailValue(details: map<StakeKey, Detail>, dk: StakeKey): nat {
    if dk in details then details[dk].value else 0
  }

  ghost function MinerStake(s: State, k: MinerKey): nat {
    if k in s.miners then s.miners[k].stake else 0
  }

  /** The stake that the proposal total does not count yet. */
  ghost function Uncounted(s: State, k: MinerKey): nat {
    if k in s.miners && s.miners[k].status.Active? then 0 else MinerStake(s, k)
  }

  lemma CountedWithNew(s: State, k: MinerKey)
    requires StakeInv(s) && k.role.Proposal?
    ensures s.proposalTotal + Uncounted(s, k) <= Total(Values(s.staked))
  {
    if k in s.miners && !s.miners[k].status.Active? {
      var m := s.miners[k].(status := Active);
      var miners := s.miners[k := m];
      ActiveStakesPut(s.miners, k, m);
      assert StakesExact(miners, s.staked);
      ActiveAtMostStaked(miners, s.staked);
    } else {
      ActiveAtMostStaked(s.miners, s.staked);
    }
  }

  /** With the supply below 2^64 no sum that adding or reducing stake forms can wrap. */
  lemma SumsFit(s: State, dk: StakeKey, value: u64)
    requires StakeInv(s)
    ensures value <= Balance(s, dk.source) ==>
              && MinerStake(s, KeyOf(dk)) + value < TWO64
              && DetailValue(s.staked, dk) + value < TWO64
              && (dk.role.Proposal? ==> s.proposalTotal + Uncounted(s, KeyOf(dk)) + value < TWO64)
    ensures value <= DetailValue(s.staked, dk) ==> DetailValue(s.frozen, dk) + value < TWO64
  {
    if value <= Balance(s, dk.source) {
      StakeAddFits(s, dk.source, dk, value);
      if dk.role.Proposal? { CountedWithNew(s, KeyOf(dk)); }
    }
    if dk in s.staked { ValueAtMostTotal(Values(s.staked), dk); }
    if dk in s.frozen { ValueAtMostTotal(Values(s.frozen), dk); }
  }

  /** A penalty taken out of the details leaves the records of miners and punishments alone. */
  ghost predicate SameRecords(o: Outcome, s: State) {
    o.Done? ==> o.st.punished == s.punished && o.st.miners == s.miners
  }

  lemma TakeRemainderFrame(s: State, dk: StakeKey, remain: u64, height: nat)
    ensures SameRecords(TakeRemainder(s, dk, remain, height), s)
  {
  }

  lemma TakePenaltyFrame(s: State, dk: StakeKey, value: u64, height: nat)
    ensures SameRecords(TakePenalty(s, dk, value, height), s)
  {
    if dk in s.staked && s.staked[dk].value <= value {
      TakeRemainderFrame(s.(staked := s.staked - {dk}), dk, value - s.staked[dk].value, height);
    }
  }

  lemma PenalizeRecords(s: State, a: Address, value: u64, height: nat)
    requires Penalize(s, a, value, height).Done?
    ensures MinerKey(a, Verify) in s.miners && value <= s.miners[MinerKey(a, Verify)].stake
    ensures Penalize(s, a, value, height).st.punished == s.punished[a := PunishmentRecord(s, a, value, height)]
    ensures Penalize(s, a, value, height).st.miners == s.miners[MinerKey(a, Verify) := PenalizedMiner(s, a, value, height)]
  {
    var k := MinerKey(a, Verify);
    var s1 := Unpool(s, k).st;
    UnpoolFrame(s, k);
    var m := WithStatus(s.miners[k].(stake := s.miners[k].stake - value), Frozen, height);
    var s2 := SetMiner(s1, k, m).(punished := s1.punished[a := PunishmentRecord(s1, a, value, height)]);
    TakePenaltyFrame(s2, StakeKey(a, a, Verify), value, height);
  }

  /** The record is the true sum exactly when the sum fits. */
  lemma PunishmentExact(s: State, a: Address, value: u64, height: nat, before: nat, after: map<Address, Detail>)
    requires Penalize(s, a, value, height).Done? && after == Penalize(s, a, value, height).st.punished
    requires before == if a in s.punished then s.punished[a].value else 0
    ensures a in after && (after[a].value == before + value <==> before + value < TWO64)
    ensures forall b :: b != a ==> (b in after <==> b in s.punished) && (b in after ==> after[b] == s.punished[b])
  {
    PenalizeRecords(s, a, value, height);
  }
}
