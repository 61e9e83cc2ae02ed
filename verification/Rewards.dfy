/** Block emission: what a block releases, how it is shared out, and the bound on what all blocks release. */
module Rewards {

  import opened Ledger

  const INITIAL_REWARDS: nat := 62_224_000_000
  const HALVE_PERIOD: nat := 30_000_000
  const TOKENS_OF_MINERS: nat := 3_500_000_000 * ZVC
  const NO_REWARDS_HEIGHT: nat := 120_000_000

  const DAEMON_WEIGHT: nat := 440
  const MINER_WEIGHT: nat := 6460
  const USER_WEIGHT: nat := 100
  const TOTAL_WEIGHT: nat := 7000
  const ADJUST_WEIGHT: nat := 80

  function BlockRewards(height: nat): nat {
    if height > NO_REWARDS_HEIGHT then 0
    else ShiftRight(INITIAL_REWARDS, height / HALVE_PERIOD + if height / ADJUST_WEIGHT_PERIOD >= 1 then 2 else 0)
  }

  /** Go multiplies in uint64 before it divides. */
  function Share(rewards: nat, weight: nat, total: nat): nat
    requires total > 0
  {
    rewards * weight % TWO64 / total
  }

  function UserRewards(height: nat): nat {
    if BlockRewards(height) == 0 then 0 else Share(BlockRewards(height), USER_WEIGHT, TOTAL_WEIGHT)
  }

  function DaemonWeight(height: nat): nat { DAEMON_WEIGHT + height / ADJUST_WEIGHT_PERIOD * ADJUST_WEIGHT }

  function DaemonRewards(height: nat): nat {
    if BlockRewards(height) == 0 then 0 else Share(BlockRewards(height), DaemonWeight(height), TOTAL_WEIGHT)
  }

  /** The weight left to the miners; an unsigned subtraction that may wrap. */
  function MinerWeight(height: nat): nat {
    (MINER_WEIGHT - height / ADJUST_WEIGHT_PERIOD * ADJUST_WEIGHT) % TWO64
  }

  function MinerRewards(height: nat): nat {
    if BlockRewards(height) == 0 || MinerWeight(height) > TOTAL_WEIGHT then 0
    else Share(BlockRewards(height), MinerWeight(height), TOTAL_WEIGHT)
  }

  function CastorRewards(height: nat): nat { Share(MinerRewards(height), 8, 10) }

  function PackedRewards(height: nat): nat { Share(MinerRewards(height), 1, 10) }

  function VerifyRewards(height: nat): nat { Share(MinerRewards(height), 1, 10) }

  function CastorFee(gasFee: u64): nat { Share(gasFee, 9, 10) }

  function VerifyFee(gasFee: u64): nat { Share(gasFee, 1, 10) }

  /** All that one block releases to its five recipients. */
  function Emitted(height: nat): nat {
    DaemonRewards(height) + UserRewards(height) + CastorRewards(height) + PackedRewards(height) + VerifyRewards(height)
  }

  // ----- One block

  /** The rate in each stretch of heights. */
  lemma RewardRates(h: nat)
    ensures BlockRewards(h) ==
      if h < 10_000_000 then 62_224_000_000
      else if h < 30_000_000 then 15_556_000_000
      else if h < 60_000_000 then 7_778_000_000
      else if h < 90_000_000 then 3_889_000_000
      else if h < 120_000_000 then 1_944_500_000
      else if h == 120_000_000 then 972_250_000
      else 0
  {
    assert ShiftRight(INITIAL_REWARDS, 6) == 972_250_000 by { Shifts(); }
    Shifts();
  }

  lemma Shifts()
    ensures ShiftRight(INITIAL_REWARDS, 0) == 62_224_000_000
    ensures ShiftRight(INITIAL_REWARDS, 2) == 15_556_000_000
    ensures ShiftRight(INITIAL_REWARDS, 3) == 7_778_000_000
    ensures ShiftRight(INITIAL_REWARDS, 4) == 3_889_000_000
    ensures ShiftRight(INITIAL_REWARDS, 5) == 1_944_500_000
    ensures ShiftRight(INITIAL_REWARDS, 6) == 972_250_000
  {
  }

  lemma TimesMono(r: nat, w: nat, total: nat)
    requires w <= total
    ensures 0 <= r * w <= r * total
  {
  }

  lemma PartsAtMost(x: nat, y: nat, z: nat, r: nat)
    requires x + y + z == r * TOTAL_WEIGHT && r <= INITIAL_REWARDS
    ensures x % TWO64 / TOTAL_WEIGHT + y % TWO64 / TOTAL_WEIGHT + z % TWO64 / TOTAL_WEIGHT <= r
  {
  }

  lemma SharesAtMost(r: nat, d: nat, m: nat)
    requires r <= INITIAL_REWARDS && d + m + USER_WEIGHT == TOTAL_WEIGHT
    ensures Share(r, d, TOTAL_WEIGHT) + Share(r, m, TOTAL_WEIGHT) + Share(r, USER_WEIGHT, TOTAL_WEIGHT) <= r
  {
    assert r * d + r * m + r * USER_WEIGHT == r * (d + m + USER_WEIGHT);
    TimesMono(r, d, TOTAL_WEIGHT);
    TimesMono(r, m, TOTAL_WEIGHT);
    PartsAtMost(r * d, r * m, r * USER_WEIGHT, r);
  }

  /** `part` is the whole number of `parts` tenths of `whole`. */
  predicate TenthsOf(part: nat, parts: nat, whole: nat) {
    10 * part <= parts * whole < 10 * part + 10
  }

  lemma TenOf(x: nat)
    ensures 10 * (x / 10) <= x < 10 * (x / 10) + 10
  {
  }

  lemma Tenths(x: nat, parts: nat, y: nat)
    requires y == x * parts < TWO64
    ensures TenthsOf(Share(x, parts, 10), parts, x)
  {
    TenOf(y);
  }

  lemma MinerParts(x: nat)
    requires x <= INITIAL_REWARDS
    ensures TenthsOf(Share(x, 8, 10), 8, x) && TenthsOf(Share(x, 1, 10), 1, x)
    ensures Share(x, 8, 10) + Share(x, 1, 10) + Share(x, 1, 10) <= x
  {
    Tenths(x, 8, x * 8);
    Tenths(x, 1, x);
  }

  /** The five shares of a block never exceed what the block releases. */
  lemma BlockEmission(h: nat)
    ensures Emitted(h) <= BlockRewards(h)
  {
    RewardRates(h);
    if h <= NO_REWARDS_HEIGHT {
      SharesExact(h);
      SharesAtMost(BlockRewards(h), DaemonWeight(h), MinerWeight(h));
      MinerParts(MinerRewards(h));
    }
  }

  lemma ShareExact(r: nat, w: nat)
    requires r <= INITIAL_REWARDS && w <= TOTAL_WEIGHT
    ensures Share(r, w, TOTAL_WEIGHT) == r * w / TOTAL_WEIGHT
  {
    TimesMono(r, w, TOTAL_WEIGHT);
  }

  /** No product that a share is cut from wraps, nor does the miners' weight. */
  lemma SharesExact(h: nat)
    requires h <= NO_REWARDS_HEIGHT
    ensures MinerWeight(h) == MINER_WEIGHT - h / ADJUST_WEIGHT_PERIOD * ADJUST_WEIGHT
    ensures DaemonWeight(h) + MinerWeight(h) + USER_WEIGHT == TOTAL_WEIGHT
    ensures DaemonRewards(h) == BlockRewards(h) * DaemonWeight(h) / TOTAL_WEIGHT
    ensures MinerRewards(h) == BlockRewards(h) * MinerWeight(h) / TOTAL_WEIGHT
  {
    RewardRates(h);
    assert 0 <= h / ADJUST_WEIGHT_PERIOD <= 12;
    ShareExact(BlockRewards(h), DaemonWeight(h));
    ShareExact(BlockRewards(h), MinerWeight(h));
  }

  // ----- All blocks

  function Left(h: nat, end: nat, rate: nat, length: nat): nat {
    if h >= end then 0 else rate * (if end - h < length then end - h else length)
  }

  /** What the heights from `h` on can still release. */
  function Remaining(h: nat): nat {
    Left(h, 10_000_000, 62_224_000_000, 10_000_000) + Left(h, 30_000_000, 15_556_000_000, 20_000_000) +
    Left(h, 60_000_000, 7_778_000_000, 30_000_000) + Left(h, 90_000_000, 3_889_000_000, 30_000_000) +
    Left(h, 120_000_000, 1_944_500_000, 30_000_000) + Left(h, 120_000_001, 972_250_000, 1)
  }

  lemma RemainingFalls(h: nat, h': nat)
    requires h < h'
    ensures BlockRewards(h) + Remaining(h') <= Remaining(h)
  {
    RewardRates(h);
  }

  predicate Increasing(heights: seq<nat>) {
    forall i, j :: 0 <= i < j < |heights| ==> heights[i] < heights[j]
  }

  function TotalEmitted(heights: seq<nat>): nat {
    if heights == [] then 0 else Emitted(heights[0]) + TotalEmitted(heights[1..])
  }

  lemma {:induction false} EmittedFrom(heights: seq<nat>, from: nat)
    requires Increasing(heights) && (heights != [] ==> from <= heights[0])
    ensures TotalEmitted(heights) <= Remaining(from)
    decreases |heights|
  {
    if heights != [] {
      BlockEmission(heights[0]);
      EmittedFrom(heights[1..], heights[0] + 1);
      RemainingFalls(heights[0], heights[0] + 1);
      if from < heights[0] { RemainingFalls(from, heights[0]); }
    }
  }

  lemma SharesFit(h: nat)
    ensures MinerRewards(h) <= INITIAL_REWARDS
  {
    BlockEmission(h);
    RewardRates(h);
    if BlockRewards(h) > 0 { SharesExact(h); TimesMono(BlockRewards(h), MinerWeight(h), TOTAL_WEIGHT); }
  }

  /** The castor gets eight tenths of the miners' part, and packer and verifiers one tenth each. */
  lemma MinerShares(h: nat)
    ensures TenthsOf(CastorRewards(h), 8, MinerRewards(h))
    ensures TenthsOf(PackedRewards(h), 1, MinerRewards(h)) && TenthsOf(VerifyRewards(h), 1, MinerRewards(h))
  {
    SharesFit(h);
    MinerParts(MinerRewards(h));
  }

  /** The shares of each block, as the whole number of seven-thousandths of what it releases: users 100, daemons 440
      and 80 more every ten million heights, and the miners the rest. */
  lemma NodeShares(h: nat)
    ensures 7000 * UserRewards(h) <= 100 * BlockRewards(h) < 7000 * UserRewards(h) + 7000
    ensures h <= 120_000_000 ==>
              var more := 80 * (h / 10_000_000);
              && 7000 * DaemonRewards(h) <= (440 + more) * BlockRewards(h) < 7000 * DaemonRewards(h) + 7000
              && 7000 * MinerRewards(h) <= (6460 - more) * BlockRewards(h) < 7000 * MinerRewards(h) + 7000
    ensures h > 120_000_000 ==> DaemonRewards(h) == UserRewards(h) == MinerRewards(h) == 0
  {
    RewardRates(h);
    if h <= 120_000_000 {
      SharesExact(h);
      var r, d, m := BlockRewards(h), DaemonWeight(h), MinerWeight(h);
      DivideShare(r * d);
      DivideShare(r * m);
    }
  }

  lemma DivideShare(x: nat)
    ensures 7000 * (x / 7000) <= x < 7000 * (x / 7000) + 7000
  {
  }

  /** The first stretch in full: what each of the five recipients gets of every block. */
  lemma FirstShares(h: nat)
    requires h < 10_000_000
    ensures UserRewards(h) == 888_914_285 && DaemonRewards(h) == 3_911_222_857
    ensures CastorRewards(h) == 45_939_090_285 && PackedRewards(h) == VerifyRewards(h) == 5_742_386_285
  {
    RewardRates(h);
    assert h / ADJUST_WEIGHT_PERIOD == 0;
    assert MinerRewards(h) == 57_423_862_857;
  }

  /** However many blocks there are, all shares together stay within the tokens set aside for miners. */
  lemma EmissionBound(heights: seq<nat>)
    requires Increasing(heights)
    ensures TotalEmitted(heights) <= Remaining(0) == 1_341_705_000_972_250_000 <= TOKENS_OF_MINERS
  {
    EmittedFrom(heights, 0);
  }

  /** A fee splits exactly while nine times the fee fits in 64 bits; above that the castor gets too little. */
  lemma FeeSplit(gasFee: u64)
    ensures CastorFee(gasFee) == gasFee * 9 / 10 <==> gasFee * 9 < TWO64
    ensures CastorFee(gasFee) <= gasFee * 9 / 10
    ensures VerifyFee(gasFee) == gasFee / 10 && CastorFee(gasFee) + VerifyFee(gasFee) <= gasFee
    ensures gasFee * 9 < TWO64 ==> gasFee - 1 <= CastorFee(gasFee) + VerifyFee(gasFee)
  {
  }
}
