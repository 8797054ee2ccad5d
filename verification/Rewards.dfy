/**
 * Epoch accounts and pool rewards (src/rewards_calculation.rs): exact rational arithmetic, floored to whole
 * lovelace, over unsigned 64-bit amounts. Rationals are modelled by `real`.
 */
module Rewards {
  import opened Arithmetic
  import opened Wrappers

  const I64_MAX: nat := 0x7FFF_FFFF_FFFF_FFFF

  // ----- rational arithmetic -----

  /** Product and quotient of rationals, named so that the proofs below can treat them as unknowns. */
  function Times(x: real, y: real): real { x * y }

  function Over(x: real, y: real): real
    requires y > 0.0
  {
    x / y
  }

  lemma TimesBounds(x: real, c: real)
    requires x >= 0.0 && -1.0 <= c <= 1.0
    ensures -x <= Times(x, c) <= x
    ensures c >= 0.0 ==> Times(x, c) >= 0.0
  {
    hide Times;
    TimesSign(x, 1.0 - c);
    TimesSign(x, 1.0 + c);
    TimesSum(x, 1.0, c);
    TimesSum(x, 1.0, -c);
    TimesNegated(x, c);
    TimesOne(x);
    if c >= 0.0 {
      TimesSign(x, c);
    }
  }

  lemma TimesSign(x: real, y: real)
    requires x >= 0.0 && y >= 0.0
    ensures Times(x, y) >= 0.0
  {
  }

  lemma TimesOne(x: real)
    ensures Times(x, 1.0) == x
  {
  }

  lemma TimesNegated(r: real, x: real)
    ensures Times(r, -x) == -Times(r, x)
  {
  }

  lemma TimesOrder(a: real, b: real, x: real, y: real)
    requires 0.0 <= a <= b && 0.0 <= x <= y
    ensures 0.0 <= Times(a, x) <= Times(b, y)
  {
    hide Times;
    TimesSign(a, x);
    TimesSign(b, y - x);
    TimesSign(b - a, x);
    TimesSum(b, y, -x);
    TimesNegated(b, x);
    TimesSymmetric(b - a, x);
    TimesSum(x, b, -a);
    TimesNegated(x, a);
    TimesSymmetric(x, a);
    TimesSymmetric(x, b);
  }

  lemma TimesSymmetric(x: real, y: real)
    ensures Times(x, y) == Times(y, x)
  {
  }

  lemma TimesSum(a: real, x: real, y: real)
    ensures Times(a, x + y) == Times(a, x) + Times(a, y)
  {
  }

  lemma OverOrder(x: real, y: real, z: real)
    requires 0.0 < z && x <= y
    ensures Over(x, z) <= Over(y, z)
    ensures x >= 0.0 ==> Over(x, z) >= 0.0
    ensures y <= z ==> Over(y, z) <= 1.0
    ensures x >= -z ==> Over(x, z) >= -1.0
  {
    var p, q := x / z, y / z;
    assert p * z == x && q * z == y;
    assert (q - p) * z == y - x;
    assert (1.0 - q) * z == z - y;
    assert (p + 1.0) * z == x + z;
  }

  lemma OverSum(x: real, y: real, z: real)
    requires 0.0 < z
    ensures Over(x, z) + Over(y, z) == Over(x + y, z)
  {
  }

  /** Clearing the denominator of r * (c * (m / z)). */
  lemma OverCleared(r: real, c: real, m: real, z: real)
    requires 0.0 < z
    ensures Times(r, Times(c, Over(m, z))) > -1.0 <==> Times(r, Times(c, -m)) < z
  {
    hide Times, Over;
    var q := Over(m, z);
    var x := Times(r, Times(c, q));
    Rearranged(r, c, q, z);
    assert Times(q, z) == m by { OverTimes(m, z); }
    TimesNegated(c, m);
    TimesNegated(r, Times(c, m));
    AboveMinusOne(x, z);
  }

  lemma OverTimes(m: real, z: real)
    requires 0.0 < z
    ensures Times(Over(m, z), z) == m
  {
  }

  lemma Rearranged(r: real, c: real, q: real, z: real)
    ensures Times(Times(r, Times(c, q)), z) == Times(r, Times(c, Times(q, z)))
  {
  }

  lemma AboveMinusOne(x: real, z: real)
    requires 0.0 < z
    ensures x > -1.0 <==> -Times(x, z) < z
  {
    var more := x + 1.0;
    assert more * z == x * z + z;
    if more > 0.0 {
      assert more * z > 0.0;
    } else {
      assert more * z <= 0.0;
    }
  }

  /** `Ratio::to_integer`: truncation toward zero. */
  function ToInteger(x: real): int {
    if x >= 0.0 then x.Floor else -(-x).Floor
  }

  /** The cast `as u64` of a signed integer: negative values wrap around. */
  function AsU64(n: int): nat {
    n % (U64_MAX + 1)
  }

  /** `to_integer() as u64`, the way every amount is rounded. */
  function Lovelace(x: real): nat {
    AsU64(ToInteger(x))
  }

  lemma LovelaceFloors(x: real, y: real, bound: nat)
    requires 0.0 <= x <= y <= bound as real && bound <= U64_MAX
    ensures Lovelace(x) == x.Floor && (Lovelace(x) as real) <= x && Lovelace(x) <= bound
    ensures Lovelace(x) <= Lovelace(y)
  {
  }

  /** A negative amount of a lovelace or more comes out larger than any pot. */
  lemma LovelaceWraps(x: real, pot: nat)
    requires pot <= I64_MAX && -(pot as real) <= x <= pot as real
    ensures Lovelace(x) <= pot <==> x > -1.0
  {
    if x < 0.0 {
      var n := (-x).Floor;
      assert 0 <= n <= pot;
      assert x > -1.0 <==> n == 0;
    } else {
      LovelaceFloors(x, x, pot);
    }
  }

  // ----- treasury and reserves -----

  datatype ProtocolParams = ProtocolParams(rho: real, tau: real, stakeInfluence: real, optimalPools: nat)

  datatype Accounts = Accounts(treasury: nat, reserves: nat)

  /** What the update returns: the new accounts, the expansion, the treasury cut and the pot left to the pools. */
  datatype EpochUpdate = EpochUpdate(accounts: Accounts, distribution: nat, treasuryCut: nat, poolPot: nat)

  predicate Admissible(params: ProtocolParams) {
    0.0 <= params.rho <= 1.0 && 0.0 <= params.tau <= 1.0
  }

  function CappedPerformance(eta: real): real { if eta > 1.0 then 1.0 else eta }

  function CalculateMonetaryExpansion(reserves: nat, rho: real, eta: real): nat {
    Lovelace(Times(Times(reserves as real, rho), CappedPerformance(eta)))
  }

  function CalculateTreasuryCut(pot: nat, tau: real): nat {
    Lovelace(Times(pot as real, tau))
  }

  /** The update in the order of the source; `None` when an unsigned 64-bit sum or difference leaves its range. */
  function UpdateEpochAccounts(a: Accounts, params: ProtocolParams, eta: real, fees: nat): Option<EpochUpdate> {
    var distribution := CalculateMonetaryExpansion(a.reserves, params.rho, eta);
    if distribution + fees > U64_MAX then None else
    var cut := CalculateTreasuryCut(distribution + fees, params.tau);
    if cut > distribution + fees || a.treasury + cut > U64_MAX || a.reserves + fees > U64_MAX
       || cut > a.reserves + fees then None else
    Some(EpochUpdate(Accounts(a.treasury + cut, a.reserves + fees - cut), distribution, cut, distribution + fees - cut))
  }

  /** The expansion never exceeds the reserves it is taken from. */
  lemma ExpansionWithinReserves(reserves: nat, rho: real, eta: real)
    requires reserves <= U64_MAX && 0.0 <= rho <= 1.0 && 0.0 <= eta
    ensures CalculateMonetaryExpansion(reserves, rho, eta) <= reserves
  {
    hide Times, Lovelace;
    TimesBounds(reserves as real, rho);
    TimesBounds(Times(reserves as real, rho), CappedPerformance(eta));
    var x := Times(Times(reserves as real, rho), CappedPerformance(eta));
    LovelaceFloors(x, x, reserves);
  }

  /** The cut never exceeds the pot it is taken from. */
  lemma CutWithinPot(pot: nat, tau: real)
    requires pot <= U64_MAX && 0.0 <= tau <= 1.0
    ensures CalculateTreasuryCut(pot, tau) <= pot
  {
    hide Times, Lovelace;
    TimesBounds(pot as real, tau);
    LovelaceFloors(Times(pot as real, tau), Times(pot as real, tau), pot);
  }

  /** The expansion is the whole part of reserves times rho times performance, a performance above one counting as one.
      */
  lemma ExpansionFloors(reserves: nat, rho: real, eta: real)
    requires reserves <= U64_MAX && 0.0 <= rho <= 1.0 && 0.0 <= eta
    ensures eta <= 1.0 ==> CalculateMonetaryExpansion(reserves, rho, eta) == (reserves as real * rho * eta).Floor
    ensures eta >= 1.0 ==> CalculateMonetaryExpansion(reserves, rho, eta) == (reserves as real * rho).Floor
  {
    hide Lovelace;
    var full := Times(reserves as real, rho);
    TimesBounds(reserves as real, rho);
    TimesBounds(full, if eta <= 1.0 then eta else 1.0);
    TimesOne(full);
    LovelaceFloors(full, full, reserves);
    if eta <= 1.0 {
      LovelaceFloors(Times(full, eta), full, reserves);
    }
  }

  /** The cut is the whole part of the pot times tau. */
  lemma CutFloors(pot: nat, tau: real)
    requires pot <= U64_MAX && 0.0 <= tau <= 1.0
    ensures CalculateTreasuryCut(pot, tau) == (pot as real * tau).Floor
  {
    hide Lovelace;
    TimesBounds(pot as real, tau);
    LovelaceFloors(Times(pot as real, tau), Times(pot as real, tau), pot);
  }

  /**
   * One epoch, exactly: the update goes through if and only if the two sums fit in 64 bits. No subtraction can
   * then underflow, the expansion is the floor of reserves times rho times performance capped at one, the treasury
   * grows by the floor of tau times expansion plus fees, treasury and reserves together grow by exactly the fees,
   * and expansion plus fees is split without remainder between treasury and pools.
   */
  lemma UpdateConserves(a: Accounts, params: ProtocolParams, eta: real, fees: nat)
    requires a.reserves <= U64_MAX && Admissible(params) && 0.0 <= eta
    ensures var cut := CalculateTreasuryCut(CalculateMonetaryExpansion(a.reserves, params.rho, eta) + fees, params.tau);
            UpdateEpochAccounts(a, params, eta, fees).Some?
            <==> a.reserves + fees <= U64_MAX && a.treasury + cut <= U64_MAX
    ensures UpdateEpochAccounts(a, params, eta, fees).Some? ==>
              var u := UpdateEpochAccounts(a, params, eta, fees).value;
              && u.accounts.treasury + u.accounts.reserves == a.treasury + a.reserves + fees
              && u.accounts.treasury >= a.treasury
              && (eta <= 1.0 ==> u.distribution == (a.reserves as real * params.rho * eta).Floor)
              && (eta >= 1.0 ==> u.distribution == (a.reserves as real * params.rho).Floor)
              && u.treasuryCut == ((u.distribution + fees) as real * params.tau).Floor
              && u.accounts.treasury == a.treasury + u.treasuryCut
              && u.accounts.treasury - a.treasury + u.poolPot == u.distribution + fees
              && u.distribution <= a.reserves
              && u.accounts.reserves == a.reserves - u.distribution + u.poolPot
    ensures a.treasury + a.reserves + fees <= U64_MAX ==> UpdateEpochAccounts(a, params, eta, fees).Some?
  {
    hide CalculateMonetaryExpansion, CalculateTreasuryCut;
    ExpansionWithinReserves(a.reserves, params.rho, eta);
    ExpansionFloors(a.reserves, params.rho, eta);
    var pot := CalculateMonetaryExpansion(a.reserves, params.rho, eta) + fees;
    if pot <= U64_MAX {
      CutWithinPot(pot, params.tau);
      CutFloors(pot, params.tau);
    }
  }

  /** The cut takes everything exactly when the rate is one or there is nothing to take. */
  lemma WholePotCutExactWhen(pot: nat, tau: real)
    requires pot <= U64_MAX && 0.0 <= tau <= 1.0
    ensures CalculateTreasuryCut(pot, tau) == pot <==> tau == 1.0 || pot == 0
  {
    hide Times, Lovelace;
    var x := Times(pot as real, tau);
    TimesBounds(pot as real, tau);
    LovelaceFloors(x, x, pot);
    TimesOne(pot as real);
    if tau == 1.0 {
      LovelaceFloors(pot as real, pot as real, pot);
    } else if pot > 0 {
      TimesPositive(pot as real, 1.0 - tau);
      TimesSum(pot as real, 1.0, -tau);
      TimesNegated(pot as real, tau);
    }
  }

  /** The source's own comment takes the whole expansion out of the reserves. That is what happens exactly when the
      treasury rate is one or there is neither expansion nor fee: then nothing is left to the pools. */
  lemma ReservesLoseExpansionExactWhen(a: Accounts, params: ProtocolParams, eta: real, fees: nat)
    requires a.reserves <= U64_MAX && Admissible(params) && 0.0 <= eta
    requires UpdateEpochAccounts(a, params, eta, fees).Some?
    ensures var u := UpdateEpochAccounts(a, params, eta, fees).value;
            u.accounts.reserves == a.reserves - u.distribution
            <==> params.tau == 1.0 || CalculateMonetaryExpansion(a.reserves, params.rho, eta) + fees == 0
  {
    hide CalculateMonetaryExpansion, CalculateTreasuryCut;
    UpdateConserves(a, params, eta, fees);
    WholePotCutExactWhen(CalculateMonetaryExpansion(a.reserves, params.rho, eta) + fees, params.tau);
  }

  /** A tenth of a thousand lovelace expanded, half of it cut: the reserves lose fifty, not a hundred. */
  lemma ReservesLoseLess()
    ensures UpdateEpochAccounts(Accounts(0, 1000), ProtocolParams(0.1, 0.5, 0.0, 1), 1.0, 0)
         == Some(EpochUpdate(Accounts(50, 950), 100, 50, 50))
  {
    hide Times, Lovelace;
    ThousandExpands();
    HundredSplits();
  }

  lemma ThousandExpands()
    ensures Times(Times(1000.0, 0.1), 1.0) == 100.0 && Lovelace(100.0) == 100
  {
  }

  lemma HundredSplits()
    ensures Times(100.0, 0.5) == 50.0 && Lovelace(50.0) == 50
  {
  }

  /** What an epoch boundary is given. */
  datatype Epoch = Epoch(params: ProtocolParams, eta: real, fees: nat)

  function Fees(epochs: seq<Epoch>): nat {
    if epochs == [] then 0 else Fees(epochs[..|epochs| - 1]) + epochs[|epochs| - 1].fees
  }

  function RunEpochs(a: Accounts, epochs: seq<Epoch>): Option<Accounts> {
    if epochs == [] then Some(a) else
    var before := RunEpochs(a, epochs[..|epochs| - 1]);
    if before.None? then None else
    var e := epochs[|epochs| - 1];
    var u := UpdateEpochAccounts(before.value, e.params, e.eta, e.fees);
    if u.None? then None else Some(u.value.accounts)
  }

  /**
   * Over any number of epochs whose lovelace fits in 64 bits the run goes through, the accounts hold exactly what
   * they started with plus every fee, and the treasury has not fallen since any earlier epoch.
   */
  lemma {:induction false} RunConserves(a: Accounts, epochs: seq<Epoch>, m: nat)
    requires forall i :: 0 <= i < |epochs| ==> Admissible(epochs[i].params) && 0.0 <= epochs[i].eta
    requires a.treasury + a.reserves + Fees(epochs) <= U64_MAX
    requires m <= |epochs|
    ensures RunEpochs(a, epochs).Some? && RunEpochs(a, epochs[..m]).Some?
    ensures var end := RunEpochs(a, epochs).value;
            && end.treasury + end.reserves == a.treasury + a.reserves + Fees(epochs)
            && RunEpochs(a, epochs[..m]).value.treasury <= end.treasury
    decreases |epochs|
  {
    hide UpdateEpochAccounts;
    if epochs == [] {
      assert epochs[..m] == epochs;
    } else {
      var n := |epochs|;
      var front := epochs[..n - 1];
      RunConserves(a, front, if m < n then m else n - 1);
      var before := RunEpochs(a, front).value;
      var e := epochs[n - 1];
      UpdateConserves(before, e.params, e.eta, e.fees);
      if m < n {
        assert epochs[..m] == front[..m];
      } else {
        assert front[..n - 1] == front;
        assert epochs[..m] == epochs;
      }
    }
  }

  // ----- pool rewards -----

  datatype PoolInfo = PoolInfo(pledge: nat, stake: nat, blocks: nat)

  function SaturationThreshold(optimalPools: nat): (z: real)
    requires optimalPools >= 1
    ensures 0.0 < z <= 1.0
  {
    1.0 / (optimalPools as real)
  }

  function Fraction(amount: nat, total: nat): real
    requires total >= 1
  {
    Over(amount as real, total as real)
  }

  /** Stake and pledge are capped at the saturation threshold in the same way. */
  function Effective(amount: nat, active: nat, z: real): real
    requires active >= 1
  {
    if Fraction(amount, active) > z then z else Fraction(amount, active)
  }

  function OptimalRewardFactor(s: real, p: real, z: real, a0: real): real
    requires z > 0.0
  {
    Times(Times(s, a0), Over(s - Times(p, z - s), z))
  }

  function OptimalPoolReward(pot: nat, factor: real): nat {
    Lovelace(Times(pot as real, factor))
  }

  function PoolFactor(pool: PoolInfo, active: nat, params: ProtocolParams): real
    requires active >= 1 && params.optimalPools >= 1
  {
    var z := SaturationThreshold(params.optimalPools);
    OptimalRewardFactor(Effective(pool.stake, active, z), Effective(pool.pledge, active, z), z, params.stakeInfluence)
  }

  function ExpectedBlocks(stake: nat, active: nat, epochBlocks: nat): (e: nat)
    requires active >= 1
    ensures e >= 1
  {
    var e := ToInteger(Times(epochBlocks as real, Fraction(stake, active)));
    if e < 1 then 1 else e
  }

  function GrossPoolReward(optimal: nat, performance: real): nat {
    Lovelace(Times(optimal as real, performance))
  }

  datatype PoolReward = PoolReward(optimal: nat, gross: nat, stake: real, pledge: real, performance: real)

  function CalculatePoolRewards(pool: PoolInfo, pot: nat, active: nat, epochBlocks: nat,
                                params: ProtocolParams): PoolReward
    requires active >= 1 && params.optimalPools >= 1
  {
    var z := SaturationThreshold(params.optimalPools);
    var optimal := OptimalPoolReward(pot, PoolFactor(pool, active, params));
    var performance := Over(pool.blocks as real, ExpectedBlocks(pool.stake, active, epochBlocks) as real);
    PoolReward(optimal, GrossPoolReward(optimal, performance), Effective(pool.stake, active, z),
               Effective(pool.pledge, active, z), performance)
  }

  lemma EffectiveBounds(a: nat, b: nat, active: nat, z: real)
    requires active >= 1 && 0.0 < z && a <= b
    ensures 0.0 <= Effective(a, active, z) <= Effective(b, active, z) <= z
    ensures Effective(a, active, z) <= Fraction(a, active)
    ensures Fraction(a, active) >= z ==> Effective(a, active, z) == Effective(b, active, z) == z
    ensures b <= active ==> Fraction(b, active) <= 1.0
  {
    hide Over;
    OverOrder(a as real, b as real, active as real);
  }

  /**
   * For effective stake and pledge in range the factor lies between minus one and the stake itself; it is not
   * negative when the pledge is met.
   */
  lemma FactorBounds(s: real, p: real, z: real, a0: real)
    requires 0.0 <= s <= z <= 1.0 && 0.0 <= p <= z && 0.0 < z && 0.0 <= a0 <= 1.0
    ensures -1.0 <= OptimalRewardFactor(s, p, z, a0) <= s
    ensures p <= s ==> 0.0 <= OptimalRewardFactor(s, p, z, a0)
  {
    hide Times, Over;
    TimesBounds(p, z - s);
    TimesSymmetric(p, z - s);
    TimesBounds(z - s, p);
    var m := s - Times(p, z - s);
    OverOrder(m, m, z);
    TimesBounds(s, a0);
    TimesBounds(Times(s, a0), Over(m, z));
  }

  /** No reward factor of a pool that meets its pledge is negative, and none exceeds the pool's share of the stake. */
  lemma PoolFactorBounds(pool: PoolInfo, active: nat, params: ProtocolParams)
    requires active >= 1 && params.optimalPools >= 1 && 0.0 <= params.stakeInfluence <= 1.0
    ensures -1.0 <= PoolFactor(pool, active, params) <= Fraction(pool.stake, active)
    ensures pool.pledge <= pool.stake ==> 0.0 <= PoolFactor(pool, active, params)
  {
    hide OptimalRewardFactor, SaturationThreshold, Effective, Fraction;
    var z := SaturationThreshold(params.optimalPools);
    EffectiveBounds(pool.stake, pool.stake, active, z);
    EffectiveBounds(pool.pledge, pool.pledge, active, z);
    if pool.pledge <= pool.stake {
      EffectiveBounds(pool.pledge, pool.stake, active, z);
    }
    FactorBounds(Effective(pool.stake, active, z), Effective(pool.pledge, active, z), z, params.stakeInfluence);
  }

  function TotalStake(pools: seq<PoolInfo>): nat {
    if pools == [] then 0 else TotalStake(pools[..|pools| - 1]) + pools[|pools| - 1].stake
  }

  function TotalOptimal(pools: seq<PoolInfo>, pot: nat, active: nat, epochBlocks: nat, params: ProtocolParams): nat
    requires active >= 1 && params.optimalPools >= 1
  {
    if pools == [] then 0 else
    TotalOptimal(pools[..|pools| - 1], pot, active, epochBlocks, params)
    + CalculatePoolRewards(pools[|pools| - 1], pot, active, epochBlocks, params).optimal
  }

  /** One pool's optimal reward is at most its share of the pot. */
  lemma RewardWithinShare(pool: PoolInfo, pot: nat, active: nat, params: ProtocolParams)
    requires active >= 1 && params.optimalPools >= 1 && 0.0 <= params.stakeInfluence <= 1.0
    requires pot <= U64_MAX && pool.stake <= active && pool.pledge <= pool.stake
    ensures (OptimalPoolReward(pot, PoolFactor(pool, active, params)) as real)
         <= Times(pot as real, Fraction(pool.stake, active))
  {
    hide PoolFactor, Fraction, Times, Lovelace;
    PoolFactorBounds(pool, active, params);
    EffectiveBounds(pool.stake, pool.stake, active, 1.0);
    var f, share := PoolFactor(pool, active, params), Fraction(pool.stake, active);
    TimesOrder(pot as real, pot as real, f, share);
    TimesBounds(pot as real, share);
    LovelaceFloors(Times(pot as real, f), Times(pot as real, share), pot);
  }

  lemma {:induction false} TotalWithinShare(pools: seq<PoolInfo>, pot: nat, active: nat, epochBlocks: nat,
                                            params: ProtocolParams)
    requires active >= 1 && params.optimalPools >= 1 && 0.0 <= params.stakeInfluence <= 1.0
    requires pot <= U64_MAX && TotalStake(pools) <= active
    requires forall i :: 0 <= i < |pools| ==> pools[i].pledge <= pools[i].stake
    ensures (TotalOptimal(pools, pot, active, epochBlocks, params) as real)
         <= Times(pot as real, Fraction(TotalStake(pools), active))
  {
    hide OptimalPoolReward, PoolFactor, Effective, ExpectedBlocks, GrossPoolReward, Times, Over;
    if pools == [] {
      OverOrder(0.0, 0.0, active as real);
      TimesBounds(pot as real, Fraction(0, active));
    } else {
      var n := |pools| - 1;
      var front, last := pools[..n], pools[n];
      TotalWithinShare(front, pot, active, epochBlocks, params);
      RewardWithinShare(last, pot, active, params);
      OverSum(TotalStake(front) as real, last.stake as real, active as real);
      TimesSum(pot as real, Fraction(TotalStake(front), active), Fraction(last.stake, active));
    }
  }

  /** The optimal rewards of any list of pools that meet their pledges never exceed the pot. */
  lemma OptimalRewardsFitPot(pools: seq<PoolInfo>, pot: nat, active: nat, epochBlocks: nat, params: ProtocolParams)
    requires active >= 1 && params.optimalPools >= 1 && 0.0 <= params.stakeInfluence <= 1.0
    requires pot <= U64_MAX && TotalStake(pools) <= active
    requires forall i :: 0 <= i < |pools| ==> pools[i].pledge <= pools[i].stake
    ensures TotalOptimal(pools, pot, active, epochBlocks, params) <= pot
  {
    hide TotalOptimal, Times, Over;
    TotalWithinShare(pools, pot, active, epochBlocks, params);
    OverOrder(0.0, TotalStake(pools) as real, active as real);
    OverOrder(TotalStake(pools) as real, TotalStake(pools) as real, active as real);
    TimesBounds(pot as real, Fraction(TotalStake(pools), active));
  }

  // ----- a pool below its pledge -----

  /**
   * The source never compares pledge and stake. For every pool, met pledge or not, the exact condition for its
   * optimal reward to be no larger than the pot: what a missed pledge takes off must stay below one lovelace.
   * Otherwise the negative reward wraps around in the cast to an unsigned integer.
   */
  lemma RewardFitsPotExactWhen(pool: PoolInfo, pot: nat, active: nat, params: ProtocolParams)
    requires active >= 1 && params.optimalPools >= 1 && 0.0 <= params.stakeInfluence <= 1.0
    requires pot <= I64_MAX && pool.stake <= active
    ensures var z := SaturationThreshold(params.optimalPools);
            var s, p := Effective(pool.stake, active, z), Effective(pool.pledge, active, z);
            OptimalPoolReward(pot, PoolFactor(pool, active, params)) <= pot
            <==> Times(pot as real, Times(Times(s, params.stakeInfluence), Times(p, z - s) - s)) < z
  {
    hide Times, Over, SaturationThreshold, Effective, Lovelace;
    var z := SaturationThreshold(params.optimalPools);
    var s, p := Effective(pool.stake, active, z), Effective(pool.pledge, active, z);
    var f, m := PoolFactor(pool, active, params), s - Times(p, z - s);
    PoolFactorBounds(pool, active, params);
    EffectiveBounds(pool.stake, pool.stake, active, z);
    TimesBounds(pot as real, f);
    LovelaceWraps(Times(pot as real, f), pot);
    OverCleared(pot as real, Times(s, params.stakeInfluence), m, z);
    assert -m == Times(p, z - s) - s;
  }

  /**
   * A concrete pool below its pledge: 60 lovelace pledged and 5 delegated of 100, two optimal pools, full
   * influence. From a pot of 100000 it is paid almost two to the sixty-fourth lovelace.
   */
  lemma MissedPledgeWraps()
    ensures OptimalPoolReward(100000, PoolFactor(PoolInfo(60, 5, 0), 100, ProtocolParams(0.0, 0.0, 1.0, 2)))
         == U64_MAX + 1 - 1750
  {
    assert PoolFactor(PoolInfo(60, 5, 0), 100, ProtocolParams(0.0, 0.0, 1.0, 2)) == -0.0175;
  }

  // ----- growth with stake -----

  /** For a fixed pledge that is met, the factor does not fall as the effective stake grows. */
  lemma FactorMonotone(s: real, t: real, p: real, z: real, a0: real)
    requires 0.0 <= p <= s <= t <= z <= 1.0 && 0.0 < z && 0.0 <= a0 <= 1.0
    ensures OptimalRewardFactor(s, p, z, a0) <= OptimalRewardFactor(t, p, z, a0)
  {
    hide Times, Over;
    TimesBounds(p, z - s);
    TimesOrder(p, p, z - t, z - s);
    var m, n := s - Times(p, z - s), t - Times(p, z - t);
    OverOrder(m, n, z);
    TimesOrder(s, t, a0, a0);
    TimesOrder(Times(s, a0), Times(t, a0), Over(m, z), Over(n, z));
  }

  /**
   * With pledge, pot and active stake fixed, delegating more stake to a pool that meets its pledge never lowers
   * its optimal reward, and past saturation it no longer changes it.
   */
  lemma RewardGrowsWithStake(pool: PoolInfo, more: nat, pot: nat, active: nat, params: ProtocolParams)
    requires active >= 1 && params.optimalPools >= 1 && 0.0 <= params.stakeInfluence <= 1.0
    requires pot <= U64_MAX && pool.pledge <= pool.stake <= more <= active
    ensures OptimalPoolReward(pot, PoolFactor(pool, active, params))
         <= OptimalPoolReward(pot, PoolFactor(pool.(stake := more), active, params))
    ensures Fraction(pool.stake, active) >= SaturationThreshold(params.optimalPools) ==>
              OptimalPoolReward(pot, PoolFactor(pool, active, params))
              == OptimalPoolReward(pot, PoolFactor(pool.(stake := more), active, params))
  {
    hide OptimalRewardFactor, SaturationThreshold, Fraction, Effective, Lovelace, Times;
    var z := SaturationThreshold(params.optimalPools);
    var richer := pool.(stake := more);
    EffectiveBounds(pool.pledge, pool.stake, active, z);
    EffectiveBounds(pool.stake, more, active, z);
    FactorMonotone(Effective(pool.stake, active, z), Effective(more, active, z), Effective(pool.pledge, active, z),
                   z, params.stakeInfluence);
    PoolFactorBounds(pool, active, params);
    PoolFactorBounds(richer, active, params);
    var f, g := PoolFactor(pool, active, params), PoolFactor(richer, active, params);
    TimesOrder(pot as real, pot as real, f, g);
    TimesBounds(pot as real, g);
    LovelaceFloors(Times(pot as real, f), Times(pot as real, g), pot);
  }

  // ----- the amounts themselves -----

  /** A share of the stake is capped at one k-th: the comparison in whole numbers. */
  lemma EffectiveIs(amount: nat, active: nat, pools: nat)
    requires active >= 1 && pools >= 1
    ensures Effective(amount, active, SaturationThreshold(pools))
         == Share(amount, active, pools)
  {
    var k, a, x := pools as real, active as real, amount as real;
    TimesWhole(amount, pools);
    ShareAgainstThreshold(x, a, k);
  }

  lemma ShareAgainstThreshold(x: real, a: real, k: real)
    requires a > 0.0 && k > 0.0
    ensures Times(x, k) > a ==> Over(x, a) > Over(1.0, k)
    ensures Times(x, k) == a ==> Over(x, a) == Over(1.0, k)
    ensures Times(x, k) < a ==> Over(x, a) < Over(1.0, k)
  {
    hide Times, Over;
    var d := Over(x, a) - Over(1.0, k);
    Cleared(x, a, k);
    TimesPositive(a, k);
    TimesNegated(Times(a, k), d);
    if d > 0.0 {
      TimesPositive(Times(a, k), d);
    } else if d < 0.0 {
      TimesPositive(Times(a, k), -d);
    }
  }

  lemma Cleared(x: real, a: real, k: real)
    requires a > 0.0 && k > 0.0
    ensures Times(Times(a, k), Over(x, a) - Over(1.0, k)) == Times(x, k) - a
  {
    var p, q := x / a, 1.0 / k;
    assert a * p == x && k * q == 1.0;
    assert a * k * p == k * (a * p);
    assert a * k * q == a * (k * q);
  }

  /** Of all blocks of the epoch a pool is expected to make its share of the stake, rounded down, but at least one. */
  lemma ExpectedIs(stake: nat, active: nat, epochBlocks: nat)
    requires active >= 1
    ensures ExpectedBlocks(stake, active, epochBlocks)
         == if epochBlocks * stake < active then 1 else epochBlocks * stake / active
  {
    hide Times, Over, ToInteger;
    TimesOver(epochBlocks as real, stake as real, active as real);
    TimesWhole(epochBlocks, stake);
    WholeQuotient(epochBlocks * stake, active);
    QuotientWithin(epochBlocks * stake, active, 0);
  }

  /** A share of the stake, at most a k-th, and the design's formula for what a pool with such shares is due. */
  ghost function Share(amount: nat, active: nat, k: nat): real
    requires active >= 1 && k >= 1
  {
    if amount * k >= active then 1.0 / k as real else amount as real / active as real
  }

  ghost function Due(pot: real, stake: real, pledge: real, influence: real, k: real): real
    requires k > 0.0
  {
    pot * (stake * influence * ((stake - pledge * (1.0 / k - stake)) * k))
  }

  /**
   * What a pool is paid: what it is due, rounded down. A negative amount, of a pool below its pledge, is rounded up
   * and then taken from two to the sixty-fourth.
   */
  lemma OptimalIs(pool: PoolInfo, pot: nat, active: nat, params: ProtocolParams)
    requires active >= 1 && params.optimalPools >= 1
    ensures var k := params.optimalPools;
            var due := Due(pot as real, Share(pool.stake, active, k), Share(pool.pledge, active, k),
                           params.stakeInfluence, k as real);
            var paid := OptimalPoolReward(pot, PoolFactor(pool, active, params));
            && (due >= 0.0 ==> paid == due.Floor % (U64_MAX + 1))
            && (due <= 0.0 ==> paid == -(-due).Floor % (U64_MAX + 1))
  {
    hide Effective, OptimalRewardFactor, Due, Lovelace, Share;
    var k := params.optimalPools;
    EffectiveIs(pool.stake, active, k);
    EffectiveIs(pool.pledge, active, k);
    var s, p := Share(pool.stake, active, k), Share(pool.pledge, active, k);
    DueIsFactor(pot as real, s, p, params.stakeInfluence, k as real);
    LovelaceRounds(Due(pot as real, s, p, params.stakeInfluence, k as real));
  }

  lemma DueIsFactor(pot: real, s: real, p: real, a0: real, k: real)
    requires k > 0.0
    ensures Due(pot, s, p, a0, k) == Times(pot, OptimalRewardFactor(s, p, 1.0 / k, a0))
  {
    var m := s - p * (1.0 / k - s);
    OverInverse(m, k);
  }

  lemma OverInverse(m: real, k: real)
    requires k > 0.0
    ensures m * k == m / (1.0 / k)
  {
    var z := 1.0 / k;
    assert k * z == 1.0;
    var y := m / z;
    assert y * z == m;
    assert m * k == y * (z * k);
  }

  /** Rounding is toward zero, and what is negative comes out of the cast as its distance below 2^64. */
  lemma LovelaceRounds(x: real)
    ensures x >= 0.0 ==> Lovelace(x) == x.Floor % (U64_MAX + 1)
    ensures x <= 0.0 ==> Lovelace(x) == -(-x).Floor % (U64_MAX + 1)
  {
  }

  /** A pool with a k-th of the stake or more is due a k-th of the pot times the influence, whatever its pledge. */
  lemma SaturatedIsDue(pot: real, pledge: real, influence: real, k: real)
    requires k > 0.0
    ensures Due(pot, 1.0 / k, pledge, influence, k) == pot * influence / k
  {
    var z := 1.0 / k;
    assert z * k == 1.0;
    assert (z - pledge * (z - z)) * k == 1.0;
  }

  // ----- performance -----

  /** What the gross reward is: the whole part of optimal times blocks made over blocks expected, cast to 64 bits. */
  lemma GrossIsQuotient(pool: PoolInfo, pot: nat, active: nat, epochBlocks: nat, params: ProtocolParams)
    requires active >= 1 && params.optimalPools >= 1
    ensures var x := OptimalPoolReward(pot, PoolFactor(pool, active, params));
            var e := ExpectedBlocks(pool.stake, active, epochBlocks);
            CalculatePoolRewards(pool, pot, active, epochBlocks, params).gross == x * pool.blocks / e % (U64_MAX + 1)
  {
    hide ExpectedBlocks, PoolFactor, OptimalPoolReward, Lovelace, Times, Over;
    var x := OptimalPoolReward(pot, PoolFactor(pool, active, params));
    var e := ExpectedBlocks(pool.stake, active, epochBlocks);
    TimesOver(x as real, pool.blocks as real, e as real);
    TimesWhole(x, pool.blocks);
    QuotientFloors(x * pool.blocks, e);
  }

  /** The rest of what is reported for a pool, in whole numbers of its stake and blocks. */
  lemma ReportIs(pool: PoolInfo, pot: nat, active: nat, epochBlocks: nat, params: ProtocolParams)
    requires active >= 1 && params.optimalPools >= 1
    ensures var r := CalculatePoolRewards(pool, pot, active, epochBlocks, params);
            var due := epochBlocks * pool.stake;
            var expected := if due < active then 1 else due / active;
            && r.stake == Share(pool.stake, active, params.optimalPools)
            && r.pledge == Share(pool.pledge, active, params.optimalPools)
            && r.performance == pool.blocks as real / expected as real
            && r.gross == r.optimal * pool.blocks / expected % (U64_MAX + 1)
  {
    hide Effective, ExpectedBlocks, PoolFactor, OptimalPoolReward, GrossPoolReward, Share;
    EffectiveIs(pool.stake, active, params.optimalPools);
    EffectiveIs(pool.pledge, active, params.optimalPools);
    ExpectedIs(pool.stake, active, epochBlocks);
    GrossIsQuotient(pool, pot, active, epochBlocks, params);
  }

  lemma TimesWhole(x: nat, b: nat)
    ensures Times(x as real, b as real) == (x * b) as real
  {
  }

  lemma TimesOver(x: real, y: real, z: real)
    requires z > 0.0
    ensures Times(x, Over(y, z)) == Over(Times(x, y), z)
  {
  }

  lemma QuotientFloors(n: nat, e: nat)
    requires e >= 1
    ensures Lovelace(Over(n as real, e as real)) == n / e % (U64_MAX + 1)
  {
    hide Over, ToInteger;
    WholeQuotient(n, e);
  }

  lemma WholeQuotient(n: nat, e: nat)
    requires e >= 1
    ensures ToInteger(Over(n as real, e as real)) == n / e
  {
    hide Over;
    var q := n / e;
    WholePart(n, e);
    OverBetween(n as real, e as real, q as real);
    assert Over(n as real, e as real).Floor == q;
  }

  lemma WholePart(n: nat, e: nat)
    requires e >= 1
    ensures Times((n / e) as real, e as real) <= n as real < Times((n / e) as real, e as real) + e as real
  {
    TimesWhole(n / e, e);
  }

  lemma OverBetween(n: real, e: real, q: real)
    requires e > 0.0 && Times(q, e) <= n < Times(q, e) + e
    ensures q <= Over(n, e) < q + 1.0
  {
    hide Times, Over;
    var y := Over(n, e);
    OverTimes(n, e);
    TimesSymmetric(q, e);
    TimesSymmetric(y, e);
    TimesSum(e, y, -q);
    TimesNegated(e, q);
    TimesOne(e);
    TimesSum(e, y - q, -1.0);
    TimesNegated(e, 1.0);
    if y < q {
      TimesPositive(e, q - y);
      TimesNegated(e, y - q);
    }
    if y >= q + 1.0 {
      TimesSign(e, y - q - 1.0);
    }
  }

  lemma TimesPositive(x: real, y: real)
    requires x > 0.0 && y > 0.0
    ensures Times(x, y) > 0.0
  {
  }

  /**
   * Performance is not capped. Exactly when the gross reward stays within a bound: within the optimal reward, and
   * within the whole pot. `paid` is optimal times blocks, less what the cast to 64 bits loses.
   */
  lemma GrossStaysWithinExactWhen(pool: PoolInfo, pot: nat, active: nat, epochBlocks: nat, params: ProtocolParams)
    requires active >= 1 && params.optimalPools >= 1
    ensures var gross := CalculatePoolRewards(pool, pot, active, epochBlocks, params).gross;
            var x := OptimalPoolReward(pot, PoolFactor(pool, active, params));
            var e := ExpectedBlocks(pool.stake, active, epochBlocks);
            var paid := Paid(x, pool.blocks, e);
            && (gross <= x <==> paid < (x + 1) * e)
            && (gross <= pot <==> paid < (pot + 1) * e)
            && (gross >= x <==> x == 0 || paid >= x * e)
            && (x * pool.blocks < (U64_MAX + 1) * e ==>
                  paid == x * pool.blocks && (gross >= x <==> x == 0 || pool.blocks >= e))
  {
    hide ExpectedBlocks, CalculatePoolRewards, OptimalPoolReward, PoolFactor, Paid;
    var x := OptimalPoolReward(pot, PoolFactor(pool, active, params));
    var e := ExpectedBlocks(pool.stake, active, epochBlocks);
    var paid := Paid(x, pool.blocks, e);
    GrossIsQuotient(pool, pot, active, epochBlocks, params);
    PaidQuotient(x, pool.blocks, e);
    QuotientWithin(paid, e, x);
    QuotientWithin(paid, e, pot);
    if x > 0 {
      QuotientWithin(paid, e, x - 1);
    }
    if x * pool.blocks < (U64_MAX + 1) * e {
      QuotientReaches(x, pool.blocks, e);
    }
  }

  /** Optimal reward times blocks, less what the cast to 64 bits loses of it. */
  function Paid(optimal: nat, blocks: nat, expected: nat): nat
    requires expected >= 1
  {
    Remaining(Product(optimal, blocks), U64_MAX + 1, expected)
  }

  function Product(x: nat, y: nat): nat {
    NotNegative(x, y);
    x * y
  }

  function Remaining(n: nat, m: nat, e: nat): nat
    requires m >= 1 && e >= 1
  {
    assert Product(m, e) >= 1;
    n % Product(m, e)
  }

  lemma PaidQuotient(x: nat, b: nat, e: nat)
    requires e >= 1
    ensures Paid(x, b, e) / e == x * b / e % (U64_MAX + 1)
    ensures x * b < (U64_MAX + 1) * e ==> Paid(x, b, e) == x * b
  {
    hide Remaining;
    RemainderQuotient(Product(x, b), U64_MAX + 1, e);
    if x * b < (U64_MAX + 1) * e {
      NothingLost(Product(x, b), U64_MAX + 1, e);
    }
  }

  /** Dividing what remains modulo m * e by e gives the quotient modulo m. */
  lemma RemainderQuotient(n: nat, m: nat, e: nat)
    requires m >= 1 && e >= 1
    ensures Remaining(n, m, e) / e == n / e % m
  {
    hide Product;
    var q := n / e;
    var s, r := q % m, n % e;
    Divide(n, e);
    Divide(q, m);
    TwoDivisions(q / m, m, s, e, r);
    DivideBack(n, Product(m, e), q / m, Product(s, e) + r);
    DivideBack(Product(s, e) + r, e, s, r);
  }

  lemma Divide(n: nat, d: nat)
    requires d >= 1
    ensures n == Product(n / d, d) + n % d
  {
  }

  lemma DivideBack(n: nat, d: nat, k: nat, r: nat)
    requires r < d && n == Product(k, d) + r
    ensures n % d == r && n / d == k
  {
    DivisionIsUnique(n, d, k, r);
  }

  lemma TwoDivisions(k: nat, m: nat, s: nat, e: nat, r: nat)
    requires s < m && r < e
    ensures Product(Product(k, m) + s, e) + r == Product(k, Product(m, e)) + (Product(s, e) + r)
    ensures Product(s, e) + r < Product(m, e)
  {
    Distribute(k * m, s, e);
    Regroup(k, m, e);
    Distribute(m - 1 - s, s + 1, e);
    Distribute(s, 1, e);
    NotNegative(m - 1 - s, e);
  }

  lemma NothingLost(n: nat, m: nat, e: nat)
    requires m >= 1 && e >= 1 && n < Product(m, e)
    ensures Remaining(n, m, e) == n
  {
    hide Product;
    SmallRemainder(n, Product(m, e));
  }

  lemma SmallRemainder(n: nat, d: nat)
    requires n < d
    ensures n % d == n
  {
  }

  lemma QuotientReaches(x: nat, b: nat, e: nat)
    requires e >= 1
    ensures x * b / e >= x <==> x == 0 || b >= e
  {
    if x > 0 {
      QuotientWithin(x * b, e, x - 1);
      ProductOrder(x, b, e);
    }
  }

  lemma QuotientWithin(n: nat, e: nat, cap: nat)
    requires e >= 1
    ensures n / e <= cap <==> n < (cap + 1) * e
  {
    var q := n / e;
    assert n == q * e + n % e;
    Distribute(q - cap - 1, cap + 1, e);
    Distribute(cap - q, q + 1, e);
    Distribute(q, 1, e);
    if q > cap {
      NotNegative(q - cap - 1, e);
    } else {
      NotNegative(cap - q, e);
    }
  }

  lemma NotNegative(x: int, y: int)
    requires x >= 0 && y >= 0
    ensures x * y >= 0
  {
  }

  lemma ProductOrder(x: nat, b: nat, e: nat)
    requires x > 0
    ensures x * b < x * e <==> b < e
    ensures (x - 1 + 1) * e == x * e
  {
    if b < e {
      assert x * e == x * b + x * (e - b);
      AtLeast(x, e - b);
    } else {
      assert x * b == x * e + x * (b - e);
      NotNegative(x, b - e);
    }
  }

  /**
   * A concrete pool with a tenth of the stake that made all nineteen blocks of an epoch: one block was expected of
   * it, so of a pot of 100000 it is due 10000 and paid 190000.
   */
  lemma GrossExceedsPot()
    ensures var r := CalculatePoolRewards(PoolInfo(0, 10, 19), 100000, 100, 19, ProtocolParams(0.0, 0.0, 1.0, 10));
            r.optimal == 10000 && r.gross == 190000
  {
    hide PoolFactor, ExpectedBlocks, OptimalPoolReward, GrossPoolReward;
    var params := ProtocolParams(0.0, 0.0, 1.0, 10);
    TenthOfStake();
    GrossIsQuotient(PoolInfo(0, 10, 19), 100000, 100, 19, params);
  }

  lemma TenthOfStake()
    ensures OptimalPoolReward(100000, PoolFactor(PoolInfo(0, 10, 19), 100, ProtocolParams(0.0, 0.0, 1.0, 10))) == 10000
    ensures ExpectedBlocks(10, 100, 19) == 1
  {
    hide OptimalRewardFactor, Times, Over, Lovelace, ToInteger;
    FractionsOfTenth();
    FactorOfTenth();
    ProductsOfTenth();
    RoundingOfTenth();
    var f := OptimalRewardFactor(0.1, 0.0, 0.1, 1.0);
    assert PoolFactor(PoolInfo(0, 10, 19), 100, ProtocolParams(0.0, 0.0, 1.0, 10)) == f;
  }

  lemma FractionsOfTenth()
    ensures Over(10.0, 100.0) == 0.1 && Over(0.0, 100.0) == 0.0 && SaturationThreshold(10) == 0.1
  {
  }

  lemma FactorOfTenth()
    ensures OptimalRewardFactor(0.1, 0.0, 0.1, 1.0) == 0.1
  {
  }

  lemma ProductsOfTenth()
    ensures Times(100000.0, 0.1) == 10000.0 && Times(19.0, 0.1) == 1.9
  {
  }

  lemma RoundingOfTenth()
    ensures Lovelace(10000.0) == 10000 && ToInteger(1.9) == 1
  {
  }
}
