/**
 Staker rewards: the weight of an operator from its bonded ETH and staked KEEP, its share of the
 interval's rewards, and the violations that cost it the share. ETH, KEEP and rewards are integers of
 the smallest unit; scores, boosts and ratios are scaled decimals, a weight is scaled twice.
 */
module Rewards {
  import opened Wrappers
  import opened FixedPoint

  const ETH_SCORE_THRESHOLD := 3000_000000000000000000

  // ---- Weights ----

  function EthScore(ethTotal: nat): int {
    if ethTotal < ETH_SCORE_THRESHOLD then ethTotal * SCALE
    else
      2 * RoundSqrt((ETH_SCORE_THRESHOLD * SCALE) * (ethTotal * SCALE)) - ETH_SCORE_THRESHOLD * SCALE
  }

  function Min(a: nat, b: nat): nat { if a <= b then a else b }

  /** The boost that the staked KEEP can give for this much ETH. */
  function EthBoost(keepStaked: nat, ethTotal: nat): nat {
    if ethTotal > 0 then RoundSqrt(RoundDiv(keepStaked * SCALE, ethTotal * 500) * SCALE) else 0
  }

  function Boost(keepStaked: nat, ethTotal: nat, minimumStake: nat): (r: nat)
    requires minimumStake > 0
    ensures r >= SCALE
  {
    SCALE + Min(RoundDiv(keepStaked * SCALE, minimumStake), EthBoost(keepStaked, ethTotal))
  }

  function Weight(keepStaked: nat, ethTotal: nat, minimumStake: nat): int
    requires minimumStake > 0
  {
    EthScore(ethTotal) * Boost(keepStaked, ethTotal, minimumStake)
  }

  lemma MeanOfProduct(t: nat, a: nat)
    ensures 4 * (t * a) <= Square(t + a)
  {
    var d: int := a - t;
    assert Square(t + a) == t * t + 2 * (t * a) + a * a;
    assert Square(d) == t * t - 2 * (t * a) + a * a;
    assert d * d >= 0;
  }

  lemma SquareAtMostProduct(t: nat, a: nat)
    requires t <= a
    ensures Square(t) <= t * a
  {
    ProductMonotone(t, a, t);
  }

  /** Twice the geometric mean is at most the sum, even with the root rounded. */
  lemma RoundedMean(t: nat, a: nat)
    ensures 2 * RoundSqrt(t * a) <= t + a
    ensures t <= a ==> t <= RoundSqrt(t * a)
  {
    hide RoundSqrt, Square;
    var r := RoundSqrt(t * a);
    RoundSqrtIsNearest(t * a);
    MeanOfProduct(t, a);
    if t <= a {
      SquareAtMostProduct(t, a);
      RoundSqrtBounds(t * a, t);
    }
    if 2 * r > t + a {
      SquareMonotone(t + a, 2 * r - 1);
    }
  }

  /** The score is never negative and never above the amount. */
  lemma ScoreIsWithinTheAmount(ethTotal: nat)
    ensures 0 <= EthScore(ethTotal) <= ethTotal * SCALE
    ensures ethTotal >= ETH_SCORE_THRESHOLD ==> EthScore(ethTotal) >= ETH_SCORE_THRESHOLD * SCALE
  {
    if ethTotal >= ETH_SCORE_THRESHOLD {
      RoundedMean(ETH_SCORE_THRESHOLD * SCALE, ethTotal * SCALE);
    }
  }

  // ---- What score, boost and reward are ----

  /** `quotient` is n / d rounded to the nearest, halves up. */
  predicate IsQuotient(quotient: int, n: nat, d: nat) {
    2 * (quotient * d) - d <= 2 * n < 2 * (quotient * d) + d
  }

  /** `root` lies within half a unit of the square root of n. */
  predicate IsRoot(root: nat, n: nat) {
    4 * n < Square(2 * root + 1) && (root > 0 ==> Square(2 * root - 1) < 4 * n)
  }

  /**
   Below the threshold the score is the amount. From the threshold on the score and the threshold add up
   to twice the root of their product, and all of it scaled and within one unit.
   */
  predicate IsEthScore(score: int, ethTotal: nat) {
    var threshold := 3000_000000000000000000 * SCALE;
    if ethTotal < 3000_000000000000000000 then score == ethTotal * SCALE
    else Square(score + threshold - 1) < 4 * (threshold * (ethTotal * SCALE)) < Square(score + threshold + 1)
  }

  lemma EthScoreExactly(ethTotal: nat)
    ensures IsEthScore(EthScore(ethTotal), ethTotal)
  {
    if ethTotal >= ETH_SCORE_THRESHOLD {
      var m := (ETH_SCORE_THRESHOLD * SCALE) * (ethTotal * SCALE);
      RoundSqrtIsNearest(m);
      ScoreIsWithinTheAmount(ethTotal);
      hide RoundSqrt, Square;
    }
  }

  /**
   One more than the smaller of two numbers: the rounded ratio of the stake to the minimum, and the
   rounded root of the rounded ratio of the stake to five hundred times the ETH, which is zero without ETH.
   */
  ghost predicate IsBoost(boost: int, keepStaked: nat, ethTotal: nat, minimumStake: nat) {
    exists stakeRatio, ethBoost ::
      && IsQuotient(stakeRatio, keepStaked * SCALE, minimumStake)
      && IsEthBoost(ethBoost, keepStaked, ethTotal)
      && boost - SCALE == if stakeRatio <= ethBoost then stakeRatio else ethBoost
  }

  ghost predicate IsEthBoost(ethBoost: int, keepStaked: nat, ethTotal: nat) {
    if ethTotal == 0 then ethBoost == 0
    else exists ethRatio: nat ::
           IsQuotient(ethRatio, keepStaked * SCALE, ethTotal * 500) && IsScaledRoot(ethBoost, ethRatio)
  }

  predicate IsScaledRoot(root: int, x: nat) { root >= 0 && IsRoot(root, x * SCALE) }

  lemma EthBoostExactly(keepStaked: nat, ethTotal: nat)
    ensures IsEthBoost(EthBoost(keepStaked, ethTotal), keepStaked, ethTotal)
  {
    if ethTotal > 0 {
      var ethRatio := RoundDiv(keepStaked * SCALE, ethTotal * 500);
      assert IsQuotient(ethRatio, keepStaked * SCALE, ethTotal * 500);
      RoundSqrtIsNearest(ethRatio * SCALE);
      assert IsScaledRoot(EthBoost(keepStaked, ethTotal), ethRatio) by {
        hide RoundDiv, RoundSqrt, Square;
      }
      hide RoundDiv, RoundSqrt, IsQuotient, IsScaledRoot;
    }
  }

  lemma BoostExactly(keepStaked: nat, ethTotal: nat, minimumStake: nat)
    requires minimumStake > 0
    ensures IsBoost(Boost(keepStaked, ethTotal, minimumStake), keepStaked, ethTotal, minimumStake)
  {
    EthBoostExactly(keepStaked, ethTotal);
    assert IsQuotient(RoundDiv(keepStaked * SCALE, minimumStake), keepStaked * SCALE, minimumStake);
    hide RoundDiv, IsQuotient, IsEthBoost, EthBoost;
  }

  /** The formula above the threshold gives at the threshold what the formula below would give. */
  lemma ScoreMeetsAtTheThreshold()
    ensures EthScore(ETH_SCORE_THRESHOLD) == ETH_SCORE_THRESHOLD * SCALE
  {
    ScoreIsWithinTheAmount(ETH_SCORE_THRESHOLD);
  }

  /** More ETH never lowers the score. */
  lemma ScoreIsNondecreasing(a: nat, b: nat)
    requires a <= b
    ensures EthScore(a) <= EthScore(b)
  {
    if b >= ETH_SCORE_THRESHOLD {
      if a < ETH_SCORE_THRESHOLD {
        ScoreIsWithinTheAmount(b);
      } else {
        var t := ETH_SCORE_THRESHOLD * SCALE;
        ProductMonotone(a * SCALE, b * SCALE, t);
        RoundSqrtMonotone(t * (a * SCALE), t * (b * SCALE));
      }
    }
  }

  /** More staked KEEP never lowers the boost or the weight. */
  lemma WeightIsNondecreasingInStake(k: nat, l: nat, ethTotal: nat, minimumStake: nat)
    requires k <= l && minimumStake > 0
    ensures SCALE <= Boost(k, ethTotal, minimumStake) <= Boost(l, ethTotal, minimumStake)
    ensures 0 <= Weight(k, ethTotal, minimumStake) <= Weight(l, ethTotal, minimumStake)
  {
    RoundDivMonotone(k * SCALE, l * SCALE, minimumStake);
    if ethTotal > 0 {
      RoundDivMonotone(k * SCALE, l * SCALE, ethTotal * 500);
      RoundSqrtMonotone(RoundDiv(k * SCALE, ethTotal * 500) * SCALE, RoundDiv(l * SCALE, ethTotal * 500) * SCALE);
    }
    ScoreIsWithinTheAmount(ethTotal);
    ProductsMonotone(EthScore(ethTotal), Boost(k, ethTotal, minimumStake), Boost(l, ethTotal, minimumStake));
  }

  lemma ProductsMonotone(s: int, b: int, c: int)
    requires s >= 0 && 0 <= b <= c
    ensures 0 <= s * b <= s * c
  {
  }

  // ---- Violations ----

  datatype Violation = IsFraudulent | FactoryAuthorizedAtStart | MinimumStakeAtStart | KeygenSLA | SignatureSLA

  /** Counts of one kind of request; the percentage is None where the source has "N/A". */
  datatype SLA = SLA(count: nat, failCount: nat, percentage: Option<int>)

  datatype OperatorParameters = OperatorParameters(
    operator: string,
    keepStaked: nat,
    ethTotal: nat,
    isUndelegating: bool,
    isFraudulent: bool,
    factoryAuthorizedAtStart: bool,
    minimumStakeAtStart: bool,
    keygen: SLA,
    signature: SLA)

  /** Few requests may fail once; with enough of them the percentage decides. */
  predicate Violates(sla: SLA, enough: nat, required: int) {
    && sla.percentage.Some?
    && if sla.count < enough then sla.failCount > 1 else sla.percentage.value < required
  }

  function Pushed(vs: seq<Violation>, v: Violation, applies: bool): (r: seq<Violation>)
    ensures forall w :: w in r <==> w in vs || (applies && w == v)
  {
    if applies then vs + [v] else vs
  }

  function Violations(p: OperatorParameters): seq<Violation> {
    var conduct := Pushed(Pushed([], IsFraudulent, p.isFraudulent), FactoryAuthorizedAtStart, !p.factoryAuthorizedAtStart);
    var stake := Pushed(conduct, MinimumStakeAtStart, !p.minimumStakeAtStart && !p.isUndelegating);
    Pushed(Pushed(stake, KeygenSLA, Violates(p.keygen, 10, 80)), SignatureSLA, Violates(p.signature, 20, 95))
  }

  method CheckRequirementsViolations(p: OperatorParameters) returns (violations: seq<Violation>)
    ensures violations == Violations(p)
  {
    violations := [];
    if p.isFraudulent {
      violations := violations + [IsFraudulent];
    }
    if !p.factoryAuthorizedAtStart {
      violations := violations + [FactoryAuthorizedAtStart];
    }
    if !p.minimumStakeAtStart && !p.isUndelegating {
      violations := violations + [MinimumStakeAtStart];
    }
    if p.keygen.percentage.Some? {
      if p.keygen.count < 10 {
        if p.keygen.failCount > 1 {
          violations := violations + [KeygenSLA];
        }
      } else {
        if p.keygen.percentage.value < 80 {
          violations := violations + [KeygenSLA];
        }
      }
    }
    if p.signature.percentage.Some? {
      if p.signature.count < 20 {
        if p.signature.failCount > 1 {
          violations := violations + [SignatureSLA];
        }
      } else {
        if p.signature.percentage.value < 95 {
          violations := violations + [SignatureSLA];
        }
      }
    }
  }

  /** The SLA calculator's percentage, rounded down. */
  function Percentage(count: nat, failCount: nat): Option<int> {
    if count > 0 then Some((100 * count - 100 * failCount) / count) else None
  }

  /** With the calculated percentages, a fifth of the key generations may fail, a twentieth of the signatures. */
  lemma ViolationsExactly(p: OperatorParameters)
    requires p.keygen.percentage == Percentage(p.keygen.count, p.keygen.failCount)
    requires p.signature.percentage == Percentage(p.signature.count, p.signature.failCount)
    ensures KeygenSLA in Violations(p) <==>
              p.keygen.count > 0
              && (if p.keygen.count < 10 then p.keygen.failCount > 1 else 5 * p.keygen.failCount > p.keygen.count)
    ensures SignatureSLA in Violations(p) <==>
              p.signature.count > 0
              && (if p.signature.count < 20 then p.signature.failCount > 1
                  else 20 * p.signature.failCount > p.signature.count)
    ensures IsFraudulent in Violations(p) <==> p.isFraudulent
    ensures FactoryAuthorizedAtStart in Violations(p) <==> !p.factoryAuthorizedAtStart
    ensures MinimumStakeAtStart in Violations(p) <==> !p.minimumStakeAtStart && !p.isUndelegating
    ensures Violations(p) == [] <==>
              && !p.isFraudulent && p.factoryAuthorizedAtStart && (p.minimumStakeAtStart || p.isUndelegating)
              && !(KeygenSLA in Violations(p)) && !(SignatureSLA in Violations(p))
  {
    if p.keygen.count > 0 {
      FloorBelow(100 * p.keygen.count - 100 * p.keygen.failCount, p.keygen.count, 80);
    }
    if p.signature.count > 0 {
      FloorBelow(100 * p.signature.count - 100 * p.signature.failCount, p.signature.count, 95);
    }
  }

  lemma FloorBelow(x: int, c: nat, k: int)
    requires c > 0
    ensures x / c < k <==> x < k * c
  {
    var q := x / c;
    assert x == q * c + x % c;
    if q < k {
      NextProduct(q, k, c);
    } else {
      ProductMonotone(k, q, c);
    }
  }

  // ---- Shares ----

  datatype OperatorRewards = OperatorRewards(
    operator: string,
    ethScore: int,
    boost: nat,
    rewardWeight: int,
    totalRewards: nat,
    requirementsViolations: seq<Violation>)

  datatype Factors = Factors(
    operator: string, ethScore: int, boost: nat, rewardWeight: nat, requirementsViolations: seq<Violation>)

  function FactorsOf(p: OperatorParameters, minimumStake: nat): Factors
    requires minimumStake > 0
  {
    WeightIsNondecreasingInStake(p.keepStaked, p.keepStaked, p.ethTotal, minimumStake);
    Factors(p.operator, EthScore(p.ethTotal), Boost(p.keepStaked, p.ethTotal, minimumStake),
            Weight(p.keepStaked, p.ethTotal, minimumStake), Violations(p))
  }

  function AllFactors(ps: seq<OperatorParameters>, minimumStake: nat): seq<Factors>
    requires minimumStake > 0
  {
    seq(|ps|, i requires 0 <= i < |ps| => FactorsOf(ps[i], minimumStake))
  }

  function WeightSum(factors: seq<Factors>): nat {
    if factors == [] then 0 else WeightSum(factors[..|factors| - 1]) + factors[|factors| - 1].rewardWeight
  }

  /** The rounded share of the weights. */
  function Ratio(weight: nat, sum: nat): nat {
    if sum > 0 then RoundDiv(weight * SCALE, sum) else 0
  }

  function RewardsOf(f: Factors, sum: nat, totalRewards: nat): OperatorRewards {
    OperatorRewards(
      f.operator, f.ethScore, f.boost, f.rewardWeight,
      if f.requirementsViolations != [] then 0 else totalRewards * Ratio(f.rewardWeight, sum),
      f.requirementsViolations)
  }

  function Shares(factors: seq<Factors>, sum: nat, totalRewards: nat): seq<OperatorRewards> {
    seq(|factors|, i requires 0 <= i < |factors| => RewardsOf(factors[i], sum, totalRewards))
  }

  function AllRewards(factors: seq<Factors>, totalRewards: nat): seq<OperatorRewards> {
    Shares(factors, WeightSum(factors), totalRewards)
  }

  method CalculateFactors(ps: seq<OperatorParameters>, minimumStake: nat) returns (factors: seq<Factors>)
    requires minimumStake > 0
    ensures factors == AllFactors(ps, minimumStake)
  {
    hide EthScore, Boost, Violations;
    factors := [];
    var i := 0;
    while i < |ps|
      invariant 0 <= i <= |ps|
      invariant factors == AllFactors(ps[..i], minimumStake)
    {
      var requirementsViolations := CheckRequirementsViolations(ps[i]);
      var ethScore := EthScore(ps[i].ethTotal);
      var boost := Boost(ps[i].keepStaked, ps[i].ethTotal, minimumStake);
      WeightIsNondecreasingInStake(ps[i].keepStaked, ps[i].keepStaked, ps[i].ethTotal, minimumStake);
      var rewardWeight := ethScore * boost;
      assert rewardWeight == Weight(ps[i].keepStaked, ps[i].ethTotal, minimumStake);
      factors := factors + [Factors(ps[i].operator, ethScore, boost, rewardWeight, requirementsViolations)];
      i := i + 1;
      assert AllFactors(ps[..i], minimumStake)
          == AllFactors(ps[..i - 1], minimumStake) + [FactorsOf(ps[i - 1], minimumStake)];
    }
    assert ps[..i] == ps;
  }

  method SumWeights(factors: seq<Factors>) returns (rewardWeightSum: nat)
    ensures rewardWeightSum == WeightSum(factors)
  {
    rewardWeightSum := 0;
    var i := 0;
    while i < |factors|
      invariant 0 <= i <= |factors|
      invariant rewardWeightSum == WeightSum(factors[..i])
    {
      assert factors[..i + 1][..i] == factors[..i];
      rewardWeightSum := rewardWeightSum + factors[i].rewardWeight;
      i := i + 1;
    }
    assert factors[..i] == factors;
  }

  function TotalWeight(rewards: seq<OperatorRewards>): int {
    if rewards == [] then 0
    else TotalWeight(rewards[..|rewards| - 1]) + rewards[|rewards| - 1].rewardWeight
  }

  /** The reward is the interval's rewards times the rounded share of the weight, and nothing without weights. */
  ghost predicate IsShare(reward: nat, weight: int, sum: int, totalRewards: nat) {
    if sum <= 0 || weight < 0 then reward == 0
    else exists ratio: nat :: IsQuotient(ratio, weight * SCALE, sum) && reward == totalRewards * ratio
  }

  ghost predicate IsRewarded(
    p: OperatorParameters, r: OperatorRewards, minimumStake: nat, sum: int, totalRewards: nat)
  {
    && r.operator == p.operator
    && IsEthScore(r.ethScore, p.ethTotal)
    && IsBoost(r.boost, p.keepStaked, p.ethTotal, minimumStake)
    && r.rewardWeight == r.ethScore * r.boost
    && r.requirementsViolations == Violations(p)
    && (if r.requirementsViolations != [] then r.totalRewards == 0
        else IsShare(r.totalRewards, r.rewardWeight, sum, totalRewards))
  }

  lemma {:induction false} WeightsAddUp(factors: seq<Factors>, sum: nat, totalRewards: nat)
    ensures TotalWeight(Shares(factors, sum, totalRewards)) == WeightSum(factors)
  {
    if factors != [] {
      var n := |factors| - 1;
      WeightsAddUp(factors[..n], sum, totalRewards);
      assert Shares(factors, sum, totalRewards)[..n] == Shares(factors[..n], sum, totalRewards);
    }
  }

  lemma RewardIsShare(f: Factors, sum: nat, totalRewards: nat)
    requires f.requirementsViolations == []
    ensures IsShare(RewardsOf(f, sum, totalRewards).totalRewards, f.rewardWeight, sum, totalRewards)
  {
    if sum > 0 {
      assert IsQuotient(Ratio(f.rewardWeight, sum), f.rewardWeight * SCALE, sum);
      hide RoundDiv, IsQuotient;
    }
  }

  lemma OneIsRewarded(p: OperatorParameters, minimumStake: nat, sum: nat, totalRewards: nat)
    requires minimumStake > 0
    ensures IsRewarded(p, RewardsOf(FactorsOf(p, minimumStake), sum, totalRewards), minimumStake, sum, totalRewards)
  {
    EthScoreExactly(p.ethTotal);
    BoostExactly(p.keepStaked, p.ethTotal, minimumStake);
    var f := FactorsOf(p, minimumStake);
    hide EthScore, Boost, IsEthScore, IsBoost, IsShare, Violations;
    if f.requirementsViolations == [] {
      RewardIsShare(f, sum, totalRewards);
    }
    hide Ratio;
  }

  lemma CalculatedExactly(ps: seq<OperatorParameters>, minimumStake: nat, totalRewards: nat)
    requires minimumStake > 0
    ensures var rewards := AllRewards(AllFactors(ps, minimumStake), totalRewards);
            && |rewards| == |ps|
            && forall i :: 0 <= i < |ps| ==>
                 IsRewarded(ps[i], rewards[i], minimumStake, TotalWeight(rewards), totalRewards)
  {
    var factors := AllFactors(ps, minimumStake);
    WeightsAddUp(factors, WeightSum(factors), totalRewards);
    forall i | 0 <= i < |ps|
      ensures IsRewarded(ps[i], RewardsOf(FactorsOf(ps[i], minimumStake), WeightSum(factors), totalRewards),
                         minimumStake, WeightSum(factors), totalRewards)
    {
      OneIsRewarded(ps[i], minimumStake, WeightSum(factors), totalRewards);
    }
    hide IsRewarded, RewardsOf, FactorsOf, WeightSum;
  }

  method ShareOut(factors: seq<Factors>, rewardWeightSum: nat, totalRewards: nat)
    returns (operatorsRewards: seq<OperatorRewards>)
    ensures operatorsRewards == Shares(factors, rewardWeightSum, totalRewards)
  {
    operatorsRewards := [];
    var i := 0;
    while i < |factors|
      invariant 0 <= i <= |factors|
      invariant |operatorsRewards| == i
      invariant forall j :: 0 <= j < i ==> operatorsRewards[j] == RewardsOf(factors[j], rewardWeightSum, totalRewards)
    {
      hide RoundDiv;
      var f := factors[i];
      var rewardRatio := if rewardWeightSum > 0 then RoundDiv(f.rewardWeight * SCALE, rewardWeightSum) else 0;
      assert rewardRatio == Ratio(f.rewardWeight, rewardWeightSum);
      hide Ratio;
      var total: nat := if |f.requirementsViolations| > 0 then 0 else totalRewards * rewardRatio;
      var rewards := OperatorRewards(f.operator, f.ethScore, f.boost, f.rewardWeight, total, f.requirementsViolations);
      assert rewards == RewardsOf(f, rewardWeightSum, totalRewards);
      hide RewardsOf;
      operatorsRewards := operatorsRewards + [rewards];
      i := i + 1;
    }
  }

  method CalculateOperatorsRewards(ps: seq<OperatorParameters>, minimumStake: nat, totalRewards: nat)
    returns (operatorsRewards: seq<OperatorRewards>)
    requires minimumStake > 0
    ensures operatorsRewards == AllRewards(AllFactors(ps, minimumStake), totalRewards)
    // the result from the parameters alone
    ensures |operatorsRewards| == |ps|
    ensures forall i :: 0 <= i < |ps| ==>
              IsRewarded(ps[i], operatorsRewards[i], minimumStake, TotalWeight(operatorsRewards), totalRewards)
  {
    CalculatedExactly(ps, minimumStake, totalRewards);
    var operatorsRewardsFactors := CalculateFactors(ps, minimumStake);
    var rewardWeightSum := SumWeights(operatorsRewardsFactors);
    operatorsRewards := ShareOut(operatorsRewardsFactors, rewardWeightSum, totalRewards);
  }

  // ---- The reward bound ----

  /** What is paid out: whole units. */
  function Paid(rewards: seq<OperatorRewards>): nat {
    if rewards == [] then 0
    else Paid(rewards[..|rewards| - 1]) + rewards[|rewards| - 1].totalRewards / SCALE
  }

  function RatioSum(factors: seq<Factors>, sum: nat): nat {
    if factors == [] then 0
    else RatioSum(factors[..|factors| - 1], sum) + Ratio(factors[|factors| - 1].rewardWeight, sum)
  }

  /** Each ratio is at most half a unit above its exact value. */
  lemma {:induction false} RatiosNearExact(factors: seq<Factors>, sum: nat)
    requires sum > 0
    ensures 2 * (RatioSum(factors, sum) * sum) <= 2 * (WeightSum(factors) * SCALE) + |factors| * sum
  {
    if factors != [] {
      var rest, w := factors[..|factors| - 1], factors[|factors| - 1].rewardWeight;
      var r := Ratio(w, sum);
      RatiosNearExact(rest, sum);
      assert 2 * (r * sum) - sum <= 2 * (w * SCALE);
      assert |factors| == |rest| + 1;
      hide RoundDiv;
      OneMoreRatio(RatioSum(rest, sum), r, WeightSum(rest), w, |rest|, sum);
    }
  }

  lemma OneMoreRatio(ratios: nat, r: nat, weights: nat, w: nat, n: nat, sum: nat)
    requires 2 * (ratios * sum) <= 2 * (weights * SCALE) + n * sum
    requires 2 * (r * sum) - sum <= 2 * (w * SCALE)
    ensures 2 * ((ratios + r) * sum) <= 2 * ((weights + w) * SCALE) + (n + 1) * sum
  {
    assert (ratios + r) * sum == ratios * sum + r * sum;
    assert (n + 1) * sum == n * sum + sum;
  }

  lemma RatioSumBound(factors: seq<Factors>)
    ensures 2 * RatioSum(factors, WeightSum(factors)) <= 2 * SCALE + |factors|
  {
    var sum := WeightSum(factors);
    if sum > 0 {
      RatiosNearExact(factors, sum);
      hide RatioSum, WeightSum;
      DivideBySum(RatioSum(factors, sum), |factors|, sum);
    } else {
      NoRatios(factors);
    }
  }

  lemma DivideBySum(ratios: nat, n: nat, sum: nat)
    requires sum > 0 && 2 * (ratios * sum) <= 2 * (sum * SCALE) + n * sum
    ensures 2 * ratios <= 2 * SCALE + n
  {
    assert (2 * ratios) * sum == 2 * (ratios * sum);
    assert (2 * SCALE + n) * sum == 2 * (sum * SCALE) + n * sum;
    Cancel(2 * ratios, 2 * SCALE + n, sum);
  }

  lemma Cancel(a: int, b: int, d: nat)
    requires d > 0 && a * d <= b * d
    ensures a <= b
  {
    if a > b {
      NextProduct(b, a, d);
    }
  }

  lemma {:induction false} NoRatios(factors: seq<Factors>)
    ensures RatioSum(factors, 0) == 0
  {
    if factors != [] {
      NoRatios(factors[..|factors| - 1]);
    }
  }

  lemma {:induction false} PaidAtMostRatios(factors: seq<Factors>, sum: nat, totalRewards: nat)
    ensures Paid(Shares(factors, sum, totalRewards)) * SCALE <= totalRewards * RatioSum(factors, sum)
  {
    var rewards := Shares(factors, sum, totalRewards);
    if factors != [] {
      var n := |factors| - 1;
      var rest := factors[..n];
      PaidAtMostRatios(rest, sum, totalRewards);
      assert rewards[..n] == Shares(rest, sum, totalRewards);
      var r := Ratio(factors[n].rewardWeight, sum);
      assert rewards[n].totalRewards in {0, totalRewards * r};
      hide Ratio, Shares, RewardsOf;
      ProductsMonotone(totalRewards, 0, r);
      Distribute(totalRewards, RatioSum(rest, sum), r);
    }
  }

  /**
   The reward bound: n operators are together paid at most the interval's rewards and a part of them
   of n over twice the scale, for any weights and violations.
   */
  lemma RewardBound(factors: seq<Factors>, totalRewards: nat)
    ensures Paid(AllRewards(factors, totalRewards)) * (2 * SCALE) <= totalRewards * (2 * SCALE + |factors|)
  {
    PaidAtMostRatios(factors, WeightSum(factors), totalRewards);
    RatioSumBound(factors);
    hide Paid, RatioSum, Shares, WeightSum;
    Combine(Paid(AllRewards(factors, totalRewards)), totalRewards,
            RatioSum(factors, WeightSum(factors)), 2 * SCALE + |factors|);
  }

  lemma Combine(paid: nat, total: nat, ratios: nat, bound: nat)
    requires paid * SCALE <= total * ratios && 2 * ratios <= bound
    ensures paid * (2 * SCALE) <= total * bound
  {
    ProductMonotone(2 * ratios, bound, total);
    assert 2 * (total * ratios) == (2 * ratios) * total;
  }

  /**
   When the rewards fit, by a guard that can be checked beforehand: for less than twice the scale of
   units times operators no more than the interval's rewards is ever paid.
   */
  lemma RewardsFit(factors: seq<Factors>, totalRewards: nat)
    requires totalRewards * |factors| < 2 * SCALE
    ensures Paid(AllRewards(factors, totalRewards)) <= totalRewards
  {
    RewardBound(factors, totalRewards);
    hide Paid, AllRewards;
    var paid := Paid(AllRewards(factors, totalRewards));
    assert totalRewards * (2 * SCALE + |factors|) == totalRewards * (2 * SCALE) + totalRewards * |factors|;
  }

  /** The ratios of the operators that are paid at all. */
  function EligibleRatioSum(factors: seq<Factors>, sum: nat): nat {
    if factors == [] then 0
    else
      var last := factors[|factors| - 1];
      EligibleRatioSum(factors[..|factors| - 1], sum)
      + (if last.requirementsViolations == [] then Ratio(last.rewardWeight, sum) else 0)
  }

  /** The rewards before rounding down, scaled. */
  function Unrounded(rewards: seq<OperatorRewards>): nat {
    if rewards == [] then 0
    else Unrounded(rewards[..|rewards| - 1]) + rewards[|rewards| - 1].totalRewards
  }

  lemma {:induction false} UnroundedIsProduct(factors: seq<Factors>, sum: nat, totalRewards: nat)
    ensures Unrounded(Shares(factors, sum, totalRewards)) == totalRewards * EligibleRatioSum(factors, sum)
  {
    var rewards := Shares(factors, sum, totalRewards);
    if factors != [] {
      var n := |factors| - 1;
      var rest, last := factors[..n], factors[n];
      UnroundedIsProduct(rest, sum, totalRewards);
      assert rewards[..n] == Shares(rest, sum, totalRewards);
      var r := if last.requirementsViolations == [] then Ratio(last.rewardWeight, sum) else 0;
      assert rewards[n].totalRewards == totalRewards * r;
      hide Ratio, Shares, RewardsOf;
      Distribute(totalRewards, EligibleRatioSum(rest, sum), r);
    }
  }

  lemma Distribute(t: nat, a: nat, b: nat)
    ensures t * (a + b) == t * a + t * b
  {
  }

  lemma {:induction false} PaidAtMostUnrounded(rewards: seq<OperatorRewards>)
    ensures Paid(rewards) * SCALE <= Unrounded(rewards)
  {
    if rewards != [] {
      PaidAtMostUnrounded(rewards[..|rewards| - 1]);
    }
  }

  /**
   The rewards before rounding down fit the interval's rewards exactly when the rounded ratios of the
   operators without violations add up to at most one; then so does what is paid.
   */
  lemma RewardsFitExactly(factors: seq<Factors>, totalRewards: nat)
    requires totalRewards > 0
    ensures Unrounded(AllRewards(factors, totalRewards)) <= totalRewards * SCALE
       <==> EligibleRatioSum(factors, WeightSum(factors)) <= SCALE
    ensures EligibleRatioSum(factors, WeightSum(factors)) <= SCALE ==>
              Paid(AllRewards(factors, totalRewards)) <= totalRewards
  {
    var ratios := EligibleRatioSum(factors, WeightSum(factors));
    UnroundedIsProduct(factors, WeightSum(factors), totalRewards);
    PaidAtMostUnrounded(AllRewards(factors, totalRewards));
    hide Unrounded, Paid, EligibleRatioSum, Shares, WeightSum;
    if ratios <= SCALE {
      ProductMonotone(ratios, SCALE, totalRewards);
    } else {
      NextProduct(SCALE, ratios, totalRewards);
    }
  }

  /** The exact shares, each rounded down, never exceed the interval's rewards. */
  function ExactlyPaid(factors: seq<Factors>, sum: nat, totalRewards: nat): nat
    requires sum > 0
  {
    if factors == [] then 0
    else
      ExactlyPaid(factors[..|factors| - 1], sum, totalRewards)
      + (totalRewards * factors[|factors| - 1].rewardWeight) / sum
  }

  lemma {:induction false} ExactlyPaidBound(factors: seq<Factors>, sum: nat, totalRewards: nat)
    requires sum > 0
    ensures ExactlyPaid(factors, sum, totalRewards) * sum <= totalRewards * WeightSum(factors)
  {
    if factors != [] {
      var rest, w := factors[..|factors| - 1], factors[|factors| - 1].rewardWeight;
      ExactlyPaidBound(rest, sum, totalRewards);
      var share := totalRewards * w / sum;
      assert totalRewards * w == share * sum + totalRewards * w % sum;
      assert (ExactlyPaid(rest, sum, totalRewards) + share) * sum
          == ExactlyPaid(rest, sum, totalRewards) * sum + share * sum;
      assert totalRewards * (WeightSum(rest) + w) == totalRewards * WeightSum(rest) + totalRewards * w;
    }
  }

  lemma ExactSharesFit(factors: seq<Factors>, totalRewards: nat)
    requires WeightSum(factors) > 0
    ensures ExactlyPaid(factors, WeightSum(factors), totalRewards) <= totalRewards
  {
    ExactlyPaidBound(factors, WeightSum(factors), totalRewards);
    Cancel(ExactlyPaid(factors, WeightSum(factors), totalRewards), totalRewards, WeightSum(factors));
  }

  /** Rounding half up can pay too much: six operators with one weight get two thousand units more than there are. */
  lemma RoundingOvershoots(f: Factors)
    requires f.rewardWeight == SCALE * SCALE && f.requirementsViolations == []
    ensures Paid(AllRewards([f, f, f, f, f, f], 1000 * SCALE)) == 1000 * SCALE + 2000
  {
    var all := [f, f, f, f, f, f];
    var sum := 6 * (SCALE * SCALE);
    assert all[..5] == [f, f, f, f, f] && all[..5][..4] == [f, f, f, f] && [f, f, f, f][..3] == [f, f, f];
    assert [f, f, f][..2] == [f, f] && [f, f][..1] == [f] && [f][..0] == [];
    assert WeightSum([f]) == SCALE * SCALE;
    assert WeightSum([f, f]) == 2 * (SCALE * SCALE);
    assert WeightSum([f, f, f]) == 3 * (SCALE * SCALE);
    assert WeightSum([f, f, f, f]) == 4 * (SCALE * SCALE);
    assert WeightSum([f, f, f, f, f]) == 5 * (SCALE * SCALE);
    assert WeightSum(all) == sum;
    RoundDivAtMost(SCALE * SCALE * SCALE, sum, 16666666666666666667);
    RoundDivAtLeast(SCALE * SCALE * SCALE, sum, 16666666666666666667);
    var r := RewardsOf(f, sum, 1000 * SCALE);
    assert r.totalRewards == 1000 * SCALE * 16666666666666666667;
    var unit := 16666666666666666667000;
    assert r.totalRewards / SCALE == unit;
    assert AllRewards(all, 1000 * SCALE) == [r, r, r, r, r, r];
    assert [r, r, r, r, r, r][..5] == [r, r, r, r, r] && [r, r, r, r, r][..4] == [r, r, r, r];
    assert [r, r, r, r][..3] == [r, r, r] && [r, r, r][..2] == [r, r] && [r, r][..1] == [r] && [r][..0] == [];
    assert Paid([r]) == unit;
    assert Paid([r, r]) == 2 * unit;
    assert Paid([r, r, r]) == 3 * unit;
    assert Paid([r, r, r, r]) == 4 * unit;
    assert Paid([r, r, r, r, r]) == 5 * unit;
  }

  // ---- One operator and the others ----

  /** The same operator with the same assets, whatever its conduct. */
  predicate SameAssets(p: OperatorParameters, q: OperatorParameters) {
    p.operator == q.operator && p.keepStaked == q.keepStaked && p.ethTotal == q.ethTotal
  }

  lemma {:induction false} SameWeightSum(fs: seq<Factors>, gs: seq<Factors>)
    requires |fs| == |gs| && forall i :: 0 <= i < |fs| ==> fs[i].rewardWeight == gs[i].rewardWeight
    ensures WeightSum(fs) == WeightSum(gs)
  {
    if fs != [] {
      SameWeightSum(fs[..|fs| - 1], gs[..|gs| - 1]);
    }
  }

  /** Changing the conduct of other operators in any way changes nothing for an operator. */
  lemma OthersDoNotMatter(
    ps: seq<OperatorParameters>, qs: seq<OperatorParameters>, minimumStake: nat, totalRewards: nat, i: nat)
    requires minimumStake > 0 && |ps| == |qs| && i < |ps|
    requires forall j :: 0 <= j < |ps| ==> SameAssets(ps[j], qs[j])
    requires ps[i] == qs[i]
    ensures AllRewards(AllFactors(ps, minimumStake), totalRewards)[i]
         == AllRewards(AllFactors(qs, minimumStake), totalRewards)[i]
  {
    var fs, gs := AllFactors(ps, minimumStake), AllFactors(qs, minimumStake);
    forall j | 0 <= j < |fs| ensures fs[j].rewardWeight == gs[j].rewardWeight {
      assert SameAssets(ps[j], qs[j]);
    }
    SameWeightSum(fs, gs);
  }

  /** Among operators without violations the greater weight is never paid less; a violation costs the whole reward. */
  lemma RewardsFollowWeights(factors: seq<Factors>, totalRewards: nat, i: nat, j: nat)
    requires i < |factors| && j < |factors|
    requires factors[i].rewardWeight <= factors[j].rewardWeight && factors[j].requirementsViolations == []
    ensures AllRewards(factors, totalRewards)[i].totalRewards <= AllRewards(factors, totalRewards)[j].totalRewards
    ensures factors[i].requirementsViolations != [] ==> AllRewards(factors, totalRewards)[i].totalRewards == 0
  {
    var sum := WeightSum(factors);
    if sum > 0 {
      RoundDivMonotone(factors[i].rewardWeight * SCALE, factors[j].rewardWeight * SCALE, sum);
    }
    ProductsMonotone(totalRewards, Ratio(factors[i].rewardWeight, sum), Ratio(factors[j].rewardWeight, sum));
  }
}
