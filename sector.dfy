/** The penalty a storage provider pays for terminating sectors early: the
    quality-adjusted power of each sector, the pledge penalty for its
    termination (the greater of an age-based reward penalty and a lower bound
    projected from the network's smoothed reward and power), and the total
    over a batch of sectors. */
module SectorPenalty {
  import opened Big
  import opened Builtin
  import opened Smoothing

  /** The fields of a sector's on-chain record that the penalty reads. Epochs,
      token amounts and deal weights are unbounded integers. */
  datatype SectorOnChainInfo = SectorOnChainInfo(
    activation: int,
    expiration: int,
    dealWeight: int,
    verifiedDealWeight: int,
    expectedDayReward: int,
    expectedStoragePledge: int,
    replacedDayReward: int,
    replacedSectorAge: int)

  /** The termination reward penalty counts at most 140 days of sector age. */
  const TerminationLifetimeCap: int := 140

  /** Half of the expected reward is forfeited. */
  const TerminationRewardFactor: BigFrac := BigFrac(1, 2)

  /** The lower bound projects the sector's reward over 3.5 days. */
  const TerminationPenaltyLowerBoundProjectionPeriod: int := (EpochsInDay * 35) / 10

  // ---------------------------------------------------------------------
  // Quality and quality-adjusted power

  /** The sector's average quality, a fixed-point number with
      SectorQualityPrecision fractional bits: space-time without deals weighs
      QualityBaseMultiplier, deal space-time DealWeightMultiplier and verified
      deal space-time VerifiedDealWeightMultiplier, and the weighted sum is
      divided first by the sector's space-time and then by
      QualityBaseMultiplier. A sector without space-time has no quality (the
      first division would be by zero). Because the base and deal multipliers
      are equal, the deal weight cancels: the weighted sum is ten parts of
      every unit of space-time and ninety more of every unit of verified
      weight. */
  function QualityForWeight(size: nat, duration: int, dealWeight: int, verifiedWeight: int): (quality: int)
    requires size * duration != 0
    ensures quality == Div(Div((10 * (size * duration) + 90 * verifiedWeight) * Pow2(SectorQualityPrecision),
                               size * duration), 10)
  {
    var sectorSpaceTime := size * duration;
    var totalDealSpaceTime := dealWeight + verifiedWeight;
    var weightedBaseSpaceTime := (sectorSpaceTime - totalDealSpaceTime) * QualityBaseMultiplier;
    var weightedDealSpaceTime := dealWeight * DealWeightMultiplier;
    var weightedVerifiedSpaceTime := verifiedWeight * VerifiedDealWeightMultiplier;
    var weightedSumSpaceTime := weightedBaseSpaceTime + weightedDealSpaceTime + weightedVerifiedSpaceTime;
    var scaledUpWeightedSumSpaceTime := Lsh(weightedSumSpaceTime, SectorQualityPrecision);
    Div(Div(scaledUpWeightedSumSpaceTime, sectorSpaceTime), QualityBaseMultiplier)
  }

  /** Raw size scaled by quality, with the fixed-point fraction shifted out:
      the raw size itself without deals, and between the raw size and ten
      times the raw size whenever the weights fit within the space-time. */
  function QAPowerForWeight(size: nat, duration: int, dealWeight: int, verifiedWeight: int): (power: int)
    requires size * duration != 0
    ensures dealWeight == 0 && verifiedWeight == 0 ==> power == size
    ensures && 0 <= dealWeight && 0 <= verifiedWeight
            && 0 < size * duration && dealWeight + verifiedWeight <= size * duration
            ==> size <= power <= 10 * size
  {
    var quality := QualityForWeight(size, duration, dealWeight, verifiedWeight);
    var p := Pow2(SectorQualityPrecision);
    if dealWeight == 0 && verifiedWeight == 0 then
      QualityOfUnweightedSector(size, duration);
      assert size * quality == Lsh(size, SectorQualityPrecision);
      Rsh(size * quality, SectorQualityPrecision)
    else if && 0 <= dealWeight && 0 <= verifiedWeight
            && 0 < size * duration && dealWeight + verifiedWeight <= size * duration then
      QualityForWeightBounds(size, duration, dealWeight, verifiedWeight);
      PowerBoundsOfQuality(size, quality, p);
      Rsh(size * quality, SectorQualityPrecision)
    else
      Rsh(size * quality, SectorQualityPrecision)
  }

  /** A sector's committed duration is the span from activation to
      expiration. */
  predicate HasSpaceTime(size: nat, sector: SectorOnChainInfo)
  {
    size * (sector.expiration - sector.activation) != 0
  }

  /** The weights a sector records can be at most its space-time. */
  predicate WeightsWithinSpaceTime(size: nat, sector: SectorOnChainInfo)
  {
    && 0 <= sector.dealWeight
    && 0 <= sector.verifiedDealWeight
    && 0 < size * (sector.expiration - sector.activation)
    && sector.dealWeight + sector.verifiedDealWeight <= size * (sector.expiration - sector.activation)
  }

  /** The quality-adjusted power of a sector: its raw size when it holds no
      deals, and between its raw size and ten times that whenever its weights
      fit within its space-time. */
  function QAPowerForSector(size: nat, sector: SectorOnChainInfo): (power: int)
    requires HasSpaceTime(size, sector)
    ensures sector.dealWeight == 0 && sector.verifiedDealWeight == 0 ==> power == size
    ensures WeightsWithinSpaceTime(size, sector) ==> size <= power <= 10 * size
  {
    var duration := sector.expiration - sector.activation;
    QAPowerForWeight(size, duration, sector.dealWeight, sector.verifiedDealWeight)
  }

  /** Deal weight and base space-time are weighted alike, so moving space-time
      between them leaves the quality unchanged: only verified weight counts. */
  lemma QualityForWeightIgnoresDealWeight(size: nat, duration: int, dealWeight: int, verifiedWeight: int)
    requires size * duration != 0
    ensures QualityForWeight(size, duration, dealWeight, verifiedWeight)
         == QualityForWeight(size, duration, 0, verifiedWeight)
  {
  }

  /** Without deals the quality is exactly one, whatever the sign of the
      space-time. */
  lemma QualityOfUnweightedSector(size: nat, duration: int)
    requires size * duration != 0
    ensures QualityForWeight(size, duration, 0, 0) == Pow2(SectorQualityPrecision)
  {
    UnitQualityOfSpaceTime(size * duration, Pow2(SectorQualityPrecision));
  }

  lemma UnitQualityOfSpaceTime(s: int, p: int)
    requires s != 0
    ensures Div(Div((10 * s + 90 * 0) * p, s), 10) == p
  {
    var x := (10 * s + 90 * 0) * p;
    assert x == (10 * p) * s by {
      assert (10 * s) * p == (10 * p) * s;
    }
    DivExact(10 * p, s);
    assert Div(x, s) == 10 * p;
    DivExact(p, 10);
  }

  /** When both weights are non-negative and fit within the space-time, the
      quality lies between one and VerifiedDealWeightMultiplier /
      QualityBaseMultiplier = 10. */
  lemma QualityForWeightBounds(size: nat, duration: int, dealWeight: int, verifiedWeight: int)
    requires 0 <= dealWeight && 0 <= verifiedWeight
    requires 0 < size * duration && dealWeight + verifiedWeight <= size * duration
    ensures Pow2(SectorQualityPrecision)
         <= QualityForWeight(size, duration, dealWeight, verifiedWeight)
         <= 10 * Pow2(SectorQualityPrecision)
  {
    QualityBoundsOfSpaceTime(size * duration, verifiedWeight, Pow2(SectorQualityPrecision));
  }

  lemma QualityBoundsOfSpaceTime(s: int, verifiedWeight: int, p: int)
    requires 0 <= verifiedWeight <= s && 0 < s && 1 <= p
    ensures p <= Div(Div((10 * s + 90 * verifiedWeight) * p, s), 10) <= 10 * p
  {
    var w := 10 * s + 90 * verifiedWeight;
    var x := w * p;
    MulLe(10 * s, w, p);
    MulLe(w, 100 * s, p);
    assert (10 * s) * p == (10 * p) * s && (100 * s) * p == (100 * p) * s;
    DivBounds(x, s, 10 * p, 100 * p);
    DivBounds(x / s, 10, p, 10 * p);
  }

  /** A 64 GiB committed-capacity sector committed for a year of epochs has
      quality exactly one and power equal to its 68719476736 bytes. */
  lemma QAPowerOf64GiBSector()
    ensures QualityForWeight(68719476736, 1051200, 0, 0) == Pow2(SectorQualityPrecision)
    ensures QAPowerForWeight(68719476736, 1051200, 0, 0) == 68719476736
  {
    QualityOfUnweightedSector(68719476736, 1051200);
  }

  lemma PowerBoundsOfQuality(size: nat, q: int, p: int)
    requires 1 <= p <= q <= 10 * p
    ensures size <= (size * q) / p <= 10 * size
  {
    MulLe(p, q, size);
    MulLe(q, 10 * p, size);
    assert size * p <= size * q <= (10 * size) * p;
    DivBounds(size * q, p, size, 10 * size);
  }

  // ---------------------------------------------------------------------
  // Pledge penalty for termination

  /** `minEpoch`: the earlier of two epochs. */
  function MinEpoch(a: int, b: int): (r: int)
    ensures r <= a && r <= b
    ensures r == a || r == b
  {
    if a < b then a else b
  }

  /** The reward history a sector record can hold: ages are not negative and
      the replaced sector earned no more per day than the new one, and no
      less than nothing. */
  predicate ReplacementWithinReward(dayReward: int, sectorAge: int, replacedDayReward: int, replacedSectorAge: int)
  {
    0 <= sectorAge && 0 <= replacedSectorAge && 0 <= replacedDayReward <= dayReward
  }

  /** The reward the sector was expected to earn over its age, capped at
      TerminationLifetimeCap days, plus the replaced sector's expected reward
      over its age within the headroom the cap leaves; in epochs times
      attoFIL per day. Past the cap the replaced sector leaves no headroom,
      and the two together never count more than the cap's worth of the new
      sector's reward. */
  function ExpectedRewardForTermination(dayReward: int, sectorAge: int, replacedDayReward: int,
                                        replacedSectorAge: int): (expectedReward: int)
    ensures sectorAge >= TerminationLifetimeCap * EpochsInDay && replacedSectorAge >= 0 ==>
      expectedReward == dayReward * (TerminationLifetimeCap * EpochsInDay)
    ensures ReplacementWithinReward(dayReward, sectorAge, replacedDayReward, replacedSectorAge) ==>
      0 <= expectedReward <= dayReward * (TerminationLifetimeCap * EpochsInDay)
  {
    var lifetimeCap := TerminationLifetimeCap * EpochsInDay;
    var cappedSectorAge := MinEpoch(sectorAge, lifetimeCap);
    var expectedReward := dayReward * cappedSectorAge;
    var relevantReplacedAge := MinEpoch(replacedSectorAge, lifetimeCap - cappedSectorAge);
    if ReplacementWithinReward(dayReward, sectorAge, replacedDayReward, replacedSectorAge) then
      CappedRewardBounds(dayReward, cappedSectorAge, replacedDayReward, relevantReplacedAge, lifetimeCap);
      expectedReward + replacedDayReward * relevantReplacedAge
    else
      expectedReward + replacedDayReward * relevantReplacedAge
  }

  lemma CappedRewardBounds(dayReward: int, age: int, replacedDayReward: int, replacedAge: int, cap: int)
    requires 0 <= age && 0 <= replacedAge && age + replacedAge <= cap
    requires 0 <= replacedDayReward <= dayReward
    ensures 0 <= dayReward * age + replacedDayReward * replacedAge <= dayReward * cap
  {
    MulLe(0, age, dayReward);
    MulLe(0, replacedAge, replacedDayReward);
    MulLe(replacedDayReward, dayReward, replacedAge);
    MulLe(age + replacedAge, cap, dayReward);
    assert dayReward * age + dayReward * replacedAge == (age + replacedAge) * dayReward;
  }

  /** The age-based term of the penalty: the pledge at activation plus the
      forfeited fraction of the expected reward, converted from epochs times
      attoFIL per day to attoFIL. The factor's numerator multiplies first and
      the product of EpochsInDay and its denominator divides after. For a
      sector record with a sensible reward history the term is at least the
      pledge and at most the pledge plus half of 140 days of reward. */
  function RewardBasedPenalty(dayReward: int, sectorAge: int, twentyDayRewardAtActivation: int,
                              replacedDayReward: int, replacedSectorAge: int): (penalty: int)
    ensures ReplacementWithinReward(dayReward, sectorAge, replacedDayReward, replacedSectorAge) ==>
      twentyDayRewardAtActivation <= penalty <= twentyDayRewardAtActivation + dayReward * 70
  {
    var expectedReward := ExpectedRewardForTermination(dayReward, sectorAge, replacedDayReward, replacedSectorAge);
    var penalizedReward := expectedReward * TerminationRewardFactor.numerator;
    var divisor := EpochsInDay * TerminationRewardFactor.denominator;
    if ReplacementWithinReward(dayReward, sectorAge, replacedDayReward, replacedSectorAge) then
      DivMonotone(0, penalizedReward, divisor);
      DivMonotone(penalizedReward, (dayReward * 70) * divisor, divisor);
      DivExact(0, divisor);
      DivExact(dayReward * 70, divisor);
      twentyDayRewardAtActivation + Div(penalizedReward, divisor)
    else
      twentyDayRewardAtActivation + Div(penalizedReward, divisor)
  }

  /** Division rounds a negative dividend down, not toward zero: a sector
      whose age is one epoch before activation, earning one attoFIL a day,
      has an age-based term of -1 on top of its pledge (truncation would
      give 0). */
  lemma RewardBasedPenaltyOfNegativeAge()
    ensures RewardBasedPenalty(1, -1, 0, 0, 0) == -1
  {
  }

  /** The penalty for terminating one sector: at least its lower bound and at
      least the age-based term, and equal to one of the two. */
  function PledgePenaltyForTermination(dayReward: int, sectorAge: int, twentyDayRewardAtActivation: int,
                                       networkQAPowerEstimate: FilterEstimate, qaSectorPower: int,
                                       rewardEstimate: FilterEstimate, replacedDayReward: int,
                                       replacedSectorAge: int, smoothing: Estimator): (penalty: int)
    ensures penalty >= PledgePenaltyForTerminationLowerBound(rewardEstimate, networkQAPowerEstimate, qaSectorPower, smoothing)
    ensures penalty >= RewardBasedPenalty(dayReward, sectorAge, twentyDayRewardAtActivation, replacedDayReward, replacedSectorAge)
    ensures || penalty == PledgePenaltyForTerminationLowerBound(rewardEstimate, networkQAPowerEstimate, qaSectorPower, smoothing)
            || penalty == RewardBasedPenalty(dayReward, sectorAge, twentyDayRewardAtActivation, replacedDayReward, replacedSectorAge)
  {
    Max(PledgePenaltyForTerminationLowerBound(rewardEstimate, networkQAPowerEstimate, qaSectorPower, smoothing),
        RewardBasedPenalty(dayReward, sectorAge, twentyDayRewardAtActivation, replacedDayReward, replacedSectorAge))
  }

  /** The lower bound is the reward expected for the sector's power over 3.5
      days (10080 epochs); it is never negative while the network's power
      estimate is non-zero. */
  function PledgePenaltyForTerminationLowerBound(rewardEstimate: FilterEstimate, networkQAPowerEstimate: FilterEstimate,
                                                 qaSectorPower: int, smoothing: Estimator): (lowerBound: int)
    ensures lowerBound == ExpectedRewardForPower(rewardEstimate, networkQAPowerEstimate, qaSectorPower, 10080, smoothing)
    ensures smoothing.estimate(networkQAPowerEstimate) != 0 ==> lowerBound >= 0
  {
    ExpectedRewardForPower(rewardEstimate, networkQAPowerEstimate, qaSectorPower,
                           TerminationPenaltyLowerBoundProjectionPeriod, smoothing)
  }

  /** The sector's share of network reward over the projection period. With
      no network power estimate it falls back to the reward estimate itself;
      otherwise it is the sector's power times the projected Q.128 ratio of
      reward to network power, floored to an integer and clamped at zero. */
  function ExpectedRewardForPower(rewardEstimate: FilterEstimate, networkQAPowerEstimate: FilterEstimate,
                                  qaSectorPower: int, projectionDuration: int, smoothing: Estimator): (reward: int)
    ensures smoothing.estimate(networkQAPowerEstimate) == 0 ==> reward == smoothing.estimate(rewardEstimate)
    ensures smoothing.estimate(networkQAPowerEstimate) != 0 ==>
      var br128 := qaSectorPower * smoothing.extrapolatedCumSumOfRatio(projectionDuration, 0, rewardEstimate, networkQAPowerEstimate);
      && reward >= 0
      && (reward == 0 <==> br128 < Pow2(Precision128))
      && (reward > 0 ==> reward * Pow2(Precision128) <= br128 < (reward + 1) * Pow2(Precision128))
  {
    var networkQAPowerSmoothed := smoothing.estimate(networkQAPowerEstimate);
    if networkQAPowerSmoothed == 0 then
      smoothing.estimate(rewardEstimate)
    else
      var expectedRewardForProvingPeriod :=
        smoothing.extrapolatedCumSumOfRatio(projectionDuration, 0, rewardEstimate, networkQAPowerEstimate);
      var br128 := qaSectorPower * expectedRewardForProvingPeriod;
      var br := Rsh(br128, Precision128);
      Max(br, 0)
  }

  /** A sector terminated in its activation epoch that replaced nothing
      forfeits only its pledge at activation, or the lower bound if that is
      larger. */
  lemma PledgePenaltyOfFreshSector(dayReward: int, twentyDayRewardAtActivation: int,
                                   networkQAPowerEstimate: FilterEstimate, qaSectorPower: int,
                                   rewardEstimate: FilterEstimate, replacedSectorAge: int, smoothing: Estimator)
    ensures PledgePenaltyForTermination(dayReward, 0, twentyDayRewardAtActivation, networkQAPowerEstimate,
                                        qaSectorPower, rewardEstimate, 0, replacedSectorAge, smoothing)
         == Max(PledgePenaltyForTerminationLowerBound(rewardEstimate, networkQAPowerEstimate, qaSectorPower, smoothing),
                twentyDayRewardAtActivation)
  {
  }

  /** Past the lifetime cap the penalty no longer depends on the sector's age. */
  lemma PledgePenaltyConstantBeyondCap(dayReward: int, sectorAge: int, sectorAge': int, twentyDayRewardAtActivation: int,
                                       networkQAPowerEstimate: FilterEstimate, qaSectorPower: int,
                                       rewardEstimate: FilterEstimate, replacedDayReward: int,
                                       replacedSectorAge: int, smoothing: Estimator)
    requires sectorAge >= TerminationLifetimeCap * EpochsInDay
    requires sectorAge' >= TerminationLifetimeCap * EpochsInDay
    ensures PledgePenaltyForTermination(dayReward, sectorAge, twentyDayRewardAtActivation, networkQAPowerEstimate,
                                        qaSectorPower, rewardEstimate, replacedDayReward, replacedSectorAge, smoothing)
         == PledgePenaltyForTermination(dayReward, sectorAge', twentyDayRewardAtActivation, networkQAPowerEstimate,
                                        qaSectorPower, rewardEstimate, replacedDayReward, replacedSectorAge, smoothing)
  {
  }

  /** While the replaced sector earned no more per day than the new one, an
      older sector never owes less: the cap's headroom given up by the
      replaced sector is at most the age gained. */
  lemma ExpectedRewardMonotoneInAge(dayReward: int, sectorAge: int, sectorAge': int,
                                    replacedDayReward: int, replacedSectorAge: int)
    requires sectorAge <= sectorAge'
    requires 0 <= replacedDayReward <= dayReward
    ensures ExpectedRewardForTermination(dayReward, sectorAge, replacedDayReward, replacedSectorAge)
         <= ExpectedRewardForTermination(dayReward, sectorAge', replacedDayReward, replacedSectorAge)
  {
    var lifetimeCap := TerminationLifetimeCap * EpochsInDay;
    var c, c' := MinEpoch(sectorAge, lifetimeCap), MinEpoch(sectorAge', lifetimeCap);
    var m, m' := MinEpoch(replacedSectorAge, lifetimeCap - c), MinEpoch(replacedSectorAge, lifetimeCap - c');
    assert 0 <= m - m' <= c' - c;
    HeadroomTradeOff(dayReward, replacedDayReward, c, c', m, m');
  }

  /** Giving up headroom of the replaced sector for at least as much age of
      the new one never lowers the reward. */
  lemma HeadroomTradeOff(dayReward: int, replacedDayReward: int, c: int, c': int, m: int, m': int)
    requires 0 <= m - m' <= c' - c
    requires 0 <= replacedDayReward <= dayReward
    ensures dayReward * c + replacedDayReward * m <= dayReward * c' + replacedDayReward * m'
  {
    MulLe(m - m', c' - c, replacedDayReward);
    MulLe(replacedDayReward, dayReward, c' - c);
    assert dayReward * c' + replacedDayReward * m' - (dayReward * c + replacedDayReward * m)
        == dayReward * (c' - c) - (m - m') * replacedDayReward;
  }

  /** The penalty is non-decreasing in the sector's age. */
  lemma PledgePenaltyMonotoneInAge(dayReward: int, sectorAge: int, sectorAge': int, twentyDayRewardAtActivation: int,
                                   networkQAPowerEstimate: FilterEstimate, qaSectorPower: int,
                                   rewardEstimate: FilterEstimate, replacedDayReward: int,
                                   replacedSectorAge: int, smoothing: Estimator)
    requires sectorAge <= sectorAge'
    requires 0 <= replacedDayReward <= dayReward
    ensures PledgePenaltyForTermination(dayReward, sectorAge, twentyDayRewardAtActivation, networkQAPowerEstimate,
                                        qaSectorPower, rewardEstimate, replacedDayReward, replacedSectorAge, smoothing)
         <= PledgePenaltyForTermination(dayReward, sectorAge', twentyDayRewardAtActivation, networkQAPowerEstimate,
                                        qaSectorPower, rewardEstimate, replacedDayReward, replacedSectorAge, smoothing)
  {
    ExpectedRewardMonotoneInAge(dayReward, sectorAge, sectorAge', replacedDayReward, replacedSectorAge);
    DivMonotone(ExpectedRewardForTermination(dayReward, sectorAge, replacedDayReward, replacedSectorAge),
                ExpectedRewardForTermination(dayReward, sectorAge', replacedDayReward, replacedSectorAge),
                EpochsInDay * TerminationRewardFactor.denominator);
  }

  // ---------------------------------------------------------------------
  // Batch of sectors

  predicate AllHaveSpaceTime(sectorSize: nat, sectors: seq<SectorOnChainInfo>)
  {
    forall i :: 0 <= i < |sectors| ==> HasSpaceTime(sectorSize, sectors[i])
  }

  /** The fee for terminating one sector of the batch at `currEpoch`: its age
      is counted from activation, its power from its recorded weights. It is
      never negative while the network's power estimate is non-zero, and a
      sector with a sensible reward history forfeits at least its pledge. */
  function SectorFee(sectorSize: nat, currEpoch: int, rewardEstimate: FilterEstimate,
                     networkQAPowerEstimate: FilterEstimate, sector: SectorOnChainInfo, smoothing: Estimator): (fee: int)
    requires HasSpaceTime(sectorSize, sector)
    ensures smoothing.estimate(networkQAPowerEstimate) != 0 ==> fee >= 0
    ensures ReplacementWithinReward(sector.expectedDayReward, currEpoch - sector.activation,
                                    sector.replacedDayReward, sector.replacedSectorAge) ==>
      fee >= sector.expectedStoragePledge
  {
    PledgePenaltyForTermination(sector.expectedDayReward, currEpoch - sector.activation, sector.expectedStoragePledge,
                                networkQAPowerEstimate, QAPowerForSector(sectorSize, sector), rewardEstimate,
                                sector.replacedDayReward, sector.replacedSectorAge, smoothing)
  }

  /** The fees of the sectors of a batch, one per sector, in input order. */
  function Fees(sectorSize: nat, currEpoch: int, rewardEstimate: FilterEstimate,
                networkQAPowerEstimate: FilterEstimate, sectors: seq<SectorOnChainInfo>, smoothing: Estimator): (fees: seq<int>)
    requires AllHaveSpaceTime(sectorSize, sectors)
    ensures |fees| == |sectors|
    ensures forall i :: 0 <= i < |sectors| ==>
      fees[i] == SectorFee(sectorSize, currEpoch, rewardEstimate, networkQAPowerEstimate, sectors[i], smoothing)
  {
    seq(|sectors|, i requires 0 <= i < |sectors| =>
      SectorFee(sectorSize, currEpoch, rewardEstimate, networkQAPowerEstimate, sectors[i], smoothing))
  }

  /** The sum of a sequence of amounts, accumulated from the front. */
  function Sum(amounts: seq<int>): int
  {
    if amounts == [] then 0 else Sum(amounts[..|amounts| - 1]) + amounts[|amounts| - 1]
  }

  /** The total termination penalty of a batch of sectors: the running sum of
      the per-sector fees. */
  method TerminationPenalty(sectorSize: nat, currEpoch: int, rewardEstimate: FilterEstimate,
                            networkQAPowerEstimate: FilterEstimate, sectors: seq<SectorOnChainInfo>,
                            smoothing: Estimator) returns (totalFee: int)
    requires AllHaveSpaceTime(sectorSize, sectors)
    ensures totalFee == Sum(Fees(sectorSize, currEpoch, rewardEstimate, networkQAPowerEstimate, sectors, smoothing))
    ensures sectors == [] ==> totalFee == 0
  {
    ghost var fees := Fees(sectorSize, currEpoch, rewardEstimate, networkQAPowerEstimate, sectors, smoothing);
    totalFee := 0;
    for i := 0 to |sectors|
      invariant totalFee == Sum(fees[..i])
    {
      var s := sectors[i];
      var sectorPower := QAPowerForSector(sectorSize, s);
      var fee := PledgePenaltyForTermination(s.expectedDayReward, currEpoch - s.activation, s.expectedStoragePledge,
                                             networkQAPowerEstimate, sectorPower, rewardEstimate,
                                             s.replacedDayReward, s.replacedSectorAge, smoothing);
      assert fee == fees[i];
      SumStep(fees, i);
      totalFee := fee + totalFee;
    }
    assert fees[..|sectors|] == fees;
  }

  /** A prefix one longer sums to one more amount. */
  lemma SumStep(amounts: seq<int>, i: int)
    requires 0 <= i < |amounts|
    ensures Sum(amounts[..i + 1]) == Sum(amounts[..i]) + amounts[i]
  {
    assert amounts[..i + 1][..i] == amounts[..i];
  }

  /** Summing two sequences one after the other adds their sums. */
  lemma {:induction false} SumAppend(a: seq<int>, b: seq<int>)
    ensures Sum(a + b) == Sum(a) + Sum(b)
    decreases |b|
  {
    if b == [] {
      assert a + b == a;
    } else {
      var b' := b[..|b| - 1];
      assert (a + b)[..|a + b| - 1] == a + b';
      SumAppend(a, b');
    }
  }

  /** The sum does not depend on the order of the amounts. */
  lemma {:induction false} SumPermutation(a: seq<int>, b: seq<int>)
    requires multiset(a) == multiset(b)
    ensures Sum(a) == Sum(b)
    decreases |a|
  {
    if a == [] {
      assert |b| == |multiset(b)| == 0;
    } else {
      var x := a[|a| - 1];
      assert x in multiset(b);
      var j :| 0 <= j < |b| && b[j] == x;
      MultisetRemoveLast(a, b, j);
      SumPermutation(a[..|a| - 1], b[..j] + b[j + 1..]);
      assert b == b[..j] + [x] + b[j + 1..];
      SumAppend(b[..j], [x]);
      SumAppend(b[..j] + [x], b[j + 1..]);
      SumAppend(b[..j], b[j + 1..]);
      assert [x][..0] == [];
    }
  }

  lemma MultisetRemoveLast<T>(a: seq<T>, b: seq<T>, j: int)
    requires multiset(a) == multiset(b) && |a| > 0 && 0 <= j < |b| && b[j] == a[|a| - 1]
    ensures multiset(a[..|a| - 1]) == multiset(b[..j] + b[j + 1..])
  {
    var x := b[j];
    var a', b' := a[..|a| - 1], b[..j] + b[j + 1..];
    assert a == a' + [x];
    assert b == b[..j] + [x] + b[j + 1..];
    assert multiset(a) == multiset(a') + multiset{x};
    assert multiset(b) == multiset(b[..j]) + multiset{x} + multiset(b[j + 1..]);
    assert multiset(b') == multiset(b[..j]) + multiset(b[j + 1..]);
    assert multiset(a') == multiset(a) - multiset{x};
  }

  /** A sum of non-negative amounts is non-negative. */
  lemma {:induction false} SumNonNegative(amounts: seq<int>)
    requires forall i :: 0 <= i < |amounts| ==> amounts[i] >= 0
    ensures Sum(amounts) >= 0
    decreases |amounts|
  {
    if amounts != [] {
      SumNonNegative(amounts[..|amounts| - 1]);
    }
  }

  /** The penalty of two batches together is the sum of their penalties. */
  lemma TotalFeeAppend(sectorSize: nat, currEpoch: int, rewardEstimate: FilterEstimate,
                       networkQAPowerEstimate: FilterEstimate,
                       a: seq<SectorOnChainInfo>, b: seq<SectorOnChainInfo>, smoothing: Estimator)
    requires AllHaveSpaceTime(sectorSize, a) && AllHaveSpaceTime(sectorSize, b)
    ensures AllHaveSpaceTime(sectorSize, a + b)
    ensures Sum(Fees(sectorSize, currEpoch, rewardEstimate, networkQAPowerEstimate, a + b, smoothing))
         == Sum(Fees(sectorSize, currEpoch, rewardEstimate, networkQAPowerEstimate, a, smoothing))
          + Sum(Fees(sectorSize, currEpoch, rewardEstimate, networkQAPowerEstimate, b, smoothing))
  {
    var fa := Fees(sectorSize, currEpoch, rewardEstimate, networkQAPowerEstimate, a, smoothing);
    var fb := Fees(sectorSize, currEpoch, rewardEstimate, networkQAPowerEstimate, b, smoothing);
    assert AllHaveSpaceTime(sectorSize, a + b);
    assert Fees(sectorSize, currEpoch, rewardEstimate, networkQAPowerEstimate, a + b, smoothing) == fa + fb;
    SumAppend(fa, fb);
  }

  /** Taking the fee of each sector commutes with reordering the batch. */
  lemma {:induction false} FeesPermutation(sectorSize: nat, currEpoch: int, rewardEstimate: FilterEstimate,
                                           networkQAPowerEstimate: FilterEstimate,
                                           a: seq<SectorOnChainInfo>, b: seq<SectorOnChainInfo>, smoothing: Estimator)
    requires AllHaveSpaceTime(sectorSize, a) && AllHaveSpaceTime(sectorSize, b)
    requires multiset(a) == multiset(b)
    ensures multiset(Fees(sectorSize, currEpoch, rewardEstimate, networkQAPowerEstimate, a, smoothing))
         == multiset(Fees(sectorSize, currEpoch, rewardEstimate, networkQAPowerEstimate, b, smoothing))
    decreases |a|
  {
    if a == [] {
      assert |b| == |multiset(b)| == 0;
    } else {
      var x := a[|a| - 1];
      assert x in multiset(b);
      var j :| 0 <= j < |b| && b[j] == x;
      MultisetRemoveLast(a, b, j);
      FeesRemove(sectorSize, currEpoch, rewardEstimate, networkQAPowerEstimate, a, |a| - 1, smoothing);
      FeesRemove(sectorSize, currEpoch, rewardEstimate, networkQAPowerEstimate, b, j, smoothing);
      assert a[..|a| - 1] + a[|a|..] == a[..|a| - 1];
      FeesPermutation(sectorSize, currEpoch, rewardEstimate, networkQAPowerEstimate,
                      a[..|a| - 1], b[..j] + b[j + 1..], smoothing);
    }
  }

  /** Removing a sector from a batch removes its fee from the batch's fees. */
  lemma FeesRemove(sectorSize: nat, currEpoch: int, rewardEstimate: FilterEstimate,
                   networkQAPowerEstimate: FilterEstimate, b: seq<SectorOnChainInfo>, j: int, smoothing: Estimator)
    requires AllHaveSpaceTime(sectorSize, b) && 0 <= j < |b|
    ensures AllHaveSpaceTime(sectorSize, b[..j] + b[j + 1..])
    ensures multiset(Fees(sectorSize, currEpoch, rewardEstimate, networkQAPowerEstimate, b, smoothing))
         == multiset(Fees(sectorSize, currEpoch, rewardEstimate, networkQAPowerEstimate, b[..j] + b[j + 1..], smoothing))
          + multiset{SectorFee(sectorSize, currEpoch, rewardEstimate, networkQAPowerEstimate, b[j], smoothing)}
  {
    var b' := b[..j] + b[j + 1..];
    assert forall k :: 0 <= k < |b'| ==> b'[k] == if k < j then b[k] else b[k + 1];
    assert AllHaveSpaceTime(sectorSize, b');
    var fb := Fees(sectorSize, currEpoch, rewardEstimate, networkQAPowerEstimate, b, smoothing);
    var fr := Fees(sectorSize, currEpoch, rewardEstimate, networkQAPowerEstimate, b', smoothing);
    assert fr == fb[..j] + fb[j + 1..];
    MultisetRemove(fb, j);
  }

  lemma MultisetRemove<T>(s: seq<T>, j: int)
    requires 0 <= j < |s|
    ensures multiset(s) == multiset(s[..j] + s[j + 1..]) + multiset{s[j]}
  {
    assert s == s[..j] + [s[j]] + s[j + 1..];
  }

  /** The order of the sectors in a batch does not change its penalty. */
  lemma TotalFeePermutation(sectorSize: nat, currEpoch: int, rewardEstimate: FilterEstimate,
                            networkQAPowerEstimate: FilterEstimate,
                            a: seq<SectorOnChainInfo>, b: seq<SectorOnChainInfo>, smoothing: Estimator)
    requires AllHaveSpaceTime(sectorSize, a) && AllHaveSpaceTime(sectorSize, b)
    requires multiset(a) == multiset(b)
    ensures Sum(Fees(sectorSize, currEpoch, rewardEstimate, networkQAPowerEstimate, a, smoothing))
         == Sum(Fees(sectorSize, currEpoch, rewardEstimate, networkQAPowerEstimate, b, smoothing))
  {
    FeesPermutation(sectorSize, currEpoch, rewardEstimate, networkQAPowerEstimate, a, b, smoothing);
    SumPermutation(Fees(sectorSize, currEpoch, rewardEstimate, networkQAPowerEstimate, a, smoothing),
                   Fees(sectorSize, currEpoch, rewardEstimate, networkQAPowerEstimate, b, smoothing));
  }

  /** While the network's power estimate is non-zero every fee is at least
      its non-negative lower bound, so the total is never negative. */
  lemma TotalFeeNonNegative(sectorSize: nat, currEpoch: int, rewardEstimate: FilterEstimate,
                            networkQAPowerEstimate: FilterEstimate,
                            sectors: seq<SectorOnChainInfo>, smoothing: Estimator)
    requires AllHaveSpaceTime(sectorSize, sectors)
    requires smoothing.estimate(networkQAPowerEstimate) != 0
    ensures Sum(Fees(sectorSize, currEpoch, rewardEstimate, networkQAPowerEstimate, sectors, smoothing)) >= 0
  {
    SumNonNegative(Fees(sectorSize, currEpoch, rewardEstimate, networkQAPowerEstimate, sectors, smoothing));
  }
}
