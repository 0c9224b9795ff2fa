# Sector termination penalty

A Dafny model of the termination-penalty calculator of a Filecoin storage
tool (`cmd/sector.go`). For every sector in a batch it computes the
sector's quality-adjusted power from its size, committed duration, deal
weight and verified deal weight. It then computes the pledge penalty for
terminating the sector at the current epoch. That penalty is the larger of
two amounts:

- an age-based term: the pledge at activation plus half the reward the
  sector was expected to earn over its age, capped at 140 days and topped up
  with the reward of the sector it replaced, within the cap;
- a lower bound: the sector's share of network reward over 3.5 days,
  projected from the smoothed reward and power estimates.

The total is the sum of the per-sector penalties.

Files:

- `big.dfy` (module `Big`): the big-integer operations the formula uses.
  Shifts, Euclidean division and maximum are stated over unbounded `int`,
  each with the rounding it has.
- `builtin.dfy` (module `Builtin`): the protocol constants the formula reads.
  These are `EpochsInDay` = 2880, the quality multipliers 10, 10 and 100,
  the 20-bit quality precision and the 128-bit estimate precision. It also
  holds the `BigFrac` fraction record.
- `smoothing.dfy` (module `Smoothing`): the `FilterEstimate` record
  (position and velocity, Q.128). It also holds the `Estimator` record, which
  carries the smoothing library's two operations as function values.
- `sector.dfy` (module `SectorPenalty`): the core. It holds quality and
  power, the pledge penalty and its lower bound, and the batch total. The
  batch total is written twice: `TerminationPenalty`, a method with the
  source's accumulating loop, and `Sum(Fees(...))`, the sum of the
  per-sector fees that specifies it.

Division semantics: the formula's `big.Div` comes from the Filecoin state
types, which wrap math/big's `Int.Div`. That division is Euclidean: the
remainder is never negative. It is modelled as `Big.Div`, which is Dafny's
`/` with that property stated. Descriptions of the calculator speak of
truncating division. For a non-negative dividend the two agree. They differ
only for a negative dividend that is not an exact multiple, which needs a
negative reward, weight or age, or an expiration before activation.
`SectorPenalty.RewardBasedPenaltyOfNegativeAge` shows one such input.
`big.Rsh` is an arithmetic shift and rounds toward negative infinity. It is
modelled as Dafny's `/` by `Pow2(n)`, which is positive.

Zero space-time: the code has no error result for a sector whose size
times duration is zero. It divides by that product and would fault, so the
model states the precondition `size * duration != 0` on `QualityForWeight`.
For a batch, every sector must meet it (`AllHaveSpaceTime`).

## Model

| member | source | states |
|---|---|---|
| `Big.Div` | cmd/sector.go:190-192 | Euclidean division: for divisors of either sign, the remainder a − q·b is at least 0 and smaller than the divisor in magnitude, which pins the quotient |
| `Big.DivMonotone` | cmd/sector.go:190-192 | division by a positive divisor is monotone in the dividend |
| `Big.Rsh` | cmd/sector.go:208 | a right shift by n is the floor of a / 2^n: r·2^n ≤ a < (r+1)·2^n, and r > 0 exactly when a ≥ 2^n |
| `Big.Lsh` | cmd/sector.go:150-151 | a left shift by n loses no bits: a right shift by n gives a back, and that quotient times 2^n is the result, so the result is a·2^n |
| `Big.Max` | cmd/sector.go:186-192 | the result is at least both operands and equals one of them |
| `Big.DivExact` | cmd/sector.go:154 | dividing an exact multiple k·b by b gives k, for divisors of either sign |
| `SectorPenalty.QualityForWeight` | cmd/sector.go:132-155 | with spaceTime = size·duration, the weighted sum is 10·spaceTime + 90·verifiedWeight, because the deal-weight terms cancel; the quality is that sum shifted up by 20 bits, divided by space-time, then by 10 |
| `SectorPenalty.QualityForWeightIgnoresDealWeight` | cmd/sector.go:136-149 | the quality does not depend on the deal weight, because base and deal multipliers are both 10 |
| `SectorPenalty.QualityOfUnweightedSector` | cmd/sector.go:132-155 | with no deal or verified weight the quality is exactly 2^20 (quality one), for space-time of either sign |
| `SectorPenalty.QualityForWeightBounds` | cmd/sector.go:132-155 | if both weights are non-negative and their sum is at most a positive space-time, then 2^20 ≤ quality ≤ 10·2^20 |
| `SectorPenalty.QAPowerForWeight` | cmd/sector.go:127-130 | the power is the raw size when there is no deal or verified weight; it lies between the raw size and ten times the raw size when both weights are non-negative and their sum is at most a positive space-time |
| `SectorPenalty.QAPowerOf64GiBSector` | cmd/sector.go:127-130 | a 64 GiB sector committed for 1051200 epochs with no deals has quality 2^20 and power 68719476736 |
| `SectorPenalty.QAPowerForSector` | cmd/sector.go:120-124 | power from duration = expiration − activation: equal to the size without deals, and between size and 10·size when the recorded weights fit |
| `SectorPenalty.MinEpoch` | cmd/sector.go:158-163 | the result is at most both epochs and equals one of them |
| `SectorPenalty.ExpectedRewardForTermination` | cmd/sector.go:174-182 | at an age at or past 140·2880 epochs, with a non-negative replaced age, the expected reward is exactly 140 days of the day reward and the replaced sector adds nothing; with non-negative ages and 0 ≤ replacedDayReward ≤ dayReward it lies between 0 and 140 days of the day reward |
| `SectorPenalty.RewardBasedPenalty` | cmd/sector.go:184-192 | with non-negative ages and 0 ≤ replacedDayReward ≤ dayReward, the age-based term lies between the pledge at activation and that pledge plus 70 days of the day reward |
| `SectorPenalty.RewardBasedPenaltyOfNegativeAge` | cmd/sector.go:184-192 | an age of −1 epoch with a day reward of 1 gives an age-based term of −1, because the division rounds the negative dividend down |
| `SectorPenalty.PledgePenaltyForTermination` | cmd/sector.go:170-193 | the penalty is at least the lower bound and at least pledge + ⌊expectedReward·1 / (2880·2)⌋, and equals one of the two |
| `SectorPenalty.PledgePenaltyForTerminationLowerBound` | cmd/sector.go:195-199 | the lower bound is the expected reward for the sector's power over 10080 epochs (3.5 days); it is non-negative when the network power estimate is non-zero |
| `SectorPenalty.ExpectedRewardForPower` | cmd/sector.go:201-211 | when the network power estimate is zero, the result is the reward estimate. Otherwise it is non-negative. It is 0 exactly when power·ratio < 2^128, and when positive it is ⌊power·ratio / 2^128⌋ |
| `SectorPenalty.PledgePenaltyOfFreshSector` | cmd/sector.go:176-192 | with sector age 0 and no replaced day reward, the penalty is max(lower bound, pledge at activation) |
| `SectorPenalty.PledgePenaltyConstantBeyondCap` | cmd/sector.go:176-182 | any two ages at or beyond 140·2880 epochs give the same penalty |
| `SectorPenalty.ExpectedRewardMonotoneInAge` | cmd/sector.go:176-182 | if 0 ≤ replacedDayReward ≤ dayReward, the capped expected reward (with the replaced sector's reward within the remaining headroom) does not decrease with age |
| `SectorPenalty.PledgePenaltyMonotoneInAge` | cmd/sector.go:176-192 | if 0 ≤ replacedDayReward ≤ dayReward, the penalty does not decrease with sector age |
| `SectorPenalty.SectorFee` | cmd/sector.go:111-114 | the fee of one sector is never negative while the network power estimate is non-zero, and it is at least the sector's expected storage pledge when its age and replaced age are non-negative and 0 ≤ replacedDayReward ≤ expectedDayReward |
| `SectorPenalty.Fees` | cmd/sector.go:111-114 | one fee per sector, in input order: the pledge penalty at age currEpoch − activation, with the sector's QA power, its expected storage pledge as the pledge at activation, and its replaced reward and age |
| `SectorPenalty.TerminationPenalty` | cmd/sector.go:108-118 | the loop's running total is the sum of the batch's fees; the empty batch costs 0 |
| `SectorPenalty.SumAppend` | cmd/sector.go:110-117 | summing two sequences of amounts one after the other gives the sum of their sums |
| `SectorPenalty.SumPermutation` | cmd/sector.go:110-117 | two sequences holding the same amounts in any order have the same sum |
| `SectorPenalty.TotalFeeAppend` | cmd/sector.go:108-118 | the penalty of batch a ++ b is the penalty of a plus the penalty of b |
| `SectorPenalty.FeesPermutation` | cmd/sector.go:111-114 | reordering the sectors of a batch reorders their fees, as multisets |
| `SectorPenalty.TotalFeePermutation` | cmd/sector.go:108-118 | two batches holding the same sectors in any order have the same total penalty |
| `SectorPenalty.TotalFeeNonNegative` | cmd/sector.go:108-118 | when the network power estimate is non-zero, the total penalty is non-negative |

## Left out

- The command-line command, its `init` registration and its argument parsing (cmd/sector.go:25-45) are user-interface plumbing.
- `clacTerminationPenalty` (cmd/sector.go:47-106) is not modelled. It fetches the chain head, sector info and actor state from a remote node, decodes CBOR, logs, and prints the result and its float conversion. In the model, the current epoch, the sector records and the two smoothed estimates are parameters.
- `smoothing.Estimate` and `smoothing.ExtrapolatedCumSumOfRatio` belong to a library that is not part of this model. They are passed in as the two function values of `Smoothing.Estimator`, so every property here holds for any such functions.
- `SectorPenalty.ExpectedRewardForPower`: a zero result when the reward estimate's position is zero and network power is non-zero is not stated. It depends on how `ExtrapolatedCumSumOfRatio` is defined, and that function is not part of this model.
- `Big.Div`: the state types' `big.Div` is not part of this model. It is taken to be math/big's Euclidean `Int.Div`, which it wraps. If it truncated toward zero instead, results would differ only for a negative dividend that is not an exact multiple.
- The `int64`/`uint64` conversions of epochs and sector size are not modelled. All quantities are unbounded integers, and the big-integer arithmetic cannot overflow.
- Sectors are passed as a sequence of records, not as pointers. A nil entry, which would fault, cannot be expressed. The record keeps only the eight fields the formula reads.
- A zero-space-time sector faults in the code and has no error result. It is a precondition here, not an error result.
