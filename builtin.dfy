/** Protocol constants of the Filecoin actors that the termination-penalty
    formula reads (the `builtin` and `math` packages of the state types). */
module Builtin {

  /** `builtin.BigFrac`: a fraction applied as a multiplication by the
      numerator followed by an integer division by the denominator. */
  datatype BigFrac = BigFrac(numerator: int, denominator: int)

  /** Epochs are 30 seconds long, so a day has 24 * 60 * 60 / 30 of them. */
  const EpochsInDay: int := 2880

  /** Weights of the three kinds of space-time in a sector's quality. */
  const QualityBaseMultiplier: int := 10
  const DealWeightMultiplier: int := 10
  const VerifiedDealWeightMultiplier: int := 100

  /** Sector quality is a fixed-point number with this many fractional bits. */
  const SectorQualityPrecision: nat := 20

  /** Smoothed estimates and their ratios are Q.128 fixed-point numbers. */
  const Precision128: nat := 128
}
