/** Exponentially smoothed network estimates, as kept by the reward actor
    (reward per epoch) and the power actor (quality-adjusted network power). */
module Smoothing {

  /** A smoothed estimate: a position and its velocity, both Q.128 fixed-point. */
  datatype FilterEstimate = FilterEstimate(positionEstimate: int, velocityEstimate: int)

  /** The two operations of the smoothing library that the penalty formula
      calls. Their definitions are not part of this model: they are passed to
      the formula as parameters, so every property proved about the formula
      holds whatever these functions compute.
      - `estimate(e)`: the current value of the estimate `e`, descaled to Q.0.
      - `extrapolatedCumSumOfRatio(duration, startDelta, x, y)`: the Q.128
        approximation of the sum of x / y over `duration` epochs that start
        `startDelta` epochs from now. */
  datatype Estimator = Estimator(
    estimate: FilterEstimate -> int,
    extrapolatedCumSumOfRatio: (int, int, FilterEstimate, FilterEstimate) -> int)
}
