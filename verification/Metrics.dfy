/** Shared shapes of metrics and number data points. */
module Metrics {

  datatype Temporality = Unspecified | Delta | Cumulative

  datatype MetricType =
    | EmptyMetric
    | Gauge
    | Sum(monotonic: bool, temporality: Temporality)
    | Histogram(histogramTemporality: Temporality)
    | ExponentialHistogram(expoTemporality: Temporality)
    | Summary

  predicate IsMonotonicSum(m: MetricType) { m.Sum? && m.monotonic }

  predicate IsDelta(m: MetricType) { m.Sum? && m.temporality == Delta }

  predicate IsCumulativeMonotonicSum(m: MetricType) {
    m.Sum? && m.monotonic && m.temporality == Cumulative
  }

  datatype NumberValue = NoValue | IntValue(i: int) | DoubleValue(d: real)

  function AsReal(v: NumberValue): real {
    match v
    case NoValue => 0.0
    case IntValue(i) => i as real
    case DoubleValue(d) => d
  }

  datatype HintClass = Clock | Constant | CurrentCount | SlowGauge | SparseCounter | StableBinary | SteadyCounter

  datatype Distribution = Distribution(medianMonotonicSum: nat, stdDevGaugePct: real, stdDev: real)

  /** A number data point; the pipeline overwrites its value in place. */
  class NumberDataPoint {
    var value: NumberValue

    constructor (value: NumberValue)
      ensures this.value == value
    {
      this.value := value;
    }
  }
}
