// The telemetry sample that badger buffers and heron stores.
module Samples {
  // A float64 reading. JSON has no spelling for NaN or an infinity, so only a
  // finite reading can be marshalled.
  datatype Reading = Finite(r: real) | NonFinite

  datatype Sample = Sample(
    asset: string,
    metric: string,
    value: Reading,
    unit: string,
    ts: string,
    tags: map<string, string>)

  const EMPTY_SAMPLE := Sample("", "", Finite(0.0), "", "", map[])

  predicate Encodable(s: Sample) {
    s.value.Finite?
  }
}
