/** Values shared by the whole evaluator: labels, raw samples, output points,
    instant vectors and matrices (types/types.go). */
module Types {

  datatype Option<+T> = None | Some(value: T)

  datatype Result<+T> = Ok(value: T) | Err(error: string)

  type Labels = map<string, string>

  /** A stored sample. `stale` is the bit pattern test of IsStaleNaN: the value of
      a stale marker is a NaN in the program and an arbitrary real here. */
  datatype Sample = Sample(ts: int, v: real, stale: bool)

  /** A sample of a computed series. */
  datatype Point = Point(ts: int, v: real)

  datatype Series = Series(labels: Labels, points: seq<Point>)

  datatype InstantSample = InstantSample(labels: Labels, t: int, v: real)

  type Vector = seq<InstantSample>

  type Matrix = seq<Series>

  /** A result that the program may report as NaN or as an infinity. */
  datatype Float = NaN | NegInf | PosInf | Fin(r: real)

  ghost predicate Increasing(s: seq<Sample>) {
    forall i, j :: 0 <= i < j < |s| ==> s[i].ts < s[j].ts
  }

  ghost predicate IncreasingTimes(ts: seq<int>) {
    forall i, j :: 0 <= i < j < |ts| ==> ts[i] < ts[j]
  }
}
