/** Values shared by the three webcam controllers. */
module Basics {

  /** An optional value; None stands for Python's None. */
  datatype Option<T> = None | Some(value: T)

  /** A landmark position in normalised frame coordinates (y grows downwards). */
  datatype Point = Point(x: real, y: real)

  /** The keys the controllers hand to the input injector. */
  datatype Key = Up | Down | Left | Right | Space | Enter | W | S | A | D

  /** Absolute value of a coordinate difference. */
  function Abs(r: real): (a: real)
    ensures a >= 0.0 && (a == r || a == -r)
  {
    if r < 0.0 then -r else r
  }
}
