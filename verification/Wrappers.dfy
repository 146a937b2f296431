/** What the models share. */
module Wrappers {
  datatype Option<+T> = None | Some(value: T)

  /** The numbers from a on and below b. */
  ghost function Upto(a: nat, b: nat): (r: set<nat>)
    ensures forall x :: x in r <==> a <= x < b
    ensures |r| == if a <= b then b - a else 0
  {
    if a >= b then {} else Upto(a, b - 1) + {b - 1}
  }
}
