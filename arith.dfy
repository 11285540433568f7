/** Integer helpers shared by the classifier and the presence probes. */
module Arith {

  /** Python's abs() on integers. */
  function Abs(x: int): (r: nat)
    ensures r == x || r == -x
  {
    if x < 0 then -x else x
  }
}
