/** Small shared definitions (kern/include/lib.h). */
module KernLib {

  datatype Option<T> = None | Some(value: T)

  /** DIVROUNDUP */
  function DivRoundUp(a: nat, b: nat): nat
    requires b > 0
  {
    (a + b - 1) / b
  }

  /** The quotient is the least one that covers a. */
  lemma DivRoundUpCovers(a: nat, b: nat)
    requires b > 0
    ensures b * DivRoundUp(a, b) >= a
    ensures a > 0 ==> b * (DivRoundUp(a, b) - 1) < a
  {
    var q, r := (a + b - 1) / b, (a + b - 1) % b;
    assert a + b - 1 == b * q + r;
    assert b * (q - 1) == b * q - b;
  }
}
