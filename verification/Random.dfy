/** The pseudo-random source: an arbitrary tape of draws, read front to back.
    Theorems quantify over the tape, hence over every seed. */
module Random {

  /** What the source would return for a draw of each kind at each position. */
  datatype Tape = Tape(uniform: nat -> real, normal: nat -> real, index: nat -> nat) {
    ghost predicate Valid() {
      forall p :: 0.0 <= uniform(p) < 1.0
    }
  }

  class Rand {
    const tape: Tape
    var pos: nat

    constructor (tape: Tape)
      ensures this.tape == tape && pos == 0
    {
      this.tape := tape;
      pos := 0;
    }

    method Float64() returns (u: real)
      modifies this
      ensures u == tape.uniform(old(pos)) && pos == old(pos) + 1
    {
      u := tape.uniform(pos);
      pos := pos + 1;
    }

    method NormFloat64() returns (z: real)
      modifies this
      ensures z == tape.normal(old(pos)) && pos == old(pos) + 1
    {
      z := tape.normal(pos);
      pos := pos + 1;
    }

    method Intn(n: nat) returns (i: nat)
      requires n > 0
      modifies this
      ensures i == tape.index(old(pos)) % n && pos == old(pos) + 1
    {
      i := tape.index(pos) % n;
      pos := pos + 1;
    }

    method Int63() returns (i: nat)
      modifies this
      ensures i == tape.index(old(pos)) && pos == old(pos) + 1
    {
      i := tape.index(pos);
      pos := pos + 1;
    }
  }
}
