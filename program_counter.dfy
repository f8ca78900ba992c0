/** The program counter of src/chip8/chip8_mods/program_counter.rs: a cursor
    into RAM that always leaves room for a whole two-byte instruction. */
module Counter {
  import opened Primitives

  /** The largest address a full instruction can start at (4096 - 2). */
  const MaxPoint := 4094

  class ProgramCounter {
    var pointsAt: u32

    ghost predicate Valid()
      reads this
    {
      pointsAt <= MaxPoint
    }

    constructor ()
      ensures Valid() && pointsAt == 0
    {
      pointsAt := 0;
    }

    method GetPointValue() returns (v: u32)
      ensures v == pointsAt
    {
      v := pointsAt;
    }

    /** Stores `val` when an instruction fits there and panics otherwise. */
    method SetPointValue(val: u32) returns (outcome: Outcome)
      modifies this
      ensures outcome == (if val <= MaxPoint then Done else Panic(PcOutOfRange))
      ensures pointsAt == (if val <= MaxPoint then val else old(pointsAt))
      ensures old(Valid()) ==> Valid()
      ensures outcome.Done? ==> Valid()
    {
      if val <= MaxPoint {
        pointsAt := val;
        outcome := Done;
      } else {
        outcome := Panic(PcOutOfRange);
      }
    }
  }
}
