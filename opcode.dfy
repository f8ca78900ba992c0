/** The instruction-word side of src/chip8.rs: the handlers decode can bind,
    the operand fields the handlers cut out of the word, and what decode, as
    written, binds. */
module Opcode {
  import opened Primitives

  /** The closure stored in `current_function`: the do-nothing closure of a
      new machine, or one of the six handlers decode can bind. */
  datatype Handler = NoOp | Clear | Jump | LoadImm | AddImm | LoadIndex | Draw

  /** The instruction word built from a family nibble, a register nibble and
      a low byte: the inverse of the operand extraction below. */
  function Assemble(family: bv16, x: bv16, low: bv16): bv16
    requires family < 0x10 && x < 0x10 && low < 0x100
  {
    (family << 12) | (x << 8) | low
  }

  /** `(instr & 0x0F00) >> 8`: the register named by the second nibble. */
  function RegisterX(instr: bv16): (x: nat)
    ensures x < 16
  {
    ((instr & 0x0F00) >> 8) as int
  }

  /** `(instr & 0x00F0) >> 8`, as DXYN computes Y: the shift drops the
      masked nibble, so Y always names register 0. */
  function RegisterYAsWritten(instr: bv16): (y: nat)
    ensures y == 0
  {
    ((instr & 0x00F0) >> 8) as int
  }

  /** `(instr & 0x000F) >> 8`, as DXYN computes N: always 0. */
  function HeightAsWritten(instr: bv16): (n: nat)
    ensures n == 0
  {
    ((instr & 0x000F) >> 8) as int
  }

  /** `(instr & 0x00FF) as u8`: the low byte NN. */
  function LowByte(instr: bv16): u8 {
    (instr & 0x00FF) as int
  }

  /** `instr & 0x0FFF`: the address NNN. */
  function Address(instr: bv16): (nnn: u16)
    ensures nnn < 0x1000
  {
    (instr & 0x0FFF) as int
  }

  lemma AssembledNibbles(family: bv16, x: bv16, low: bv16)
    requires family < 0x10 && x < 0x10 && low < 0x100
    ensures (Assemble(family, x, low) & 0x0F00) >> 8 == x
    ensures Assemble(family, x, low) & 0xF000 == family << 12
  {
  }

  lemma AssembledLow(family: bv16, x: bv16, low: bv16)
    requires family < 0x10 && x < 0x10 && low < 0x100
    ensures Assemble(family, x, low) & 0x00FF == low
    ensures Assemble(family, x, low) & 0x0FFF == (x << 8) | low
  {
  }

  /** The fields come back out of an assembled word unchanged. */
  lemma FieldsOfAssembled(family: bv16, x: bv16, low: bv16)
    requires family < 0x10 && x < 0x10 && low < 0x100
    ensures RegisterX(Assemble(family, x, low)) == x as int
    ensures LowByte(Assemble(family, x, low)) == low as int
  {
    var w := Assemble(family, x, low);
    assert RegisterX(w) == x as int by {
      AssembledNibbles(family, x, low);
    }
    assert LowByte(w) == low as int by {
      AssembledLow(family, x, low);
    }
  }

  /** The address field of an assembled word is its low twelve bits. */
  lemma AddressOfAssembled(family: bv16, x: bv16, low: bv16)
    requires family < 0x10 && x < 0x10 && low < 0x100
    ensures Address(Assemble(family, x, low)) == ((x << 8) | low) as int
  {
    AssembledLow(family, x, low);
  }

  /** The handler bound once decode has seen `instr`, given the one bound
      before.  Decode compares `instr & 0xF000` with the literals 0x0 to 0xF;
      that value is a multiple of 0x1000, so only family 0 (00E0, 00EE and
      every other 0NNN) matches an arm, binding the clear-screen handler;
      every other word falls to the default arm and keeps the old binding. */
  function Rebound(instr: bv16, bound: Handler): Handler {
    if instr & 0xF000 == 0 then Clear else bound
  }

  /** Decoding a word of family 0 binds the clear-screen handler; a word of
      any other family, 1NNN, 6XNN, 7XNN, ANNN and DXYN included, keeps the
      handler bound before. */
  lemma DecodeOfAssembled(family: bv16, x: bv16, low: bv16, bound: Handler)
    requires family < 0x10 && x < 0x10 && low < 0x100
    ensures Rebound(Assemble(family, x, low), bound) == if family == 0 then Clear else bound
  {
    AssembledNibbles(family, x, low);
  }

  /** The handler bound after decoding `instrs` in order, on a new machine. */
  function BoundAfter(instrs: seq<bv16>): Handler {
    if instrs == [] then NoOp
    else Rebound(instrs[|instrs| - 1], BoundAfter(instrs[..|instrs| - 1]))
  }

  /** Some word of `instrs` is in family 0. */
  predicate SomeFamilyZero(instrs: seq<bv16>) {
    exists k :: 0 <= k < |instrs| && instrs[k] & 0xF000 == 0
  }

  /** On a new machine the bound handler is the clear-screen handler once a
      family-0 word has been decoded and the do-nothing closure before that;
      no other handler is ever bound. */
  lemma {:induction false} BoundAfterDecoding(instrs: seq<bv16>)
    ensures BoundAfter(instrs) == if SomeFamilyZero(instrs) then Clear else NoOp
  {
    if instrs != [] {
      var init, last := instrs[..|instrs| - 1], instrs[|instrs| - 1];
      BoundAfterDecoding(init);
      if SomeFamilyZero(init) {
        var k :| 0 <= k < |init| && init[k] & 0xF000 == 0;
        assert instrs[k] == init[k];
      }
      if SomeFamilyZero(instrs) && !SomeFamilyZero(init) {
        var k :| 0 <= k < |instrs| && instrs[k] & 0xF000 == 0;
        if k < |init| {
          assert init[k] == instrs[k];
        }
      }
      if last & 0xF000 == 0 {
        assert instrs[|instrs| - 1] & 0xF000 == 0;
      }
    }
  }
}
