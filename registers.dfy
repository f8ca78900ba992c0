/** The two register kinds of src/chip8/chip8_mods/variable_register.rs and
    src/chip8/chip8_mods/index_register.rs: plain cells with a setter and a
    getter. */
module Registers {
  import opened Primitives

  /** One 8-bit general-purpose register V0..VF. */
  class VariableRegister {
    var value: u8

    constructor ()
      ensures value == 0
    {
      value := 0;
    }

    method Set(val: u8)
      modifies this
      ensures value == val
    {
      value := val;
    }

    method Get() returns (v: u8)
      ensures v == value
    {
      v := value;
    }
  }

  /** The 16-bit index register I.  Unlike the program counter, `set` takes
      any 16-bit value without a range check. */
  class IndexRegister {
    var value: u16

    constructor ()
      ensures value == 0
    {
      value := 0;
    }

    method Set(val: u16)
      modifies this
      ensures value == val
    {
      value := val;
    }

    method Get() returns (v: u16)
      ensures v == value
    {
      v := value;
    }
  }

  /** After two writes a read sees the last one. */
  method LastWriteWins(r: VariableRegister, first: u8, second: u8) returns (v: u8)
    modifies r
    ensures v == second && r.value == second
  {
    r.Set(first);
    r.Set(second);
    v := r.Get();
  }
}
