/** Machine integer widths and the ways an operation of the interpreter can end. */
module Primitives {

  /** Rust's unsigned integer types, as bounded integers.  Overflow is never
      implicit: every operation that could leave the range says what happens. */
  type u8 = x: int | 0 <= x < 0x100
  type u16 = x: int | 0 <= x < 0x1_0000
  type u32 = x: int | 0 <= x < 0x1_0000_0000

  /** The causes of a panic in the interpreter (a debug build is assumed, so
      arithmetic overflow panics instead of wrapping). */
  datatype Fault =
    | PcOutOfRange          // ProgramCounter::set_point_value above 4094
    | MemoryOutOfRange      // `RAM.get(..).unwrap()` past the end of RAM
    | RegisterOutOfRange    // indexing the 16-element register array at 16
    | AddOverflow           // `u8` addition past 255
    | SubtractUnderflow     // `u8` subtraction below 0
    | FontMissing           // Memory::new when read_font returns None
    | FontByteInvalid       // `from_str_radix(..).unwrap()` on a bad field

  /** How a state-changing operation ends: normally, or with a panic that
      aborts the whole session. */
  datatype Outcome = Done | Panic(fault: Fault)

  /** How a value-returning operation ends. */
  datatype Run<T> = Value(value: T) | Abort(fault: Fault)

  datatype Option<T> = None | Some(value: T)
}
