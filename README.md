# A Dafny model of the rs_chip8 interpreter core

This project models the machine state and the instruction cycle of the
rs_chip8 CHIP-8 interpreter, a Rust program.
It covers the `Chip8` aggregate with its fetch, decode, execute and update
steps and the opcode handlers that decode binds. It also covers the passive
components those steps change:

- the 4096-byte memory, with its font-table text parser and its word read;
- the bounds-checked program counter;
- the `Vec`-backed stack;
- the 32×64 display;
- the delay and sound timers;
- the sixteen `u8` variable registers and the `u16` index register.

Each Rust struct whose methods update fields in place is a Dafny `class`,
and each method is proved against a specification. Component classes live
in their own modules (`Ram`, `Counter`, `CallStack`, `Screen`, `Timers`,
`Registers`). Operand extraction and the decode rule are in `Opcode`. The
font parser is in `Font`, and the interpreter itself is in `Interpreter`.

Machine integers follow the source's widths. `u8`, `u16` and `u32` are
bounded integer types. The instruction word is a `bv16`, because the source
only masks and shifts it. A Rust panic (debug build) is a result value,
either `Outcome.Panic(fault)` or `Run.Abort(fault)`, and carries a `Fault`
naming its cause.

The model follows the code as written, including where the code does not do
what the CHIP-8 instruction set intends:

- `decode` compares `instruction & 0xF000` with the literals 0x0 to 0xF.
  Only words whose top nibble is 0 (00E0, and also 00EE) bind a handler,
  which is clear-screen. Every other word leaves the previous binding in
  place.
- Starting from a new machine, the bound handler is therefore always the
  no-op or clear-screen (`Interpreter.Chip8.Update`, `Opcode.BoundAfterDecoding`).
- Handlers read the instruction current when they run, not the one they
  were bound for.
- DXYN reads Y as `(instr & 0x00F0) >> 8`, which is always 0, and N as
  `(instr & 0x000F) >> 8`, which is always 0. It writes the flag at index
  16 of the 16-element register array, so it panics before touching a
  pixel. The index is a constant, and rustc's deny-by-default
  `unconditional_panic` lint may refuse to compile that write; the model
  treats it as the runtime panic it would be if the code were compiled
  with that lint allowed. Its drawing loop is modelled on its own (`DrawRow`, `DrawBits`).
  That loop draws bits least significant first and stops at the right edge.
- 7XNN panics on `u8` overflow. A timer tick at 0 panics on `u8`
  underflow, because the guard `value >= 0` always holds. Setting the
  program counter above 4094 panics, so a fetch at 4093 or above panics.
- The stack never rejects a push and ignores a pop on an empty stack.

## Model

| member | source | states |
|---|---|---|
| Font.Retained | src/chip8/chip8_mods/memory.rs:13 | removing whitespace leaves no whitespace character, never lengthens the text, and gives back a text without whitespace unchanged |
| Font.IsWhitespace | src/chip8/chip8_mods/memory.rs:13 | the characters `char::is_whitespace` accepts: the Unicode White_Space set |
| Font.RetainedKeepsText | src/chip8/chip8_mods/memory.rs:13 | every character that is not whitespace occurs as often in the result as in the text |
| Font.RetainNonWhitespace | src/chip8/chip8_mods/memory.rs:13 | the in-place `retain` loop leaves exactly the non-whitespace characters, in order |
| Font.Split | src/chip8/chip8_mods/memory.rs:14 | splitting on ',' gives one more field than there are commas, and no field holds a comma |
| Font.TrimHexPrefix | src/chip8/chip8_mods/memory.rs:21 | the trimmed field is no longer than the field and no longer starts with "0x", so every repeated prefix is gone; a field that does not start with "0x" comes back unchanged |
| Font.TrimmedIsSuffix | src/chip8/chip8_mods/memory.rs:21 | trimming only removes characters from the front, leaving a suffix of the field |
| Font.TrimmedPrefixPairs | src/chip8/chip8_mods/memory.rs:21 | what trimming cuts off is a whole number of "0x" pairs and nothing else |
| Font.DigitValue | src/chip8/chip8_mods/memory.rs:22 | a hex digit of either case has a value below 16; any other character has none |
| Font.HexValue | src/chip8/chip8_mods/memory.rs:22 | a run of characters has a base-16 value exactly when every one of them is a hex digit |
| Font.ParseU8 | src/chip8/chip8_mods/memory.rs:22 | `u8::from_str_radix(_, 16)`: an optional '+', then at least one hex digit, with a value below 0x100, else no byte |
| Font.FieldByte | src/chip8/chip8_mods/memory.rs:21-22 | a field's byte is the base-16 parse of the field with its "0x" prefixes dropped |
| Font.FieldBytes | src/chip8/chip8_mods/memory.rs:19-23 | when every field parses, result k is the byte field k parses to, in the fields' order |
| Font.ParseFont | src/chip8/chip8_mods/memory.rs:13-27 | the result of read_font on the file's text: a panic only for a field that is not a byte, and 80 bytes whenever it gives any |
| Font.ReadFont | src/chip8/chip8_mods/memory.rs:5-28 | the parse gives None unless the stripped text has exactly 80 comma fields, panics if a field is not a base-16 `u8`, and otherwise returns the 80 parsed bytes |
| Font.FillBytes | src/chip8/chip8_mods/memory.rs:18-23 | the loop over the 80 fields yields the parsed bytes in field order when every field parses, and panics on the first one that does not |
| Font.TwoDigitField | src/chip8/chip8_mods/memory.rs:21-22 | "0x" followed by two hex digits parses to 16·hi + lo, which fits a `u8` |
| Font.LiteralReadsBack | src/chip8/chip8_mods/memory.rs:13-22 | every byte written as "0xHH" parses back to itself, and the literal holds no comma and no whitespace |
| Font.RetainedConcat | src/chip8/chip8_mods/memory.rs:13 | removing whitespace from a concatenation is the concatenation of the two results |
| Font.RetainedListing | src/chip8/chip8_mods/memory.rs:13 | removing whitespace from a ", "-separated listing of byte literals leaves the literals joined by bare commas |
| Font.SplitJoin | src/chip8/chip8_mods/memory.rs:14 | splitting comma-free fields joined by commas gives back the fields |
| Font.ListingFields | src/chip8/chip8_mods/memory.rs:13-14 | stripping and splitting a listing of byte literals gives back the literals |
| Font.FontListingLoads | src/chip8/chip8_mods/memory.rs:13-27 | a font file listing 80 bytes as "0xHH, …" reads back as exactly those bytes |
| Font.FontListingWrongCount | src/chip8/chip8_mods/memory.rs:15-17 | a listing of any number of bytes other than 80, the empty file included, reads as None |
| Font.BadFieldPanics | src/chip8/chip8_mods/memory.rs:19-22 | 80 fields of which one does not parse make the read panic, whatever the others hold |
| Font.EmptyFieldRejected | src/chip8/chip8_mods/memory.rs:21-22 | a field with no digits once its "0x" prefixes are dropped ("", "0x", "0x0x") or with only a sign ("0x+") does not parse |
| Font.NonHexFieldRejected | src/chip8/chip8_mods/memory.rs:21-22 | a field holding a character that is not a hex digit once its prefixes are dropped does not parse, except for a single leading '+' |
| Font.LeadingDigitValue | src/chip8/chip8_mods/memory.rs:22 | hex digits with a non-zero leading digit are worth at least 1, at least 16 when there are two, and at least 256 when there are three or more |
| Font.WideFieldRejected | src/chip8/chip8_mods/memory.rs:21-22 | "0x" followed by three or more hex digits, the first of them not 0, is above 0xFF and does not parse |
| Ram.Memory.New | src/chip8/chip8_mods/memory.rs:35-46 | a font read that panics or gives None makes construction panic; otherwise RAM holds the 80 font bytes at 0..79 and zeros from 80 to 4095 |
| Ram.Memory.constructor | src/chip8/chip8_mods/memory.rs:45 | the memory holds exactly the 4096-byte array it is built around |
| Ram.Memory.LoadFont | src/chip8/chip8_mods/memory.rs:41-43 | font byte k lands in cell k and every other cell keeps its zero |
| Ram.Memory.GetInstruction | src/chip8/chip8_mods/memory.rs:48-53 | the word at p has RAM[p] as its high byte and RAM[p+1] as its low byte (big-endian), and it panics exactly when p + 1 ≥ 4096 |
| Ram.Memory.GetByte | src/chip8.rs:111 | assumed: the byte at start + offset, panicking past the end of RAM |
| Counter.ProgramCounter.constructor | src/chip8/chip8_mods/program_counter.rs:8-10 | a new counter points at 0 and satisfies the bound |
| Counter.ProgramCounter.GetPointValue | src/chip8/chip8_mods/program_counter.rs:12-14 | returns the stored point and changes nothing |
| Counter.ProgramCounter.SetPointValue | src/chip8/chip8_mods/program_counter.rs:16-24 | a value up to 4094 is stored exactly; a larger one panics and leaves the counter as it was; the bound `points_at ≤ 4094` is kept |
| CallStack.Stack.constructor | src/chip8/chip8_mods/stack.rs:8-10 | a new stack is empty |
| CallStack.Stack.Push | src/chip8/chip8_mods/stack.rs:12-17 | the value is appended and earlier entries are kept; past 16 entries it is still stored and only reported |
| CallStack.Stack.Pop | src/chip8/chip8_mods/stack.rs:19-21 | drops exactly the last entry, and leaves an empty stack empty |
| CallStack.PushThenPop | src/chip8/chip8_mods/stack.rs:12-21 | a push followed by a pop restores the previous contents |
| Screen.Display.constructor | src/chip8/chip8_mods/display.rs:6-10 | a new 32×64 display has every pixel off |
| Screen.Display.Clear | src/chip8/chip8_mods/display.rs:12-19 | after the nested walk every one of the 2048 pixels is off, whatever the display held |
| Screen.ClearTwice | src/chip8/chip8_mods/display.rs:12-17 | clearing twice leaves the same all-off display as clearing once, because `Clear` sets every pixel whatever the display held |
| Screen.Display.SetPixel | src/chip8.rs:129-131 | assumed: switches on the one pixel at (x, y) and no other |
| Screen.Display.UnSetPixel | src/chip8.rs:123-125 | assumed: switches off the one pixel at (x, y) and no other |
| Screen.Display.IsPixelOn | src/chip8.rs:119-121 | assumed: reads the pixel at column x of row y |
| Screen.Display.IsRightEdge | src/chip8.rs:134 | assumed: holds of the last column, 63, only |
| Screen.RowWidth | src/chip8.rs:134-137 | a sprite row covers eight columns, or fewer when the right edge comes first; it never runs past column 63 |
| Screen.Mask | src/chip8.rs:113-116 | the draw loop's mask on pass k: 1 at first, shifted left by one on each pass |
| Screen.MaskSelectsBit | src/chip8.rs:113-116 | on pass k the mask, which starts at 1 and is shifted left once per pass, selects bit k counted from the least significant |
| Screen.TestBit | src/chip8.rs:115-116 | one mask step reports bit k of the sprite and yields the mask for pass k + 1 |
| Timers.TicksCountDown | src/chip8/chip8_mods/delay_timer.rs:10-16 | n ticks from v leave v − n when n ≤ v, and panic on underflow otherwise |
| Timers.NewTimerRunsOut | src/chip8/chip8_mods/sound_timer.rs:6-17 | 255 ticks take a new timer to 0, and the 256th panics |
| Timers.CountDown | src/chip8/chip8_mods/delay_timer.rs:10-16 | one tick of a timer value: one less, or the underflow panic at 0 |
| Timers.AfterTicks | src/chip8/chip8_mods/delay_timer.rs:10-16 | n ticks in a row, stopping at the first panic |
| Timers.DelayTimer.constructor | src/chip8/chip8_mods/delay_timer.rs:6-8 | a new delay timer holds 255 |
| Timers.DelayTimer.Tick | src/chip8/chip8_mods/delay_timer.rs:10-16 | above 0 the value drops by exactly 1; at 0 the `u8` subtraction panics, since the guard `value >= 0` always holds |
| Timers.DelayTimer.GetValue | src/chip8/chip8_mods/delay_timer.rs:18-20 | returns the value and changes nothing |
| Timers.SoundTimer.constructor | src/chip8/chip8_mods/sound_timer.rs:6-8 | a new sound timer holds 255 |
| Timers.SoundTimer.Tick | src/chip8/chip8_mods/sound_timer.rs:10-17 | above 0 the value drops by exactly 1; at 0 the `u8` subtraction panics |
| Timers.SoundTimer.GetValue | src/chip8/chip8_mods/sound_timer.rs:19-21 | returns the value and changes nothing |
| Registers.VariableRegister.constructor | src/chip8/chip8_mods/variable_register.rs:7-9 | a new register holds 0 |
| Registers.VariableRegister.Set | src/chip8/chip8_mods/variable_register.rs:11-13 | the register then holds exactly the value set |
| Registers.VariableRegister.Get | src/chip8/chip8_mods/variable_register.rs:15-17 | returns the value and changes nothing |
| Registers.LastWriteWins | src/chip8/chip8_mods/variable_register.rs:11-17 | after two writes, reading returns the second |
| Registers.IndexRegister.constructor | src/chip8/chip8_mods/index_register.rs:6-8 | a new index register holds 0 |
| Registers.IndexRegister.Set | src/chip8/chip8_mods/index_register.rs:10-12 | any `u16` is stored exactly, with no range check |
| Registers.IndexRegister.Get | src/chip8/chip8_mods/index_register.rs:14-16 | returns the value and changes nothing |
| Opcode.RegisterX | src/chip8.rs:71 | X, the second nibble, always names one of the 16 registers |
| Opcode.RegisterYAsWritten | src/chip8.rs:101 | Y as written is always register 0 |
| Opcode.HeightAsWritten | src/chip8.rs:108 | N as written is always 0 |
| Opcode.Address | src/chip8.rs:59 | NNN is below 0x1000 |
| Opcode.LowByte | src/chip8.rs:70 | NN, the low byte of the word, as 6XNN and 7XNN cut it out |
| Opcode.FieldsOfAssembled | src/chip8.rs:70-71 | the word with nibble X and low byte NN gives back X and NN |
| Opcode.AddressOfAssembled | src/chip8.rs:59 | the word with nibble X and low byte NN has address X·256 + NN |
| Opcode.DecodeOfAssembled | src/chip8.rs:51-151 | decoding any word of family F binds clear-screen when F = 0 and keeps the previous binding for every other family |
| Opcode.Rebound | src/chip8.rs:51-152 | the binding after decode sees one word: clear-screen for a word whose top nibble is 0, the previous binding for every other word |
| Opcode.BoundAfter | src/chip8.rs:50-152 | the binding after a run of decodes on a new machine, starting from the do-nothing closure bound at src/chip8.rs:38 |
| Opcode.BoundAfterDecoding | src/chip8.rs:38 | after any sequence of decodes from a new machine, the binding is clear-screen if some decoded word had a top nibble of 0, and the no-op otherwise |
| Interpreter.Chip8.constructor | src/chip8.rs:28-39 | the new machine has fresh components in their initial states, 16 distinct zeroed registers, instruction 0 and the no-op bound |
| Interpreter.Chip8.SetRegister | src/chip8.rs:105 | writing register idx succeeds for idx < 16 and panics for any other index |
| Interpreter.Chip8.Fetch | src/chip8.rs:46-49 | the current instruction becomes the big-endian word at pc; pc advances by exactly 2, or the step panics when pc > 4092 and pc stays; the binding is unchanged |
| Interpreter.Chip8.Decode | src/chip8.rs:50-153 | the binding becomes clear-screen when the top nibble is 0 and is otherwise left as it was; a new machine's binding is kept the one its decodes give |
| Interpreter.Chip8.ClearScreen | src/chip8.rs:54 | every pixel is off afterwards |
| Interpreter.Chip8.JumpTo | src/chip8.rs:58-61 | pc becomes NNN of the instruction current at execute time; the handler panics exactly when NNN = 0xFFF, leaving pc as it was |
| Interpreter.Chip8.LoadImmediate | src/chip8.rs:69-73 | VX becomes NN and every other register keeps its value |
| Interpreter.Chip8.AddImmediate | src/chip8.rs:77-82 | VX becomes VX + NN when the sum fits a `u8`, and the handler panics otherwise; every other register, VF included, keeps its value |
| Interpreter.Chip8.SetIndex | src/chip8.rs:88-91 | I becomes NNN |
| Interpreter.Chip8.DrawSprite | src/chip8.rs:97-105 | the handler always panics on the write to register 16, before touching any pixel |
| Interpreter.Chip8.DrawRow | src/chip8.rs:108-144 | with I past the end of RAM the pass panics and no pixel changes; otherwise it completes exactly when no set bit meets a pixel already on, and then the display is the old one with the covered pixels switched on |
| Interpreter.Chip8.DrawBits | src/chip8.rs:113-138 | walks the sprite's bits least significant first from column vx to the right edge: it panics exactly when a set bit meets a lit pixel; otherwise row vy gains exactly the set bits and other rows are untouched |
| Interpreter.Chip8.DrawPixel | src/chip8.rs:118-133 | a set bit over a lit pixel switches it off and reports a collision; otherwise the pixel is switched on when the bit is set; no other pixel changes |
| Interpreter.Chip8.Execute | src/chip8.rs:154-156 | runs the bound handler against the current instruction, with each handler's effect and everything else unchanged |
| Interpreter.Chip8.Update | src/chip8.rs:204-208 | a panicking fetch stops the cycle with nothing else changed; otherwise decode and execute follow, and whichever handler is bound has its effect with pc already moved on by 2; from a new machine the binding is always the no-op or clear-screen, so a cycle either only advances pc or clears the display too |

## Left out

- `Chip8::run` is not modelled: the ggez window and event loop, and loading a program with `read_program`. The model's constructor takes an already-built memory.
- `draw_display_pixels` and `EventHandler::draw` are not modelled. They handle floating-point geometry, meshes and sleeping.
- Reading the font file from disk is not modelled. `Font.ReadFont` takes the file's contents as a string.
- `println!` output is not modelled. The stack-overflow message is kept only as the ghost result of `CallStack.Stack.Push`.
- The empty decode arms bind nothing. They are covered by the rule that the binding is kept.
- `Memory::get_byte` and the display helpers `is_pixel_on`, `set_pixel`, `un_set_pixel` and `is_right_edge` are not part of this model. The draw loop uses the semantics stated at `Ram.Memory.GetByte` and `Screen.Display`.
- `is_bottom_edge` and `get_pixels` are not part of this model. Since N is always 0, the loop makes one pass and the bottom-edge check after it has nothing left to stop.
- Interpreter.Chip8.AddImmediate: models the debug build's overflow panic; a release build would wrap modulo 256 instead.
- Timers.DelayTimer.Tick: models the debug build's underflow panic at 0; a release build would wrap to 255 instead. The same holds for `Timers.SoundTimer.Tick`.
- Interpreter.Chip8.DrawRow: the drawing loop is modelled only as the handler would run it if the register-16 write did not panic first, and only under the assumed helper semantics.
- `src/chip8/chip8_mods.rs` is not modelled. It holds only module declarations.
- The unused imports (`byteorder`, `VecDeque`, `glam`) are not modelled.
