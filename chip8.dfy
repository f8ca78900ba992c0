/** The interpreter of src/chip8.rs: the machine state, the fetch, decode and
    execute steps, the update step that chains them, and the handlers that
    decode binds.  The host window, its event loop, the drawing of pixels on
    screen and program loading are not part of this model. */
module Interpreter {
  import opened Primitives
  import opened Opcode
  import Ram
  import Screen
  import Counter
  import CallStack
  import Timers
  import Registers

  const RegisterCount := 16

  /** The index the draw handler writes the flag register at: one past the
      end of the 16-element register array. */
  const FlagIndexAsWritten := 16

  class Chip8 {
    const memory: Ram.Memory
    const display: Screen.Display
    const pc: Counter.ProgramCounter
    const i: Registers.IndexRegister
    const stack: CallStack.Stack
    const delayTimer: Timers.DelayTimer
    const soundTimer: Timers.SoundTimer
    /** Sixteen distinct registers: the source's array holds them by value. */
    const variableRegisters: seq<Registers.VariableRegister>
    var currentInstruction: bv16
    var currentFunction: Handler
    /** The words decoded so far, oldest first. */
    ghost var decoded: seq<bv16>

    ghost predicate Valid()
      reads pc
    {
      && memory.Valid() && display.Valid() && pc.Valid()
      && |variableRegisters| == RegisterCount
      && forall a, b :: 0 <= a < b < RegisterCount ==> variableRegisters[a] != variableRegisters[b]
    }

    /** The bound handler is the one a new machine binds by decoding the
        words decoded so far. */
    ghost predicate BindingFollowsDecodes()
      reads this
    {
      currentFunction == BoundAfter(decoded)
    }

    /** No register changed, except perhaps register `x`. */
    twostate predicate RegistersKept(x: int)
      reads variableRegisters
    {
      forall k :: 0 <= k < |variableRegisters| && k != x ==>
        variableRegisters[k].value == old(variableRegisters[k].value)
    }

    /** The struct built in Chip8::run, around a memory built by Memory::new
        (and loaded with a program by code that is not part of this model). */
    constructor (memory: Ram.Memory)
      requires memory.Valid()
      ensures Valid() && decoded == [] && BindingFollowsDecodes()
      ensures this.memory == memory
      ensures fresh(display) && fresh(display.pixels) && display.AllOff()
      ensures fresh(pc) && pc.pointsAt == 0
      ensures fresh(i) && i.value == 0
      ensures fresh(stack) && stack.stackQueue == []
      ensures fresh(delayTimer) && delayTimer.value == Timers.Full
      ensures fresh(soundTimer) && soundTimer.value == Timers.Full
      ensures forall k :: 0 <= k < RegisterCount ==> fresh(variableRegisters[k]) && variableRegisters[k].value == 0
      ensures currentInstruction == 0 && currentFunction == NoOp
    {
      var registers: seq<Registers.VariableRegister> := [];
      for k := 0 to RegisterCount
        invariant |registers| == k
        invariant forall j :: 0 <= j < k ==> fresh(registers[j]) && registers[j].value == 0
        invariant forall a, b :: 0 <= a < b < k ==> registers[a] != registers[b]
      {
        var r := new Registers.VariableRegister();
        registers := registers + [r];
      }
      variableRegisters := registers;
      this.memory := memory;
      display := new Screen.Display();
      pc := new Counter.ProgramCounter();
      i := new Registers.IndexRegister();
      stack := new CallStack.Stack();
      delayTimer := new Timers.DelayTimer();
      soundTimer := new Timers.SoundTimer();
      currentInstruction := 0;
      currentFunction := NoOp;
      decoded := [];
    }

    /** `variable_registers[idx].set(val)`, with the array's bounds check. */
    method SetRegister(idx: nat, val: u8) returns (outcome: Outcome)
      requires Valid()
      modifies if idx < RegisterCount then {variableRegisters[idx]} else {}
      ensures outcome == (if idx < RegisterCount then Done else Panic(RegisterOutOfRange))
      ensures idx < RegisterCount ==> variableRegisters[idx].value == val
    {
      if idx < |variableRegisters| {
        variableRegisters[idx].Set(val);
        outcome := Done;
      } else {
        outcome := Panic(RegisterOutOfRange);
      }
    }

    /** fetch: the word at the program counter becomes the current
        instruction and the counter moves on by 2.  Both byte reads succeed,
        as the counter never exceeds 4094; moving on panics from 4093 up. */
    method Fetch() returns (outcome: Outcome)
      requires Valid()
      modifies this, pc
      ensures Valid()
      ensures memory.GetInstruction(old(pc.pointsAt)) == Value(currentInstruction)
      ensures outcome == (if old(pc.pointsAt) <= Counter.MaxPoint - 2 then Done else Panic(PcOutOfRange))
      ensures pc.pointsAt == (if outcome.Done? then old(pc.pointsAt) + 2 else old(pc.pointsAt))
      ensures currentFunction == old(currentFunction) && decoded == old(decoded)
    {
      var at := pc.GetPointValue();
      currentInstruction := memory.GetInstruction(at).value;
      at := pc.GetPointValue();
      outcome := pc.SetPointValue(at + 2);
    }

    /** decode: the match on `current_instruction & 0xF000`, as written. */
    method Decode()
      modifies this
      ensures currentFunction == Rebound(currentInstruction, old(currentFunction))
      ensures currentInstruction == old(currentInstruction)
      ensures decoded == old(decoded) + [currentInstruction]
      ensures old(BindingFollowsDecodes()) ==> BindingFollowsDecodes()
    {
      decoded := decoded + [currentInstruction];
      // The source matches the masked word against 0x0 to 0xF.  Masking with
      // 0xF000 leaves a multiple of 0x1000, so only the 0x0 arm (clear screen)
      // can ever match; the arms for 0x1 (jump), 0x6 (load), 0x7 (add), 0xA
      // (load index) and 0xD (draw) are dead and the binding stays as it was.
      if currentInstruction & 0xF000 == 0x0 {
        currentFunction := Clear;
      }
    }

    /** The 00E0 handler. */
    method ClearScreen()
      requires Valid()
      modifies display.pixels
      ensures display.AllOff()
    {
      display.Clear();
    }

    /** The 1NNN handler: jump to NNN of the word current when it runs. */
    method JumpTo() returns (outcome: Outcome)
      requires Valid()
      modifies pc
      ensures Valid()
      ensures outcome.Panic? <==> currentInstruction & 0x0FFF == 0x0FFF
      ensures outcome.Panic? ==> outcome.fault == PcOutOfRange && pc.pointsAt == old(pc.pointsAt)
      ensures outcome.Done? ==> pc.pointsAt == Address(currentInstruction)
    {
      var address := Address(currentInstruction);
      outcome := pc.SetPointValue(address);
    }

    /** The 6XNN handler: VX := NN. */
    method LoadImmediate()
      requires Valid()
      modifies variableRegisters[RegisterX(currentInstruction)]
      ensures variableRegisters[RegisterX(currentInstruction)].value == LowByte(currentInstruction)
      ensures RegistersKept(RegisterX(currentInstruction))
    {
      var nn := LowByte(currentInstruction);
      var x := RegisterX(currentInstruction);
      variableRegisters[x].Set(nn);
    }

    /** The 7XNN handler: VX := NN + VX, with the `u8` addition's overflow
        panic; the flag register is left alone. */
    method AddImmediate() returns (outcome: Outcome)
      requires Valid()
      modifies variableRegisters[RegisterX(currentInstruction)]
      ensures var x, nn := RegisterX(currentInstruction), LowByte(currentInstruction);
        && outcome == (if old(variableRegisters[x].value) + nn < 0x100 then Done else Panic(AddOverflow))
        && variableRegisters[x].value ==
             (if outcome.Done? then old(variableRegisters[x].value) + nn else old(variableRegisters[x].value))
      ensures RegistersKept(RegisterX(currentInstruction))
    {
      var nn := LowByte(currentInstruction);
      var x := RegisterX(currentInstruction);
      var vx := variableRegisters[x].Get();
      if nn as int + vx > 0xFF {
        return Panic(AddOverflow);
      }
      variableRegisters[x].Set(nn + vx);
      outcome := Done;
    }

    /** The ANNN handler: I := NNN. */
    method SetIndex()
      requires Valid()
      modifies i
      ensures i.value == Address(currentInstruction)
    {
      var nnn := Address(currentInstruction);
      i.Set(nnn);
    }

    /** The DXYN handler.  It reads VX and V0 (Y is always 0) for the start
        coordinates and then clears the flag at index 16 of the 16-element
        register array, which panics before any pixel is touched. */
    method DrawSprite() returns (outcome: Outcome)
      requires Valid()
      ensures outcome == Panic(RegisterOutOfRange)
    {
      var x := RegisterX(currentInstruction);
      var vx := variableRegisters[x].Get();
      var currentVx := vx % Screen.Columns;
      var y := RegisterYAsWritten(currentInstruction);
      var vy := variableRegisters[y].Get();
      var currentVy := vy % Screen.Rows;
      outcome := SetRegister(FlagIndexAsWritten, 0);
    }

    /** The rows loop of the DXYN handler, which the handler never reaches,
        run from start column `vx` and row `vy`.  N is always 0, so the loop
        over `0..=N` makes one pass, which reads the byte at I (get_byte,
        under the assumption stated at Memory.GetByte) and draws it as one
        sprite row.  The bottom-edge check after the pass has nothing left to
        stop. */
    method DrawRow(vx: nat, vy: nat) returns (outcome: Outcome)
      requires Valid() && vx < Screen.Columns && vy < Screen.Rows
      modifies display.pixels
      ensures memory.GetByte(i.value, 0).Abort? ==>
        outcome == Panic(MemoryOutOfRange) && unchanged(display.pixels)
      ensures memory.GetByte(i.value, 0).Value? ==>
        var sprite := memory.GetByte(i.value, 0).value as bv8;
        && (outcome.Done? <==> !old(display.RowCollides(sprite, vx, vy)))
        && (outcome.Panic? ==> outcome.fault == RegisterOutOfRange)
        && (outcome.Done? ==>
              forall y, x :: 0 <= y < Screen.Rows && 0 <= x < Screen.Columns ==>
                display.pixels[y, x] == (old(display.pixels[y, x]) || Screen.Covers(sprite, vx, vy, x, y)))
    {
      var index := i.Get();
      var nthByte := memory.GetByte(index, 0);
      if nthByte.Abort? {
        return Panic(MemoryOutOfRange);
      }
      outcome := DrawBits(nthByte.value as bv8, vx, vy);
    }

    /** The columns loop inside one pass of the rows loop: it walks the bits
        of `sprite` least significant first from column `vx` until the right
        edge, switching on the pixels of the set bits.  A set bit over a
        pixel that is already on switches it off and writes the flag at
        index 16, which panics. */
    method DrawBits(sprite: bv8, vx: nat, vy: nat) returns (outcome: Outcome)
      requires Valid() && vx < Screen.Columns && vy < Screen.Rows
      modifies display.pixels
      ensures outcome.Done? <==> !old(display.RowCollides(sprite, vx, vy))
      ensures outcome.Panic? ==> outcome.fault == RegisterOutOfRange
      ensures outcome.Done? ==> forall x :: 0 <= x < Screen.Columns ==>
        display.pixels[vy, x] == (old(display.pixels[vy, x]) || (vx <= x < vx + Screen.RowWidth(vx) && Screen.BitSet(sprite, x - vx)))
      ensures outcome.Done? ==> forall y, x :: 0 <= y < Screen.Rows && 0 <= x < Screen.Columns && y != vy ==>
        display.pixels[y, x] == old(display.pixels[y, x])
    {
      var currentVx := vx;
      var mask: bv8 := 1;
      ghost var drawn := 0;
      for k := 0 to 8
        invariant drawn == k
        invariant currentVx == vx + k
        invariant k < 8 ==> currentVx < Screen.Columns
        invariant k <= Screen.RowWidth(vx)
        invariant mask == Screen.Mask(k)
        invariant forall j :: 0 <= j < k ==> !(Screen.BitSet(sprite, j) && old(display.pixels[vy, vx + j]))
        invariant forall y, x :: 0 <= y < Screen.Rows && 0 <= x < Screen.Columns && y != vy ==>
          display.pixels[y, x] == old(display.pixels[y, x])
        invariant forall x :: 0 <= x < Screen.Columns ==>
          display.pixels[vy, x] == (old(display.pixels[vy, x]) || (vx <= x < vx + k && Screen.BitSet(sprite, x - vx)))
      {
        var isSet;
        isSet, mask := Screen.TestBit(sprite, mask, k);
        var collided := DrawPixel(currentVx, vy, isSet);
        if collided {
          assert Screen.BitSet(sprite, k) && old(display.pixels[vy, vx + k]) && k < Screen.RowWidth(vx);
          outcome := SetRegister(FlagIndexAsWritten, 1);
          return;
        }
        drawn := k + 1;
        if display.IsRightEdge(currentVx) {
          break;
        }
        currentVx := currentVx + 1;
      }
      assert drawn == Screen.RowWidth(vx);
      assert forall j :: 0 <= j < drawn ==> !(Screen.BitSet(sprite, j) && old(display.pixels[vy, vx + j]));
      assert forall x :: 0 <= x < Screen.Columns ==>
        display.pixels[vy, x] == (old(display.pixels[vy, x]) || (vx <= x < vx + drawn && Screen.BitSet(sprite, x - vx)));
      outcome := Done;
    }

    /** The body of the columns loop for one pixel: a set bit switches the
        pixel on, or off when it is already on, which is a collision. */
    method DrawPixel(x: nat, y: nat, isSet: bool) returns (collided: bool)
      requires Valid() && x < Screen.Columns && y < Screen.Rows
      modifies display.pixels
      ensures collided <==> isSet && old(display.pixels[y, x])
      ensures display.pixels[y, x] == (old(display.pixels[y, x]) != isSet)
      ensures forall x' :: 0 <= x' < Screen.Columns && x' != x ==> display.pixels[y, x'] == old(display.pixels[y, x'])
      ensures forall y', x' :: 0 <= y' < Screen.Rows && 0 <= x' < Screen.Columns && y' != y ==>
        display.pixels[y', x'] == old(display.pixels[y', x'])
    {
      collided := false;
      if isSet {
        if display.IsPixelOn(x, y) {
          display.UnSetPixel(x, y);
          collided := true;
        } else {
          display.SetPixel(x, y);
        }
      }
    }

    /** execute: run the bound handler. */
    method Execute() returns (outcome: Outcome)
      requires Valid()
      modifies pc, i, display.pixels, variableRegisters
      ensures Valid()
      ensures match currentFunction
        case NoOp => outcome == Done && unchanged(pc, i, display.pixels) && RegistersKept(-1)
        case Clear => outcome == Done && display.AllOff() && unchanged(pc, i) && RegistersKept(-1)
        case Jump =>
          && (outcome.Panic? <==> currentInstruction & 0x0FFF == 0x0FFF)
          && (outcome.Panic? ==> outcome.fault == PcOutOfRange && pc.pointsAt == old(pc.pointsAt))
          && (outcome.Done? ==> pc.pointsAt == Address(currentInstruction))
          && unchanged(i, display.pixels) && RegistersKept(-1)
        case LoadImm =>
          && outcome == Done && variableRegisters[RegisterX(currentInstruction)].value == LowByte(currentInstruction)
          && unchanged(pc, i, display.pixels) && RegistersKept(RegisterX(currentInstruction))
        case AddImm =>
          var x, nn := RegisterX(currentInstruction), LowByte(currentInstruction);
          && outcome == (if old(variableRegisters[x].value) + nn < 0x100 then Done else Panic(AddOverflow))
          && variableRegisters[x].value ==
               (if outcome.Done? then old(variableRegisters[x].value) + nn else old(variableRegisters[x].value))
          && unchanged(pc, i, display.pixels) && RegistersKept(x)
        case LoadIndex =>
          && outcome == Done && i.value == Address(currentInstruction)
          && unchanged(pc, display.pixels) && RegistersKept(-1)
        case Draw => outcome == Panic(RegisterOutOfRange) && unchanged(pc, i, display.pixels) && RegistersKept(-1)
    {
      match currentFunction {
        case NoOp => outcome := Done;
        case Clear =>
          ClearScreen();
          outcome := Done;
        case Jump => outcome := JumpTo();
        case LoadImm =>
          LoadImmediate();
          outcome := Done;
        case AddImm => outcome := AddImmediate();
        case LoadIndex =>
          SetIndex();
          outcome := Done;
        case Draw => outcome := DrawSprite();
      }
    }

    /** update: one fetch, decode and execute cycle.  Execute runs whatever
        handler is bound after decode, reading the word fetched in this
        cycle, even when decode left the binding of an earlier cycle. */
    method Update() returns (outcome: Outcome)
      requires Valid()
      modifies this, pc, i, display.pixels, variableRegisters
      ensures Valid()
      ensures memory.GetInstruction(old(pc.pointsAt)) == Value(currentInstruction)
      ensures old(BindingFollowsDecodes()) ==> BindingFollowsDecodes()
      ensures old(BindingFollowsDecodes()) ==> currentFunction == NoOp || currentFunction == Clear
      ensures old(pc.pointsAt) > Counter.MaxPoint - 2 ==>
        && outcome == Panic(PcOutOfRange) && currentFunction == old(currentFunction)
        && pc.pointsAt == old(pc.pointsAt) && unchanged(i, display.pixels) && RegistersKept(-1)
      ensures old(pc.pointsAt) <= Counter.MaxPoint - 2 ==>
        && currentFunction == Rebound(currentInstruction, old(currentFunction))
        && decoded == old(decoded) + [currentInstruction]
      ensures old(pc.pointsAt) <= Counter.MaxPoint - 2 && currentFunction == NoOp ==>
        && outcome == Done && pc.pointsAt == old(pc.pointsAt) + 2
        && unchanged(i, display.pixels) && RegistersKept(-1)
      ensures old(pc.pointsAt) <= Counter.MaxPoint - 2 && currentFunction == Clear ==>
        && outcome == Done && pc.pointsAt == old(pc.pointsAt) + 2
        && display.AllOff() && unchanged(i) && RegistersKept(-1)
      // The remaining handlers are never bound on a machine that has only
      // been decoding since it was built (the clauses above), but a cycle
      // that runs one follows Execute with the counter already moved on.
      ensures old(pc.pointsAt) <= Counter.MaxPoint - 2 && currentFunction == Jump ==>
        && (outcome.Panic? <==> currentInstruction & 0x0FFF == 0x0FFF)
        && (outcome.Panic? ==> outcome.fault == PcOutOfRange && pc.pointsAt == old(pc.pointsAt) + 2)
        && (outcome.Done? ==> pc.pointsAt == Address(currentInstruction))
        && unchanged(i, display.pixels) && RegistersKept(-1)
      ensures old(pc.pointsAt) <= Counter.MaxPoint - 2 && currentFunction == LoadImm ==>
        && outcome == Done && pc.pointsAt == old(pc.pointsAt) + 2
        && variableRegisters[RegisterX(currentInstruction)].value == LowByte(currentInstruction)
        && unchanged(i, display.pixels) && RegistersKept(RegisterX(currentInstruction))
      ensures old(pc.pointsAt) <= Counter.MaxPoint - 2 && currentFunction == AddImm ==>
        var x, nn := RegisterX(currentInstruction), LowByte(currentInstruction);
        && outcome == (if old(variableRegisters[x].value) + nn < 0x100 then Done else Panic(AddOverflow))
        && variableRegisters[x].value ==
             (if outcome.Done? then old(variableRegisters[x].value) + nn else old(variableRegisters[x].value))
        && pc.pointsAt == old(pc.pointsAt) + 2 && unchanged(i, display.pixels) && RegistersKept(x)
      ensures old(pc.pointsAt) <= Counter.MaxPoint - 2 && currentFunction == LoadIndex ==>
        && outcome == Done && pc.pointsAt == old(pc.pointsAt) + 2
        && i.value == Address(currentInstruction) && unchanged(display.pixels) && RegistersKept(-1)
      ensures old(pc.pointsAt) <= Counter.MaxPoint - 2 && currentFunction == Draw ==>
        && outcome == Panic(RegisterOutOfRange) && pc.pointsAt == old(pc.pointsAt) + 2
        && unchanged(i, display.pixels) && RegistersKept(-1)
    {
      outcome := Fetch();
      if outcome.Panic? {
        BoundAfterDecoding(decoded);
        return;
      }
      Decode();
      BoundAfterDecoding(decoded);
      assert RegistersKept(-1) && unchanged(i, display.pixels);
      outcome := Execute();
    }
  }
}
