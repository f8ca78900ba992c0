/** The call stack of src/chip8/chip8_mods/stack.rs: a growable vector of
    16-bit return addresses.  Nothing bounds it: a push past 16 entries only
    prints a warning, and a pop of an empty stack does nothing. */
module CallStack {
  import opened Primitives

  /** The number of entries after which a push is reported as an overflow. */
  const Capacity := 16

  class Stack {
    var stackQueue: seq<u16>

    constructor ()
      ensures stackQueue == []
    {
      stackQueue := [];
    }

    /** Appends `val`; the ghost result stands for the overflow message. */
    method Push(val: u16) returns (ghost overflowReported: bool)
      modifies this
      ensures stackQueue == old(stackQueue) + [val]
      ensures overflowReported <==> |old(stackQueue)| >= Capacity
    {
      stackQueue := stackQueue + [val];
      overflowReported := |stackQueue| > Capacity;
    }

    /** `Vec::pop` with its result dropped: removes the last entry, if any. */
    method Pop()
      modifies this
      ensures old(stackQueue) == [] ==> stackQueue == []
      ensures old(stackQueue) != [] ==> stackQueue == old(stackQueue)[..|old(stackQueue)| - 1]
    {
      if stackQueue != [] {
        stackQueue := stackQueue[..|stackQueue| - 1];
      }
    }
  }

  /** A push followed by a pop leaves the stack as it was, full or not. */
  method PushThenPop(s: Stack, val: u16)
    modifies s
    ensures s.stackQueue == old(s.stackQueue)
  {
    ghost var _ := s.Push(val);
    s.Pop();
  }
}
