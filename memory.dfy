/** The 4096-byte RAM of src/chip8/chip8_mods/memory.rs: built from the font
    table and read two bytes at a time by the fetch step. */
module Ram {
  import opened Primitives
  import Font

  const RamSize := 4096

  class Memory {
    const ram: array<u8>

    ghost predicate Valid() {
      ram.Length == RamSize
    }

    /** `Self { RAM: ram }`. */
    constructor (ram: array<u8>)
      requires ram.Length == RamSize
      ensures this.ram == ram && Valid()
    {
      this.ram := ram;
    }

    /** Memory::new: read the font, start from 4096 zero bytes, panic if the
        font could not be read, and copy the 80 font bytes to the bottom of
        RAM. */
    static method New(contents: string) returns (r: Run<Memory>)
      ensures Font.ParseFont(contents).Abort? ==> r == Abort(FontByteInvalid)
      ensures Font.ParseFont(contents) == Value(None) ==> r == Abort(FontMissing)
      ensures Font.ParseFont(contents).Value? && Font.ParseFont(contents).value.Some? ==>
        var font := Font.ParseFont(contents).value.value;
        && r.Value? && fresh(r.value) && fresh(r.value.ram) && r.value.Valid()
        && (forall k :: 0 <= k < Font.FontSize ==> r.value.ram[k] == font[k])
        && (forall k :: Font.FontSize <= k < RamSize ==> r.value.ram[k] == 0)
    {
      var font := Font.ReadFont(contents);
      if font.Abort? {
        return Abort(font.fault);
      }
      var ram := new u8[RamSize](_ => 0);
      if font.value.None? {
        return Abort(FontMissing);
      }
      LoadFont(ram, font.value.value);
      var m := new Memory(ram);
      return Value(m);
    }

    /** The copying loop of Memory::new: font byte `k` goes to RAM cell `k`. */
    static method LoadFont(ram: array<u8>, font: seq<u8>)
      requires ram.Length == RamSize && |font| == Font.FontSize
      requires forall k :: 0 <= k < RamSize ==> ram[k] == 0
      modifies ram
      ensures forall k :: 0 <= k < Font.FontSize ==> ram[k] == font[k]
      ensures forall k :: Font.FontSize <= k < RamSize ==> ram[k] == 0
    {
      for k := 0 to |font|
        invariant forall j :: 0 <= j < k ==> ram[j] == font[j]
        invariant forall j :: k <= j < RamSize ==> ram[j] == 0
      {
        ram[k] := font[k];
      }
    }

    /** get_instruction: the 16-bit word at `p`, high byte first (big-endian,
        whatever the unused byte-order import suggests).  Each of the two
        byte reads panics past the end of RAM. */
    function GetInstruction(p: u32): (r: Run<bv16>)
      reads ram
      requires Valid()
      ensures r.Value? <==> p + 1 < RamSize
      ensures r.Abort? ==> r.fault == MemoryOutOfRange
      ensures r.Value? ==> r.value >> 8 == ram[p] as bv16 && r.value & 0xFF == ram[p + 1] as bv16
    {
      if p >= RamSize then Abort(MemoryOutOfRange)
      else if p + 1 >= RamSize then Abort(MemoryOutOfRange)
      else Value((ram[p] as bv16 << 8) | ram[p + 1] as bv16)
    }

    /** Memory::get_byte is not part of this model.  The draw loop is modelled
        under the assumption that `get_byte(start, offset)` reads the byte at
        `start + offset` and panics past the end of RAM, like get_instruction. */
    function GetByte(start: u16, offset: nat): (r: Run<u8>)
      reads ram
      requires Valid()
      ensures r.Value? <==> start + offset < RamSize
      ensures r.Value? ==> r.value == ram[start + offset]
    {
      if start + offset < RamSize then Value(ram[start + offset]) else Abort(MemoryOutOfRange)
    }
  }
}
