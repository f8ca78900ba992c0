/** The framebuffer of src/chip8/chip8_mods/display.rs: 32 rows of 64
    boolean pixels, indexed row first as `pixels[y][x]`. */
module Screen {
  import opened Primitives

  const Rows := 32
  const Columns := 64

  /** How many columns one sprite row covers from column `vx`: eight, or
      fewer when the right edge stops the row first (it never wraps). */
  function RowWidth(vx: nat): (w: nat)
    requires vx < Columns
    ensures 1 <= w <= 8 && vx + w <= Columns
    ensures w < 8 ==> vx + w == Columns
  {
    if vx + 8 <= Columns then 8 else Columns - vx
  }

  /** The draw loop's mask on pass `k`: it starts at 1 and is shifted left
      by one on every pass. */
  function Mask(k: nat): bv8 {
    if k == 0 then 1 else Mask(k - 1) << 1
  }

  /** Bit `k` of a sprite byte, counting from the least significant one:
      column `vx + k` shows it, so the row is drawn least significant bit
      first. */
  predicate BitSet(sprite: bv8, k: nat) {
    if k == 0 then sprite & 1 != 0 else BitSet(sprite >> 1, k - 1)
  }

  /** On pass `k` the draw loop's mask picks out bit `k` of the sprite. */
  lemma {:induction false} MaskSelectsBit(sprite: bv8, k: nat)
    ensures (sprite & Mask(k) != 0) == BitSet(sprite, k)
  {
    if k > 0 {
      MaskSelectsBit(sprite >> 1, k - 1);
      assert (sprite & (Mask(k - 1) << 1) != 0) == ((sprite >> 1) & Mask(k - 1) != 0);
    }
  }

  /** One step of the draw loop's mask: test the sprite under it, then
      shift it left by one. */
  method TestBit(sprite: bv8, mask: bv8, ghost k: nat) returns (isSet: bool, next: bv8)
    requires mask == Mask(k)
    ensures isSet == BitSet(sprite, k) && next == Mask(k + 1)
  {
    isSet := sprite & mask != 0;
    MaskSelectsBit(sprite, k);
    next := mask << 1;
  }

  /** Pixel (x, y) is one a sprite row drawn from (vx, vy) switches on. */
  predicate Covers(sprite: bv8, vx: nat, vy: nat, x: int, y: int)
    requires vx < Columns
  {
    y == vy && vx <= x < vx + RowWidth(vx) && BitSet(sprite, x - vx)
  }

  class Display {
    const pixels: array2<bool>

    ghost predicate Valid() {
      pixels.Length0 == Rows && pixels.Length1 == Columns
    }

    /** Every pixel is off. */
    ghost predicate AllOff()
      reads pixels
      requires Valid()
    {
      forall y, x :: 0 <= y < Rows && 0 <= x < Columns ==> !pixels[y, x]
    }

    constructor ()
      ensures Valid() && fresh(pixels) && AllOff()
    {
      pixels := new bool[Rows, Columns]((_, _) => false);
    }

    /** Walks every row and every pixel in it, switching each off. */
    method Clear()
      requires Valid()
      modifies pixels
      ensures AllOff()
    {
      for y := 0 to Rows
        invariant forall y', x :: 0 <= y' < y && 0 <= x < Columns ==> !pixels[y', x]
      {
        for x := 0 to Columns
          invariant forall y', x' :: 0 <= y' < y && 0 <= x' < Columns ==> !pixels[y', x']
          invariant forall x' :: 0 <= x' < x ==> !pixels[y, x']
        {
          pixels[y, x] := false;
        }
      }
    }

    /** Drawing a sprite row from (vx, vy) would meet a pixel that is on. */
    ghost predicate RowCollides(sprite: bv8, vx: nat, vy: nat)
      reads pixels
      requires Valid() && vx < Columns && vy < Rows
    {
      exists k :: 0 <= k < RowWidth(vx) && BitSet(sprite, k) && pixels[vy, vx + k]
    }

    // The pixel helpers below are called by the draw loop but are not part
    // of this model; their bodies are the semantics the model assumes.

    /** Assumed: `is_pixel_on(x, y)` reads `pixels[y][x]`. */
    function IsPixelOn(x: nat, y: nat): bool
      reads pixels
      requires Valid() && x < Columns && y < Rows
    {
      pixels[y, x]
    }

    /** Assumed: `set_pixel(x, y)` switches that one pixel on. */
    method SetPixel(x: nat, y: nat)
      requires Valid() && x < Columns && y < Rows
      modifies pixels
      ensures pixels[y, x]
      ensures forall x' :: 0 <= x' < Columns && x' != x ==> pixels[y, x'] == old(pixels[y, x'])
      ensures forall y', x' :: 0 <= y' < Rows && 0 <= x' < Columns && y' != y ==>
        pixels[y', x'] == old(pixels[y', x'])
    {
      pixels[y, x] := true;
    }

    /** Assumed: `un_set_pixel(x, y)` switches that one pixel off. */
    method UnSetPixel(x: nat, y: nat)
      requires Valid() && x < Columns && y < Rows
      modifies pixels
      ensures !pixels[y, x]
      ensures forall x' :: 0 <= x' < Columns && x' != x ==> pixels[y, x'] == old(pixels[y, x'])
      ensures forall y', x' :: 0 <= y' < Rows && 0 <= x' < Columns && y' != y ==>
        pixels[y', x'] == old(pixels[y', x'])
    {
      pixels[y, x] := false;
    }

    /** Assumed: `is_right_edge(x)` holds of the last column only. */
    predicate IsRightEdge(x: nat) {
      x == Columns - 1
    }
  }

  /** Clearing is idempotent: `Clear` fixes every pixel whatever the
      display showed before, so the first of two clears leaves nothing the
      second depends on, and two clears end where one does. */
  method ClearTwice(d: Display)
    requires d.Valid()
    modifies d.pixels
    ensures d.AllOff()
  {
    d.Clear();
    d.Clear();
  }
}
