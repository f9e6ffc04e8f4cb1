/** generate_ident_icon: the picture that lets two people compare the key of
    a secret chat. The 20-byte key digest gives 64 two-bit colour indices,
    one per cell of an 8 x 8 grid, and the cells are painted into a 160 x 160
    RGBA buffer, 20 x 20 pixels each. */
module IdentIcon {
  import opened Bytes

  const IMG_SIZE: nat := 160
  /** img_size / 8: the side of one cell in pixels. */
  const CELL: nat := 20
  const IMAGE_BYTES: nat := 160 * 160 * 4

  /** The palette, as 0xRRGGBB: white and three blues. */
  const COLORS: seq<int> := [0xffffff, 0xd5e6f3, 0x2d5775, 0x2f99c9]

  function Pow2(s: nat): (p: nat)
    ensures p >= 1
  {
    if s == 0 then 1 else 2 * Pow2(s - 1)
  }

  /** The colour index of cell `k` (cells counted row by row): the two bits
      of digest byte k / 4 that start at bit 2 * (k % 4). */
  function CellColour(sha: seq<byte>, k: nat): (idx: nat)
    requires |sha| == 20 && k < 64
    ensures idx < 4
  {
    (sha[k / 4] / Pow2(2 * (k % 4))) % 4
  }

  /** Byte `ch` (red, green, blue, alpha) of the pixel in row `r`, column `c`:
      the colour of its cell, fully opaque. */
  function PixelByte(sha: seq<byte>, r: nat, c: nat, ch: nat): byte
    requires |sha| == 20 && r < IMG_SIZE && c < IMG_SIZE && ch < 4
  {
    var rgb := COLORS[CellColour(sha, (r / CELL) * 8 + c / CELL)];
    if ch == 0 then (rgb / 0x1_0000) % 0x100
    else if ch == 1 then (rgb / 0x100) % 0x100
    else if ch == 2 then rgb % 0x100
    else 0xFF
  }

  /** Where byte `ch` of pixel (r, c) lies in the buffer. */
  function Index(r: nat, c: nat, ch: nat): nat {
    (r * IMG_SIZE + c) * 4 + ch
  }

  /** `val >> shiftOffset & 3` on the little-endian `int` read at byte
      `bitpointer / 8` is the two bits the cell's colour index names: the
      three higher bytes and the sign never reach them. */
  lemma {:induction false} WordBits(sha: seq<byte>, k: nat)
    requires |sha| == 20 && k < 64
    ensures var offset := (2 * k) / 8;
      offset + 4 <= 20 && (I32Of(sha[offset..offset + 4]) / Pow2((2 * k) % 8)) % 4 == CellColour(sha, k)
  {
    var offset := (2 * k) / 8;
    assert offset == k / 4 && (2 * k) % 8 == 2 * (k % 4);
    var b := sha[offset..offset + 4];
    var high := b[1] as int + 0x100 * (b[2] as int) + 0x1_0000 * (b[3] as int)
                - (if U32Of(b) < 0x8000_0000 then 0 else 0x100_0000);
    assert I32Of(b) == b[0] as int + 0x100 * high;
    LowByteBits(b[0], high, 2 * (k % 4));
  }

  lemma {:induction false} LowByteBits(low: byte, high: int, s: nat)
    requires s == 0 || s == 2 || s == 4 || s == 6
    ensures ((low + 0x100 * high) / Pow2(s)) % 4 == (low / Pow2(s)) % 4
  {
    if s == 0 {
      assert Pow2(s) == 1;
      QuarterStep(low, 0x40 * high);
    } else if s == 2 {
      assert Pow2(s) == 4;
      QuarterStep(low / 4, 0x10 * high);
    } else if s == 4 {
      assert Pow2(s) == 16;
      QuarterStep(low / 16, 4 * high);
    } else {
      assert Pow2(s) == 64;
      QuarterStep(low / 64, high);
    }
  }

  /** Adding a multiple of 4 does not change the two low bits. */
  lemma {:induction false} QuarterStep(q: int, m: int)
    ensures (q + 4 * m) % 4 == q % 4
  {
  }

  /** Every byte of pixel (r, c) in `s` holds what the icon shows there. */
  ghost predicate PixelOk(s: seq<byte>, sha: seq<byte>, r: nat, c: nat)
    requires |sha| == 20 && |s| == IMAGE_BYTES && r < IMG_SIZE && c < IMG_SIZE
  {
    forall ch | 0 <= ch < 4 :: s[Index(r, c, ch)] == PixelByte(sha, r, c, ch)
  }

  /** The pixels painted once the loops reached cell row `y`, cell column
      `x`, pixel row `i` and pixel column `j` of that cell. */
  predicate Painted(y: nat, x: nat, i: nat, j: nat, r: nat, c: nat) {
    r < CELL * y
    || (r < CELL * y + CELL
        && (c < CELL * x
            || (c < CELL * x + CELL && (r < CELL * y + i || (r == CELL * y + i && c < CELL * x + j)))))
  }

  /** Writing the four bytes of pixel (pr, pc) leaves every other pixel as
      it was. */
  lemma {:induction false} OtherPixelKept(s: seq<byte>, sha: seq<byte>, r: nat, c: nat, pr: nat, pc: nat,
                                          v0: byte, v1: byte, v2: byte, v3: byte)
    requires |sha| == 20 && |s| == IMAGE_BYTES && r < IMG_SIZE && c < IMG_SIZE && pr < IMG_SIZE && pc < IMG_SIZE
    requires (r, c) != (pr, pc) && PixelOk(s, sha, r, c)
    ensures var a := Index(pr, pc, 0);
      PixelOk(s[a := v0][a + 1 := v1][a + 2 := v2][a + 3 := v3], sha, r, c)
  {
    var a := Index(pr, pc, 0);
    var s' := s[a := v0][a + 1 := v1][a + 2 := v2][a + 3 := v3];
    PixelNumbersDiffer(r, c, pr, pc);
    forall ch | 0 <= ch < 4 ensures s'[Index(r, c, ch)] == PixelByte(sha, r, c, ch) {
      assert Index(r, c, ch) < a || Index(r, c, ch) >= a + 4;
    }
  }

  /** Two pixels of the image have different row-major numbers. */
  lemma {:induction false} PixelNumbersDiffer(r: nat, c: nat, pr: nat, pc: nat)
    requires c < IMG_SIZE && pc < IMG_SIZE && (r, c) != (pr, pc)
    ensures r * IMG_SIZE + c != pr * IMG_SIZE + pc
  {
    if r < pr {
      assert r * IMG_SIZE + IMG_SIZE <= pr * IMG_SIZE;
    } else if pr < r {
      assert pr * IMG_SIZE + IMG_SIZE <= r * IMG_SIZE;
    }
  }

  /** generate_ident_icon up to the PNG encoding: the loops over the 8 x 8
      cells with the running `bitpointer`; the pixels of each cell are
      painted by the two inner loops, in PaintCell. */
  method GenerateIdentIcon(sha: seq<byte>) returns (image: array<byte>)
    requires |sha| == 20
    ensures fresh(image) && image.Length == IMAGE_BYTES
    ensures forall r, c | 0 <= r < IMG_SIZE && 0 <= c < IMG_SIZE :: PixelOk(image[..], sha, r, c)
  {
    image := new byte[IMG_SIZE * IMG_SIZE * 4];
    var bitpointer := 0;
    var y := 0;
    while y < 8
      invariant 0 <= y <= 8 && bitpointer == 16 * y
      invariant forall r, c | 0 <= r < IMG_SIZE && 0 <= c < IMG_SIZE && Painted(y, 0, 0, 0, r, c) :: PixelOk(image[..], sha, r, c)
    {
      var offsetY := y * IMG_SIZE * 4 * (IMG_SIZE / 8);
      var x := 0;
      while x < 8
        invariant 0 <= x <= 8 && bitpointer == 16 * y + 2 * x
        invariant forall r, c | 0 <= r < IMG_SIZE && 0 <= c < IMG_SIZE && Painted(y, x, 0, 0, r, c) :: PixelOk(image[..], sha, r, c)
      {
        var offset := bitpointer / 8;
        var shiftOffset := bitpointer % 8;
        WordBits(sha, 8 * y + x);
        var val := I32Of(sha[offset..offset + 4]);
        var idx := (val / Pow2(shiftOffset)) % 4;
        bitpointer := bitpointer + 2;
        var offsetX := x * 4 * (IMG_SIZE / 8);
        PaintCell(image, sha, y, x, idx, offsetY, offsetX);
        x := x + 1;
      }
      y := y + 1;
    }
  }

  /** The loop over the pixel rows of cell (y, x). */
  method PaintCell(image: array<byte>, sha: seq<byte>, y: nat, x: nat, idx: nat, offsetY: nat, offsetX: nat)
    requires |sha| == 20 && y < 8 && x < 8 && image.Length == IMAGE_BYTES
    requires idx == CellColour(sha, 8 * y + x) && offsetY == CELL * y * IMG_SIZE * 4 && offsetX == CELL * x * 4
    requires forall r, c | 0 <= r < IMG_SIZE && 0 <= c < IMG_SIZE && Painted(y, x, 0, 0, r, c) :: PixelOk(image[..], sha, r, c)
    modifies image
    ensures forall r, c | 0 <= r < IMG_SIZE && 0 <= c < IMG_SIZE && Painted(y, x + 1, 0, 0, r, c) :: PixelOk(image[..], sha, r, c)
  {
    var i := 0;
    while i < IMG_SIZE / 8
      invariant 0 <= i <= CELL
      invariant forall r, c | 0 <= r < IMG_SIZE && 0 <= c < IMG_SIZE && Painted(y, x, i, 0, r, c) :: PixelOk(image[..], sha, r, c)
    {
      var offY := offsetY + i * IMG_SIZE * 4;
      PaintCellRow(image, sha, y, x, i, idx, offY, offsetX);
      i := i + 1;
    }
  }

  /** The loop over the pixels of row `i` of cell (y, x). */
  method PaintCellRow(image: array<byte>, sha: seq<byte>, y: nat, x: nat, i: nat, idx: nat, offY: nat, offsetX: nat)
    requires |sha| == 20 && y < 8 && x < 8 && i < CELL && image.Length == IMAGE_BYTES
    requires idx == CellColour(sha, 8 * y + x) && offY == (CELL * y + i) * IMG_SIZE * 4 && offsetX == CELL * x * 4
    requires forall r, c | 0 <= r < IMG_SIZE && 0 <= c < IMG_SIZE && Painted(y, x, i, 0, r, c) :: PixelOk(image[..], sha, r, c)
    modifies image
    ensures forall r, c | 0 <= r < IMG_SIZE && 0 <= c < IMG_SIZE && Painted(y, x, i + 1, 0, r, c) :: PixelOk(image[..], sha, r, c)
  {
    var j := 0;
    while j < IMG_SIZE / 8
      invariant 0 <= j <= CELL
      invariant forall r, c | 0 <= r < IMG_SIZE && 0 <= c < IMG_SIZE && Painted(y, x, i, j, r, c) :: PixelOk(image[..], sha, r, c)
    {
      var offX := offsetX + j * 4;
      var pr, pc := CELL * y + i, CELL * x + j;
      assert offY + offX == Index(pr, pc, 0);
      ghost var before: seq<byte> := image[..];
      var rgb := COLORS[idx];
      var red: byte, green: byte, blue: byte, alpha: byte := (rgb / 0x1_0000) % 0x100, (rgb / 0x100) % 0x100, rgb % 0x100, 0xFF;
      WritePixel(image, offY + offX, red, green, blue, alpha);
      PixelWritten(before, image[..], sha, y, x, i, j, red, green, blue, alpha);
      j := j + 1;
    }
    forall r, c | 0 <= r < IMG_SIZE && 0 <= c < IMG_SIZE && Painted(y, x, i + 1, 0, r, c)
      ensures PixelOk(image[..], sha, r, c)
    {
      RowDone(y, x, i, r, c);
    }
  }

  /** The four byte stores of one pixel, `image[offset + 0]` to
      `image[offset + 3]`. */
  method WritePixel(image: array<byte>, a: nat, red: byte, green: byte, blue: byte, alpha: byte)
    requires a + 4 <= image.Length
    modifies image
    ensures image[..] == old(image[..])[a := red][a + 1 := green][a + 2 := blue][a + 3 := alpha]
  {
    image[a + 0] := red;
    image[a + 1] := green;
    image[a + 2] := blue;
    image[a + 3] := alpha;
  }

  /** A finished pixel row of a cell: the next row starts with nothing more
      painted. */
  lemma {:induction false} RowDone(y: nat, x: nat, i: nat, r: nat, c: nat)
    requires Painted(y, x, i + 1, 0, r, c)
    ensures Painted(y, x, i, CELL, r, c)
  {
  }

  /** Painting pixel (CELL * y + i, CELL * x + j) in its cell's colour adds
      it to the painted pixels and keeps all the others. */
  lemma {:induction false} PixelWritten(s: seq<byte>, after: seq<byte>, sha: seq<byte>, y: nat, x: nat, i: nat, j: nat,
                                        red: byte, green: byte, blue: byte, alpha: byte)
    requires |sha| == 20 && |s| == IMAGE_BYTES && y < 8 && x < 8 && i < CELL && j < CELL
    requires forall r, c | 0 <= r < IMG_SIZE && 0 <= c < IMG_SIZE && Painted(y, x, i, j, r, c) :: PixelOk(s, sha, r, c)
    requires var rgb := COLORS[CellColour(sha, 8 * y + x)];
      red == (rgb / 0x1_0000) % 0x100 && green == (rgb / 0x100) % 0x100 && blue == rgb % 0x100 && alpha == 0xFF
    requires var a := Index(CELL * y + i, CELL * x + j, 0);
      after == s[a := red][a + 1 := green][a + 2 := blue][a + 3 := alpha]
    ensures |after| == IMAGE_BYTES
    ensures forall r, c | 0 <= r < IMG_SIZE && 0 <= c < IMG_SIZE && Painted(y, x, i, j + 1, r, c) :: PixelOk(after, sha, r, c)
  {
    var pr, pc := CELL * y + i, CELL * x + j;
    var s' := after;
    NewPixelOk(s, sha, y, x, i, j, red, green, blue, alpha);
    forall r, c | 0 <= r < IMG_SIZE && 0 <= c < IMG_SIZE && Painted(y, x, i, j + 1, r, c)
      ensures PixelOk(s', sha, r, c)
    {
      PaintedStep(y, x, i, j, r, c);
      if r != pr || c != pc {
        OtherPixelKept(s, sha, r, c, pr, pc, red, green, blue, alpha);
      }
    }
  }

  lemma {:induction false} NewPixelOk(s: seq<byte>, sha: seq<byte>, y: nat, x: nat, i: nat, j: nat,
                                      red: byte, green: byte, blue: byte, alpha: byte)
    requires |sha| == 20 && |s| == IMAGE_BYTES && y < 8 && x < 8 && i < CELL && j < CELL
    requires var rgb := COLORS[CellColour(sha, 8 * y + x)];
      red == (rgb / 0x1_0000) % 0x100 && green == (rgb / 0x100) % 0x100 && blue == rgb % 0x100 && alpha == 0xFF
    ensures var a := Index(CELL * y + i, CELL * x + j, 0);
      PixelOk(s[a := red][a + 1 := green][a + 2 := blue][a + 3 := alpha], sha, CELL * y + i, CELL * x + j)
  {
    CellOfPixel(y, x, i, j);
  }

  /** One more pixel column of the row: the pixel just painted. */
  lemma {:induction false} PaintedStep(y: nat, x: nat, i: nat, j: nat, r: nat, c: nat)
    requires Painted(y, x, i, j + 1, r, c)
    ensures Painted(y, x, i, j, r, c) || (r == CELL * y + i && c == CELL * x + j)
  {
  }

  lemma {:induction false} CellOfPixel(y: nat, x: nat, i: nat, j: nat)
    requires i < CELL && j < CELL
    ensures (CELL * y + i) / CELL == y && (CELL * x + j) / CELL == x
  {
  }
}
