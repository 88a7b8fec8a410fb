/**
 The 64x32 monochrome frame buffer (src/output.rs). Pixels are indexed
 column first, `pixels[x][y]`, as in the source. Sprites are XORed in
 with wrap-around on both axes, and `draw` reports whether any set sprite
 bit landed on a lit pixel.
 */
module Output {
  import opened Base

  const Width: int := 64
  const Height: int := 32

  type Column = x: int | 0 <= x < 64
  type Row = y: int | 0 <= y < 32

  /** `pixels[x][y]`: 64 columns of 32 pixels each. */
  type Screen = g: seq<seq<bool>> | IsGrid(g) witness Blank()

  predicate IsGrid(g: seq<seq<bool>>) {
    |g| == Width && forall c :: 0 <= c < |g| ==> |g[c]| == Height
  }

  /** The all-dark grid. */
  function Blank(): (g: seq<seq<bool>>)
    ensures IsGrid(g)
    ensures forall c, r :: 0 <= c < Width && 0 <= r < Height ==> !g[c][r]
  {
    seq(Width, _ => seq(Height, _ => false))
  }

  /** The pixel at column `c`, row `r`. */
  function Pixel(g: Screen, c: Column, r: Row): bool {
    g[c][r]
  }

  /** Every pixel of `g` is dark. */
  predicate IsBlank(g: Screen) {
    forall c: Column, r: Row :: !Pixel(g, c, r)
  }

  /** `Screen::new`: every pixel dark. */
  function NewScreen(): (g: Screen)
    ensures IsBlank(g)
  {
    Blank()
  }

  /** `Screen::clear`: every pixel dark, whatever was shown before. */
  function Clear(g: Screen): (r: Screen)
    ensures IsBlank(r)
  {
    Blank()
  }

  /** `Screen::get_pixels`: the grid itself. */
  function GetPixels(g: Screen): Screen {
    g
  }

  /** Clearing twice is the same as clearing once. */
  lemma ClearIdempotent(g: Screen)
    ensures Clear(Clear(g)) == Clear(g)
  {
  }

  /**
   Bit `j` of a sprite byte, counted from the most significant bit:
   `(byte >> (7 - j)) & 1 == 1`.
   */
  predicate Bit(b: Byte, j: nat)
    requires j < 8
  {
    (b / Pow2(7 - j)) % 2 == 1
  }

  /** The column that bit `j` of a sprite placed at column `x` goes to. */
  function Col(x: Byte, j: nat): Column {
    (x + j) % Width
  }

  /** The screen row that sprite row `i` of a sprite placed at row `y` goes to. */
  function RowOf(y: Byte, i: nat): Row {
    (y + i) % Height
  }

  /** XORs `flip` into the pixel at column `c`, row `r`. */
  function Toggle(g: Screen, c: Column, r: Row, flip: bool): (g': Screen)
    ensures Pixel(g', c, r) == (Pixel(g, c, r) != flip)
    ensures forall c': Column, r': Row :: (c' != c || r' != r) ==> Pixel(g', c', r') == Pixel(g, c', r')
  {
    g[c := g[c][r := g[c][r] != flip]]
  }

  /**
   The inner loop of `draw` for sprite row `i` holding byte `b`, from bit
   `j` on: a set bit on a lit pixel records a collision, and the bit is
   XORed into its pixel.
   */
  function DrawBits(g: Screen, x: Byte, y: Byte, i: nat, b: Byte, j: nat, collision: bool): (Screen, bool)
    requires j <= 8
    decreases 8 - j
  {
    if j == 8 then (g, collision)
    else
      var c := Col(x, j);
      var r := RowOf(y, i);
      var hit := Bit(b, j);
      DrawBits(Toggle(g, c, r, hit), x, y, i, b, j + 1, collision || (hit && Pixel(g, c, r)))
  }

  /** The outer loop of `draw`, from sprite row `i` on. */
  function DrawRows(g: Screen, x: Byte, y: Byte, sprite: seq<Byte>, i: nat, collision: bool): (Screen, bool)
    requires i <= |sprite|
    decreases |sprite| - i
  {
    if i == |sprite| then (g, collision)
    else
      var (g', collision') := DrawBits(g, x, y, i, sprite[i], 0, collision);
      DrawRows(g', x, y, sprite, i + 1, collision')
  }

  /**
   `Screen::draw`: XORs `sprite` in at column `x`, row `y` and returns the
   new grid and the collision flag.
   */
  function Draw(g: Screen, x: Byte, y: Byte, sprite: seq<Byte>): (Screen, bool) {
    DrawRows(g, x, y, sprite, 0, false)
  }

  // ----- Where the sprite bits land -----

  /** Bit `j` of byte `b`, drawn as sprite row `i` at `x`, `y`, is set and lands on column `c`, row `r`. */
  predicate BitLands(b: Byte, x: Byte, y: Byte, i: nat, j: nat, c: Column, r: Row)
    requires j < 8
  {
    Bit(b, j) && Col(x, j) == c && RowOf(y, i) == r
  }

  /** Some set bit of `b`, from bit `j` on, lands on column `c`, row `r`. */
  predicate RowLandsFrom(b: Byte, x: Byte, y: Byte, i: nat, j: nat, c: Column, r: Row)
    requires j <= 8
  {
    exists j' :: j <= j' < 8 && BitLands(b, x, y, i, j', c, r)
  }

  /**
   Whether the set bits of the sprite rows from `i` on land on column `c`,
   row `r` an odd number of times.
   */
  predicate FlipParity(sprite: seq<Byte>, x: Byte, y: Byte, i: nat, c: Column, r: Row)
    requires i <= |sprite|
    decreases |sprite| - i
  {
    if i == |sprite| then false
    else RowLandsFrom(sprite[i], x, y, i, 0, c, r) != FlipParity(sprite, x, y, i + 1, c, r)
  }

  /** Some set bit of the sprite lands on column `c`, row `r`. */
  predicate Targeted(sprite: seq<Byte>, x: Byte, y: Byte, c: Column, r: Row) {
    exists i, j :: 0 <= i < |sprite| && 0 <= j < 8 && BitLands(sprite[i], x, y, i, j, c, r)
  }

  /** Some set bit of the sprite lands on a pixel that is lit in `g`. */
  predicate HitsLitPixel(g: Screen, sprite: seq<Byte>, x: Byte, y: Byte) {
    exists i, j :: 0 <= i < |sprite| && 0 <= j < 8 && Bit(sprite[i], j) && Pixel(g, Col(x, j), RowOf(y, i))
  }

  /** Two of the eight bits of a row never land in the same column. */
  lemma ColumnsDistinct(x: Byte, j: nat, j': nat)
    requires j < j' < 8
    ensures Col(x, j) != Col(x, j')
  {
  }

  /** Two of 32 consecutive sprite rows never land on the same screen row. */
  lemma RowsDistinct(y: Byte, i: nat, i': nat)
    requires i < i' < i + Height
    ensures RowOf(y, i) != RowOf(y, i')
  {
  }

  /** Peeling bit `j` off `RowLandsFrom`; a bit that lands is the only one that lands there. */
  lemma RowLandsStep(b: Byte, x: Byte, y: Byte, i: nat, j: nat, c: Column, r: Row)
    requires j < 8
    ensures RowLandsFrom(b, x, y, i, j, c, r) <==> BitLands(b, x, y, i, j, c, r) || RowLandsFrom(b, x, y, i, j + 1, c, r)
    ensures Col(x, j) == c ==> !RowLandsFrom(b, x, y, i, j + 1, c, r)
  {
    if Col(x, j) == c && RowLandsFrom(b, x, y, i, j + 1, c, r) {
      var j' :| j + 1 <= j' < 8 && BitLands(b, x, y, i, j', c, r);
      ColumnsDistinct(x, j, j');
    }
  }

  /**
   The inner loop flips exactly the pixels that a set bit from `j` on
   lands on.
   */
  lemma {:induction false} DrawBitsGrid(g: Screen, x: Byte, y: Byte, i: nat, b: Byte, j: nat, collision: bool)
    requires j <= 8
    ensures forall c: Column, r: Row ::
      Pixel(DrawBits(g, x, y, i, b, j, collision).0, c, r) == (Pixel(g, c, r) != RowLandsFrom(b, x, y, i, j, c, r))
    decreases 8 - j
  {
    if j < 8 {
      var c0, r0, hit := Col(x, j), RowOf(y, i), Bit(b, j);
      var t := Toggle(g, c0, r0, hit);
      DrawBitsGrid(t, x, y, i, b, j + 1, collision || (hit && Pixel(g, c0, r0)));
      forall c: Column, r: Row
        ensures Pixel(DrawBits(g, x, y, i, b, j, collision).0, c, r) == (Pixel(g, c, r) != RowLandsFrom(b, x, y, i, j, c, r))
      {
        RowLandsStep(b, x, y, i, j, c, r);
      }
    }
  }

  /**
   The inner loop records a collision exactly when a set bit from `j` on
   lands on a pixel that was lit when the loop reached bit `j`.
   */
  lemma {:induction false} DrawBitsCollision(g: Screen, x: Byte, y: Byte, i: nat, b: Byte, j: nat, collision: bool)
    requires j <= 8
    ensures DrawBits(g, x, y, i, b, j, collision).1 <==>
      collision || exists j' :: j <= j' < 8 && Bit(b, j') && Pixel(g, Col(x, j'), RowOf(y, i))
    decreases 8 - j
  {
    if j < 8 {
      var c0, r0, hit := Col(x, j), RowOf(y, i), Bit(b, j);
      var t := Toggle(g, c0, r0, hit);
      DrawBitsCollision(t, x, y, i, b, j + 1, collision || (hit && Pixel(g, c0, r0)));
      forall j' | j < j' < 8
        ensures Pixel(t, Col(x, j'), r0) == Pixel(g, Col(x, j'), r0)
      {
        ColumnsDistinct(x, j, j');
      }
    }
  }

  /**
   The outer loop leaves every pixel XORed with the parity of the set bits
   of rows `i` on that land on it.
   */
  lemma {:induction false} DrawRowsGrid(g: Screen, x: Byte, y: Byte, sprite: seq<Byte>, i: nat, collision: bool)
    requires i <= |sprite|
    ensures forall c: Column, r: Row ::
      Pixel(DrawRows(g, x, y, sprite, i, collision).0, c, r) == (Pixel(g, c, r) != FlipParity(sprite, x, y, i, c, r))
    decreases |sprite| - i
  {
    if i < |sprite| {
      DrawBitsGrid(g, x, y, i, sprite[i], 0, collision);
      var (g1, collision1) := DrawBits(g, x, y, i, sprite[i], 0, collision);
      DrawRowsGrid(g1, x, y, sprite, i + 1, collision1);
    }
  }

  /** In a sprite of at most 32 rows, at most one sprite row lands on any screen row. */
  lemma {:induction false} ParityOfShortSprite(sprite: seq<Byte>, x: Byte, y: Byte, i: nat, c: Column, r: Row)
    requires i <= |sprite| <= Height
    ensures FlipParity(sprite, x, y, i, c, r) <==>
      exists i', j :: i <= i' < |sprite| && 0 <= j < 8 && BitLands(sprite[i'], x, y, i', j, c, r)
    decreases |sprite| - i
  {
    if i < |sprite| {
      ParityOfShortSprite(sprite, x, y, i + 1, c, r);
      if RowLandsFrom(sprite[i], x, y, i, 0, c, r) {
        forall i', j | i < i' < |sprite| && 0 <= j < 8
          ensures !BitLands(sprite[i'], x, y, i', j, c, r)
        {
          RowsDistinct(y, i, i');
        }
      }
    }
  }

  /**
   For sprites of at most 32 rows, the collision flag is set exactly when
   a set bit of rows `i` on lands on a pixel lit before row `i` is drawn.
   */
  lemma {:induction false} DrawRowsCollision(g: Screen, x: Byte, y: Byte, sprite: seq<Byte>, i: nat, collision: bool)
    requires i <= |sprite| <= Height
    ensures DrawRows(g, x, y, sprite, i, collision).1 <==>
      collision || exists i', j :: i <= i' < |sprite| && 0 <= j < 8 && Bit(sprite[i'], j)
                                   && Pixel(g, Col(x, j), RowOf(y, i'))
    decreases |sprite| - i
  {
    if i < |sprite| {
      DrawBitsGrid(g, x, y, i, sprite[i], 0, collision);
      DrawBitsCollision(g, x, y, i, sprite[i], 0, collision);
      var (g1, collision1) := DrawBits(g, x, y, i, sprite[i], 0, collision);
      DrawRowsCollision(g1, x, y, sprite, i + 1, collision1);
      forall i', j | i < i' < |sprite| && 0 <= j < 8
        ensures Pixel(g1, Col(x, j), RowOf(y, i')) == Pixel(g, Col(x, j), RowOf(y, i'))
      {
        RowsDistinct(y, i, i');
        assert !RowLandsFrom(sprite[i], x, y, i, 0, Col(x, j), RowOf(y, i'));
      }
    }
  }

  // ----- Properties of draw -----

  /**
   After `draw`, each pixel is flipped exactly when an odd number of set
   sprite bits land on it, for sprites of any length.
   */
  lemma DrawFlipsByParity(g: Screen, x: Byte, y: Byte, sprite: seq<Byte>)
    ensures forall c: Column, r: Row ::
      Pixel(Draw(g, x, y, sprite).0, c, r) == (Pixel(g, c, r) != FlipParity(sprite, x, y, 0, c, r))
  {
    DrawRowsGrid(g, x, y, sprite, 0, false);
  }

  /**
   For a sprite of at most 32 rows, `draw` flips exactly the pixels a set
   sprite bit lands on and leaves every other pixel unchanged.
   */
  lemma DrawFlipsTargets(g: Screen, x: Byte, y: Byte, sprite: seq<Byte>)
    requires |sprite| <= Height
    ensures forall c: Column, r: Row ::
      Pixel(Draw(g, x, y, sprite).0, c, r) == (Pixel(g, c, r) != Targeted(sprite, x, y, c, r))
  {
    DrawRowsGrid(g, x, y, sprite, 0, false);
    forall c: Column, r: Row
      ensures FlipParity(sprite, x, y, 0, c, r) == Targeted(sprite, x, y, c, r)
    {
      ParityOfShortSprite(sprite, x, y, 0, c, r);
    }
  }

  /**
   For a sprite of at most 32 rows, `draw` reports a collision exactly when
   a set sprite bit lands on a pixel that was lit before the call.
   */
  lemma DrawCollision(g: Screen, x: Byte, y: Byte, sprite: seq<Byte>)
    requires |sprite| <= Height
    ensures Draw(g, x, y, sprite).1 <==> HitsLitPixel(g, sprite, x, y)
  {
    DrawRowsCollision(g, x, y, sprite, 0, false);
  }

  /** Two grids that agree on every pixel are equal. */
  lemma GridsEqual(g: Screen, h: Screen)
    requires forall c: Column, r: Row :: Pixel(g, c, r) == Pixel(h, c, r)
    ensures g == h
  {
    forall c: Column
      ensures g[c] == h[c]
    {
      assert |g[c]| == Height && |h[c]| == Height;
      forall r: Row
        ensures g[c][r] == h[c][r]
      {
        assert Pixel(g, c, r) == Pixel(h, c, r);
      }
    }
  }

  /** Drawing a sprite twice at the same place gives back the original grid. */
  lemma DrawTwiceRestores(g: Screen, x: Byte, y: Byte, sprite: seq<Byte>)
    ensures Draw(Draw(g, x, y, sprite).0, x, y, sprite).0 == g
  {
    var g1 := Draw(g, x, y, sprite).0;
    DrawFlipsByParity(g, x, y, sprite);
    DrawFlipsByParity(g1, x, y, sprite);
    GridsEqual(Draw(g1, x, y, sprite).0, g);
  }

  /**
   When no set bit of a sprite lands on a lit pixel, the first draw reports
   no collision, and redrawing it at the same place always reports one as
   soon as the sprite has a set bit: every pixel the first draw lit is hit
   again.
   */
  lemma RedrawCollides(g: Screen, x: Byte, y: Byte, sprite: seq<Byte>, i: nat, j: nat)
    requires |sprite| <= Height
    requires i < |sprite| && j < 8 && Bit(sprite[i], j)
    requires !HitsLitPixel(g, sprite, x, y)
    ensures !Draw(g, x, y, sprite).1
    ensures Draw(Draw(g, x, y, sprite).0, x, y, sprite).1
  {
    var g1 := Draw(g, x, y, sprite).0;
    var c, r := Col(x, j), RowOf(y, i);
    DrawCollision(g, x, y, sprite);
    assert !Pixel(g, c, r);
    assert BitLands(sprite[i], x, y, i, j, c, r);
    DrawFlipsTargets(g, x, y, sprite);
    assert Pixel(g1, c, r);
    DrawCollision(g1, x, y, sprite);
  }

  /** An empty sprite changes nothing and reports no collision. */
  lemma DrawEmpty(g: Screen, x: Byte, y: Byte)
    ensures Draw(g, x, y, []) == (g, false)
  {
  }
}
