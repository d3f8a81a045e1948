/**
 * The discrete part of the raycasting renderer of src/old/game.rs: the
 * row-major framebuffer addressing of `Grid`, the ray march, the wall band,
 * the distance fog texture and the in-place fill of `draw_scene`.
 *
 * Distances are exact reals (the march adds the step 0.02 to a running
 * total); the trigonometry that moves a ray through the field is an oracle
 * that names, for every column and every step, the cell the ray is in.
 */
module Game {
  import opened Common

  /** Cell tag of a wall in the field's byte map (`b'#'`). */
  const Wall: byte := Byte('#')

  /** Glyphs of the framebuffer. */
  const Ceiling: char := ' '
  const Ground: char := '.'
  const Near: char := '\U{2593}'    // '▓'
  const Middle: char := '\U{2592}'  // '▒'
  const Far: char := '\U{2591}'     // '░'
  /** Fill value of a resized buffer and the debug mark drawn at (0, 0). */
  const Marker: char := 'a'

  /** Ray march step and the distance at which a ray counts as a miss. */
  const Delta: real := 0.02
  const TooFarWall: real := 6.0
  /** Steps after which the running distance reaches TooFarWall. */
  const MaxSteps: nat := 300

  /** Velocity of the player: at rest, or SpeedFactor along a heading in ticks of PI/90. */
  datatype Velocity = Stopped | Moving(heading: int)

  /**
   * The player: position in cell space ((0, 0) is the top-left corner of
   * cell (0, 0)), heading in ticks of PI/90, velocity.
   */
  datatype Player = Player(x: real, y: real, angle: int, velocity: Velocity)

  /** The occupancy field, addressed as blocks[x][y], and the player in it. */
  datatype Field = Field(blocks: seq<seq<byte>>, player: Player)

  /** For each step k of a ray, the cell (floor x, floor y) the ray point is in. */
  type Ray = nat -> (int, int)

  /** The field is non-empty and rectangular. */
  predicate WellFormed(blocks: seq<seq<byte>>)
  {
    |blocks| > 0 && forall i :: 0 <= i < |blocks| ==> |blocks[i]| == |blocks[0]|
  }

  predicate InGrid(blocks: seq<seq<byte>>, x: int, y: int)
    requires |blocks| > 0
  {
    0 <= x < |blocks| && 0 <= y < |blocks[0]|
  }

  /** The ray's cell at step j is inside the field and not a wall. */
  predicate Open(blocks: seq<seq<byte>>, ray: Ray, j: nat)
    requires WellFormed(blocks)
  {
    var (x, y) := ray(j);
    InGrid(blocks, x, y) && blocks[x][y] != Wall
  }

  /** The ray's cell at step j is a wall of the field. */
  predicate HitsWall(blocks: seq<seq<byte>>, ray: Ray, j: nat)
    requires WellFormed(blocks)
  {
    var (x, y) := ray(j);
    InGrid(blocks, x, y) && blocks[x][y] == Wall
  }

  // ---------------------------------------------------------------------
  // Grid: row-major addressing (x, y) -> x + width * y
  // ---------------------------------------------------------------------

  function GridIndex(width: nat, x: nat, y: nat): nat
  {
    x + width * y
  }

  lemma GridIndexInBounds(width: nat, height: nat, x: nat, y: nat)
    requires x < width && y < height
    ensures GridIndex(width, x, y) < width * height
  {
    assert width * y + width == width * (y + 1);
    assert width * (y + 1) <= width * height by {
      MulMonotone(width, y + 1, height);
    }
  }

  lemma MulMonotone(w: nat, a: nat, b: nat)
    requires a <= b
    ensures w * a <= w * b
  {
    assert w * b == w * a + w * (b - a);
  }

  /** Column and row are recovered from a cell's index. */
  lemma GridIndexDivMod(width: nat, x: nat, y: nat)
    requires x < width
    ensures GridIndex(width, x, y) % width == x
    ensures GridIndex(width, x, y) / width == y
  {
    DivModUnique(width, x + width * y, y, x);
  }

  lemma DivModUnique(w: nat, i: int, q: int, r: int)
    requires 0 <= r < w
    requires i == w * q + r
    ensures i / w == q && i % w == r
  {
    var q', r' := i / w, i % w;
    assert i == w * q' + r' && 0 <= r' < w;
    assert w * (q - q') == r' - r;
    if q > q' {
      MulMonotone(w, 1, q - q');
      assert false;
    } else if q < q' {
      MulMonotone(w, 1, q' - q);
      assert false;
    }
  }

  /** Distinct cells of a width-wide grid have distinct indices. */
  lemma GridIndexInjective(width: nat, x1: nat, y1: nat, x2: nat, y2: nat)
    requires x1 < width && x2 < width
    requires GridIndex(width, x1, y1) == GridIndex(width, x2, y2)
    ensures x1 == x2 && y1 == y2
  {
    GridIndexDivMod(width, x1, y1);
    GridIndexDivMod(width, x2, y2);
  }

  /** Every index of a width * height buffer is the index of exactly one cell in range. */
  lemma GridIndexOnto(width: nat, height: nat, i: nat)
    requires i < width * height
    ensures width > 0
    ensures i % width < width && i / width < height
    ensures GridIndex(width, i % width, i / width) == i
  {
    if width == 0 {
      assert false;
    }
    var q := i / width;
    if q >= height {
      MulMonotone(width, height, q);
      assert false;
    }
  }

  // ---------------------------------------------------------------------
  // Ray march
  // ---------------------------------------------------------------------

  /**
   * The distance the march reports when it has taken k steps without
   * stopping: leaving the field gives TooFarWall, a wall cell stops at the
   * running distance, and the march gives up once the running distance
   * reaches TooFarWall.
   */
  function MarchFrom(blocks: seq<seq<byte>>, ray: Ray, k: nat): (d: real)
    requires WellFormed(blocks)
    requires k < MaxSteps
    ensures k as real * Delta <= d <= TooFarWall
    decreases MaxSteps - k
  {
    var (x, y) := ray(k);
    if !InGrid(blocks, x, y) then TooFarWall
    else if blocks[x][y] == Wall then k as real * Delta
    else
      var next := (k + 1) as real * Delta;
      if next >= TooFarWall then next else MarchFrom(blocks, ray, k + 1)
  }

  /** Distance from the player to the first wall along a ray. */
  function RayDistance(blocks: seq<seq<byte>>, ray: Ray): real
    requires WellFormed(blocks)
  {
    MarchFrom(blocks, ray, 0)
  }

  lemma {:induction false} MarchFromStopsAtWall(blocks: seq<seq<byte>>, ray: Ray, m: nat, k: nat)
    requires WellFormed(blocks)
    requires m <= k < MaxSteps
    requires forall j :: m <= j < k ==> Open(blocks, ray, j)
    requires HitsWall(blocks, ray, k)
    ensures MarchFrom(blocks, ray, m) == k as real * Delta
    decreases k - m
  {
    if m < k {
      assert Open(blocks, ray, m);
      MarchFromStopsAtWall(blocks, ray, m + 1, k);
    }
  }

  lemma {:induction false} MarchFromLeaves(blocks: seq<seq<byte>>, ray: Ray, m: nat, k: nat)
    requires WellFormed(blocks)
    requires m <= k < MaxSteps
    requires forall j :: m <= j < k ==> Open(blocks, ray, j)
    requires var (x, y) := ray(k); !InGrid(blocks, x, y)
    ensures MarchFrom(blocks, ray, m) == TooFarWall
    decreases k - m
  {
    if m < k {
      assert Open(blocks, ray, m);
      MarchFromLeaves(blocks, ray, m + 1, k);
    }
  }

  lemma {:induction false} MarchFromRunsOut(blocks: seq<seq<byte>>, ray: Ray, m: nat)
    requires WellFormed(blocks)
    requires m < MaxSteps
    requires forall j :: m <= j < MaxSteps ==> Open(blocks, ray, j)
    ensures MarchFrom(blocks, ray, m) == TooFarWall
    decreases MaxSteps - m
  {
    assert Open(blocks, ray, m);
    if m + 1 < MaxSteps {
      MarchFromRunsOut(blocks, ray, m + 1);
    }
  }

  /** A ray whose first non-open cell is a wall at step k reports k steps of 0.02. */
  lemma RayHitsWall(blocks: seq<seq<byte>>, ray: Ray, k: nat)
    requires WellFormed(blocks)
    requires k < MaxSteps
    requires forall j :: 0 <= j < k ==> Open(blocks, ray, j)
    requires HitsWall(blocks, ray, k)
    ensures RayDistance(blocks, ray) == k as real * Delta
  {
    MarchFromStopsAtWall(blocks, ray, 0, k);
  }

  /** A ray that leaves the field before meeting a wall reports TooFarWall. */
  lemma RayLeavesField(blocks: seq<seq<byte>>, ray: Ray, k: nat)
    requires WellFormed(blocks)
    requires k < MaxSteps
    requires forall j :: 0 <= j < k ==> Open(blocks, ray, j)
    requires var (x, y) := ray(k); !InGrid(blocks, x, y)
    ensures RayDistance(blocks, ray) == TooFarWall
  {
    MarchFromLeaves(blocks, ray, 0, k);
  }

  /** A ray that stays in open cells until the running distance reaches TooFarWall reports TooFarWall. */
  lemma RayRunsOut(blocks: seq<seq<byte>>, ray: Ray)
    requires WellFormed(blocks)
    requires forall j :: 0 <= j < MaxSteps ==> Open(blocks, ray, j)
    ensures RayDistance(blocks, ray) == TooFarWall
  {
    MarchFromRunsOut(blocks, ray, 0);
  }

  /** The march loop of draw_scene for one column. */
  method MarchRay(blocks: seq<seq<byte>>, ray: Ray) returns (distance: real)
    requires WellFormed(blocks)
    ensures distance == RayDistance(blocks, ray)
    ensures 0.0 <= distance <= TooFarWall
  {
    distance := 0.0;
    var step: nat := 0;
    while true
      invariant step < MaxSteps
      invariant distance == step as real * Delta
      invariant RayDistance(blocks, ray) == MarchFrom(blocks, ray, step)
      decreases MaxSteps - step
    {
      var (x, y) := ray(step);
      if x < 0 || y < 0 || x >= |blocks| || y >= |blocks[0]| {
        distance := TooFarWall;
        break;
      }
      if blocks[x][y] == Wall {
        break;
      }
      distance := distance + Delta;
      step := step + 1;
      if distance >= TooFarWall {
        break;
      }
    }
  }

  // ---------------------------------------------------------------------
  // Projection and shading
  // ---------------------------------------------------------------------

  /** Rust's `as usize` on a float: truncation toward zero, negative values saturate to 0. */
  function ToUsize(r: real): (n: nat)
    ensures r < 0.0 ==> n == 0
    ensures r >= 0.0 ==> n as real <= r < n as real + 1.0
  {
    if r < 0.0 then 0 else r.Floor
  }

  /** Rows [top, bottom) of a column show the wall. */
  datatype Band = Band(top: nat, bottom: nat)

  /**
   * The wall of a column seen at `distance`: height / (distance + 1) rows,
   * centred, with both edges truncated to row indices.
   */
  function WallBand(height: nat, distance: real): (b: Band)
    requires distance >= 0.0
    ensures b.top <= b.bottom <= height
    ensures b.top as real <= height as real / 2.0 < b.bottom as real + 1.0
  {
    var wallSize := height as real / (distance + 1.0);
    assert 0.0 <= wallSize <= height as real by {
      assert wallSize * (distance + 1.0) == height as real;
      assert wallSize * distance >= 0.0;
    }
    Band(ToUsize((height as real - wallSize) / 2.0), ToUsize((height as real + wallSize) / 2.0))
  }

  /** A wall next to the player fills its whole column. */
  lemma WallBandAtZero(height: nat)
    ensures WallBand(height, 0.0) == Band(0, height)
  {
  }

  /** The farther the wall, the smaller its band: a farther band lies inside a nearer one. */
  lemma WallBandShrinks(height: nat, d1: real, d2: real)
    requires 0.0 <= d1 <= d2
    ensures WallBand(height, d1).top <= WallBand(height, d2).top
    ensures WallBand(height, d2).bottom <= WallBand(height, d1).bottom
  {
    var h := height as real;
    var s1, s2 := h / (d1 + 1.0), h / (d2 + 1.0);
    QuotientAntitone(h, d1 + 1.0, d2 + 1.0);
    ToUsizeMonotone((h - s1) / 2.0, (h - s2) / 2.0);
    ToUsizeMonotone((h + s2) / 2.0, (h + s1) / 2.0);
  }

  lemma QuotientAntitone(h: real, e1: real, e2: real)
    requires h >= 0.0 && 0.0 < e1 <= e2
    ensures h / e2 <= h / e1
  {
    var s1, s2 := h / e1, h / e2;
    assert s1 * e1 == h && s2 * e2 == h;
    NonNegativeQuotient(h, e2);
    ScaleMonotone(s2, e1, e2);
    assert (s1 - s2) * e1 == s1 * e1 - s2 * e1;
    NonNegativeFactor(s1 - s2, e1);
  }

  lemma ToUsizeMonotone(a: real, b: real)
    requires a <= b
    ensures ToUsize(a) <= ToUsize(b)
  {
  }

  lemma NonNegativeQuotient(a: real, b: real)
    requires a >= 0.0 && b > 0.0
    ensures a / b >= 0.0
  {
  }

  lemma ScaleMonotone(s: real, a: real, b: real)
    requires s >= 0.0 && a <= b
    ensures s * a <= s * b
  {
    assert s * b - s * a == s * (b - a);
  }

  lemma NonNegativeFactor(a: real, b: real)
    requires a * b >= 0.0 && b > 0.0
    ensures a >= 0.0
  {
  }

  /** The three-level distance fog. */
  function Texture(distance: real): (t: char)
    ensures t == Near <==> distance <= 2.0
    ensures t == Middle <==> 2.0 < distance <= 4.0
    ensures t == Far <==> 4.0 < distance
  {
    if distance <= TooFarWall / 3.0 then Near
    else if distance <= TooFarWall * 2.0 / 3.0 then Middle
    else Far
  }

  /** A ray that sees no wall is drawn in the lightest fog with a band of height / 7 rows. */
  lemma MissedWallLook(height: nat)
    ensures Texture(TooFarWall) == Far
    ensures var b := WallBand(height, TooFarWall);
            b.top == ToUsize((height as real - height as real / 7.0) / 2.0) &&
            b.bottom == ToUsize((height as real + height as real / 7.0) / 2.0)
  {
  }

  /** The glyph of row y of a column whose wall band is `band`. */
  function Glyph(band: Band, texture: char, y: nat): char
  {
    if y < band.top then Ceiling
    else if y < band.bottom then texture
    else Ground
  }

  /** The glyph of row y of the column traced by `ray`. */
  function ColumnGlyph(blocks: seq<seq<byte>>, height: nat, ray: Ray, y: nat): char
    requires WellFormed(blocks)
  {
    var d := RayDistance(blocks, ray);
    Glyph(WallBand(height, d), Texture(d), y)
  }

  /** The rendered view: column x is traced by rays(x); cell (0, 0) carries the debug mark. */
  function Frame(blocks: seq<seq<byte>>, width: nat, height: nat, rays: nat -> Ray): (f: seq<char>)
    requires WellFormed(blocks)
    ensures |f| == width * height
  {
    seq(width * height, i requires 0 <= i < width * height =>
      if i == 0 then Marker
      else (GridIndexOnto(width, height, i); ColumnGlyph(blocks, height, rays(i % width), i / width)))
  }

  /**
   * Cell (x, y) of the view: in every column rows [0, top) are ceiling,
   * rows [top, bottom) the wall texture and rows [bottom, height) ground,
   * except for the mark at (0, 0).
   */
  lemma FrameAt(blocks: seq<seq<byte>>, width: nat, height: nat, rays: nat -> Ray, x: nat, y: nat)
    requires WellFormed(blocks)
    requires x < width && y < height
    ensures GridIndex(width, x, y) < |Frame(blocks, width, height, rays)|
    ensures var d := RayDistance(blocks, rays(x));
            var b := WallBand(height, d);
            Frame(blocks, width, height, rays)[GridIndex(width, x, y)] ==
              if x == 0 && y == 0 then Marker
              else if y < b.top then Ceiling
              else if y < b.bottom then Texture(d)
              else Ground
  {
    GridIndexInBounds(width, height, x, y);
    GridIndexDivMod(width, x, y);
    if GridIndex(width, x, y) == 0 {
      GridIndexInjective(width, x, y, 0, 0);
    }
  }

  // ---------------------------------------------------------------------
  // The framebuffer and draw_scene
  // ---------------------------------------------------------------------

  /** `Vec::resize`: keep the first n elements, padding with `fill`. */
  function Resized(s: seq<char>, n: nat, fill: char): (r: seq<char>)
    ensures |r| == n
    ensures forall i :: 0 <= i < n ==> r[i] == if i < |s| then s[i] else fill
  {
    if n <= |s| then s[..n] else s + seq(n - |s|, _ => fill)
  }

  /** The character buffer the frame loop owns and the renderer overwrites. */
  class CharBuffer {
    var cells: array<char>

    constructor (n: nat, fill: char)
      ensures fresh(cells)
      ensures cells[..] == seq(n, _ => fill)
    {
      cells := new char[n](_ => fill);
    }

    method Resize(n: nat, fill: char)
      modifies this
      ensures cells == old(cells) || fresh(cells)
      ensures cells[..] == Resized(old(cells[..]), n, fill)
    {
      if n != cells.Length {
        var was := cells[..];
        cells := new char[n](i requires 0 <= i < n => if i < |was| then was[i] else fill);
      }
    }
  }

  /** One fill loop: rows [from, to) of column x get `c`, the glyph the column shows there. */
  method FillRows(a: array<char>, width: nat, height: nat, x: nat, from: nat, to: nat, c: char,
                  ghost band: Band, ghost texture: char)
    requires a.Length == width * height
    requires x < width && from <= to <= height
    requires forall y :: from <= y < to ==> Glyph(band, texture, y) == c
    modifies a
    ensures forall i :: 0 <= i < a.Length && i % width == x && i / width < to ==>
      a[i] == if i / width < from then old(a[i]) else Glyph(band, texture, i / width)
    ensures forall i :: 0 <= i < a.Length && (i % width != x || i / width >= to) ==> a[i] == old(a[i])
  {
    var y := from;
    while y < to
      invariant from <= y <= to
      invariant forall i :: 0 <= i < a.Length && i % width == x && from <= i / width < y ==> a[i] == c
      invariant forall i :: 0 <= i < a.Length && (i % width != x || i / width < from || i / width >= y) ==> a[i] == old(a[i])
    {
      GridIndexInBounds(width, height, x, y);
      GridIndexDivMod(width, x, y);
      forall i | 0 <= i < a.Length && i % width == x && i / width == y
        ensures i == GridIndex(width, x, y)
      {
        GridIndexOnto(width, height, i);
      }
      a[GridIndex(width, x, y)] := c;
      y := y + 1;
    }
  }

  /**
   * The three fill loops of one column: ceiling, wall, ground. Every row of
   * column x is written, and no cell of another column.
   */
  method FillColumn(a: array<char>, width: nat, height: nat, x: nat, band: Band, texture: char)
    requires a.Length == width * height
    requires x < width
    requires band.top <= band.bottom <= height
    modifies a
    ensures forall i :: 0 <= i < a.Length && i % width == x ==> a[i] == Glyph(band, texture, i / width)
    ensures forall i :: 0 <= i < a.Length && i % width != x ==> a[i] == old(a[i])
  {
    FillRows(a, width, height, x, 0, band.top, Ceiling, band, texture);
    FillRows(a, width, height, x, band.top, band.bottom, texture, band, texture);
    FillRows(a, width, height, x, band.bottom, height, Ground, band, texture);
    forall i | 0 <= i < a.Length
      ensures i / width < height
    {
      GridIndexOnto(width, height, i);
    }
  }

  /**
   * draw_scene: resize the buffer to width * height, trace and fill every
   * column, then put the mark at (0, 0).
   */
  method DrawScene(field: Field, width: nat, height: nat, rays: nat -> Ray, buffer: CharBuffer)
    requires WellFormed(field.blocks)
    requires width > 0 && height > 0
    modifies buffer, buffer.cells
    ensures buffer.cells == old(buffer.cells) || fresh(buffer.cells)
    ensures buffer.cells.Length == width * height
    ensures buffer.cells[..] == Frame(field.blocks, width, height, rays)
  {
    buffer.Resize(width * height, Marker);
    var a := buffer.cells;
    var col := 0;
    while col < width
      invariant col <= width
      invariant buffer.cells == a && a.Length == width * height
      invariant a == old(buffer.cells) || fresh(a)
      invariant forall i :: 0 <= i < a.Length && i % width < col ==>
        a[i] == ColumnGlyph(field.blocks, height, rays(i % width), i / width)
    {
      var distance := MarchRay(field.blocks, rays(col));
      var band := WallBand(height, distance);
      var texture := Texture(distance);
      FillColumn(a, width, height, col, band, texture);
      col := col + 1;
    }
    GridIndexInBounds(width, height, 0, 0);
    a[GridIndex(width, 0, 0)] := Marker;
    ghost var f := Frame(field.blocks, width, height, rays);
    forall i | 0 <= i < a.Length
      ensures a[i] == f[i]
    {
      GridIndexOnto(width, height, i);
    }
    assert a[..] == f;
  }
}
