/** The tile grid: its dimensions, the sealed outer box, the interior fill with
    MAZE_WALL, rectangle predicates, and the row-major scans the generator uses
    to collect candidate cells. */
module Grid {
  import opened Tiles
  import opened Common

  const RoomWidthPixels: int := 3840
  const RoomHeightPixels: int := 2160
  const TileSizeWidth: int := 256
  const TileSizeHeight: int := 256
  /** Integer (floor) division, as the source's // on positive operands. */
  const GridColumns: int := RoomWidthPixels / TileSizeWidth
  const GridRows: int := RoomHeightPixels / TileSizeHeight

  /** A 3840x2160 canvas of 256x256 tiles is 15 columns by 8 rows. */
  lemma GridSize()
    ensures GridColumns == 15 && GridRows == 8
  {
  }

  predicate InGrid(g: array2<Cell>, r: int, c: int) {
    0 <= r < g.Length0 && 0 <= c < g.Length1
  }

  /** Strictly inside the permanent outer ring. */
  predicate Interior(rows: int, cols: int, r: int, c: int) {
    1 <= r < rows - 1 && 1 <= c < cols - 1
  }

  /** The bounds the maze and the connector test against: strictly inside the
      ring of a grid of the configured size, whatever the grid in hand. */
  predicate InMazeBounds(r: int, c: int) {
    1 <= r < GridRows - 1 && 1 <= c < GridColumns - 1
  }

  predicate InRect(sr: int, sc: int, w: int, h: int, r: int, c: int) {
    sr <= r < sr + h && sc <= c < sc + w
  }

  /** The cells of a rectangle one step in from its border. */
  predicate InRectInterior(sr: int, sc: int, w: int, h: int, r: int, c: int) {
    sr < r < sr + h - 1 && sc < c < sc + w - 1
  }

  predicate RectInGrid(g: array2<Cell>, sr: int, sc: int, w: int, h: int) {
    0 <= sr && 0 <= sc && sr + h <= g.Length0 && sc + w <= g.Length1
  }

  /** The corner writes of generate_initial_box_dungeon, the later write
      winning where a degenerate one-row or one-column grid makes them meet. */
  function CornerTile(rows: int, cols: int, r: int, c: int): Cell {
    if r == rows - 1 && c == cols - 1 then BottomRightCorner
    else if r == rows - 1 && c == 0 then BottomLeftCorner
    else if r == 0 && c == cols - 1 then TopRightCorner
    else if r == 0 && c == 0 then TopLeftCorner
    else NoWall
  }

  /** The tile generate_initial_box_dungeon leaves at (r, c): the edge-wall
      branches in the source's order, else what the corner writes left. */
  function BoxTile(rows: int, cols: int, r: int, c: int): Cell {
    if r == 0 && 0 < c < cols - 1 then TopWall
    else if r == rows - 1 && 0 < c < cols - 1 then BottomWall
    else if c == 0 && 0 < r < rows - 1 then LeftWall
    else if c == cols - 1 && 0 < r < rows - 1 then RightWall
    else CornerTile(rows, cols, r, c)
  }

  /** generate_initial_box_dungeon. Indexing row 0 and column 0 needs a
      non-empty grid; Python raises otherwise. */
  method GenerateInitialBoxDungeon(rows: int, columns: int) returns (g: array2<Cell>)
    requires rows >= 1 && columns >= 1
    ensures fresh(g) && g.Length0 == rows && g.Length1 == columns
    ensures forall r, c :: InGrid(g, r, c) ==> g[r, c] == BoxTile(rows, columns, r, c)
  {
    g := new Cell[rows, columns]((_, _) => NoWall);
    g[0, 0] := TopLeftCorner;
    g[0, columns - 1] := TopRightCorner;
    g[rows - 1, 0] := BottomLeftCorner;
    g[rows - 1, columns - 1] := BottomRightCorner;
    for r := 0 to rows
      invariant forall r', c' :: InGrid(g, r', c') && r' < r ==> g[r', c'] == BoxTile(rows, columns, r', c')
      invariant forall r', c' :: InGrid(g, r', c') && r <= r' ==> g[r', c'] == CornerTile(rows, columns, r', c')
    {
      for c := 0 to columns
        invariant forall r', c' :: InGrid(g, r', c') && (r' < r || (r' == r && c' < c)) ==>
          g[r', c'] == BoxTile(rows, columns, r', c')
        invariant forall r', c' :: InGrid(g, r', c') && (r' > r || (r' == r && c' >= c)) ==>
          g[r', c'] == CornerTile(rows, columns, r', c')
      {
        if r == 0 && 0 < c < columns - 1 {
          g[r, c] := TopWall;
        } else if r == rows - 1 && 0 < c < columns - 1 {
          g[r, c] := BottomWall;
        } else if c == 0 && 0 < r < rows - 1 {
          g[r, c] := LeftWall;
        } else if c == columns - 1 && 0 < r < rows - 1 {
          g[r, c] := RightWall;
        }
      }
    }
  }

  /** initialize_inner_grid: every interior cell becomes MAZE_WALL; the ring
      is left as it was. Reading the row length needs at least one row. */
  method InitializeInnerGrid(g: array2<Cell>)
    requires g.Length0 >= 1
    modifies g
    ensures forall r, c :: InGrid(g, r, c) ==>
      g[r, c] == if Interior(g.Length0, g.Length1, r, c) then MazeWall else old(g[r, c])
  {
    var rows, columns := g.Length0, g.Length1;
    var r := 1;
    while r < rows - 1
      invariant 1 <= r
      invariant forall r', c' :: InGrid(g, r', c') ==>
        g[r', c'] == if Interior(rows, columns, r', c') && r' < r then MazeWall else old(g[r', c'])
    {
      var c := 1;
      while c < columns - 1
        invariant 1 <= c
        invariant forall r', c' :: InGrid(g, r', c') ==>
          g[r', c'] == if Interior(rows, columns, r', c') && (r' < r || (r' == r && c' < c)) then MazeWall
                       else old(g[r', c'])
      {
        g[r, c] := MazeWall;
        c := c + 1;
      }
      r := r + 1;
    }
  }

  /** The grid both initialisation steps produce together. */
  function InitialTile(rows: int, cols: int, r: int, c: int): Cell {
    if Interior(rows, cols, r, c) then MazeWall else BoxTile(rows, cols, r, c)
  }

  /** The sealed box: corners, the four edge walls, and MAZE_WALL exactly inside. */
  lemma SealedBox(rows: int, cols: int, r: int, c: int)
    requires rows >= 2 && cols >= 2 && 0 <= r < rows && 0 <= c < cols
    ensures var t := InitialTile(rows, cols, r, c);
      && (r == 0 && c == 0 ==> t == TopLeftCorner)
      && (r == 0 && c == cols - 1 ==> t == TopRightCorner)
      && (r == rows - 1 && c == 0 ==> t == BottomLeftCorner)
      && (r == rows - 1 && c == cols - 1 ==> t == BottomRightCorner)
      && (0 < c < cols - 1 && r == 0 ==> t == TopWall)
      && (0 < c < cols - 1 && r == rows - 1 ==> t == BottomWall)
      && (0 < r < rows - 1 && c == 0 ==> t == LeftWall)
      && (0 < r < rows - 1 && c == cols - 1 ==> t == RightWall)
      && (t == MazeWall <==> Interior(rows, cols, r, c))
      && !(t.MazePassage?)
  {
  }

  /** Row-major strict order on cells. */
  predicate RowMajorLess(p: (int, int), q: (int, int)) {
    p.0 < q.0 || (p.0 == q.0 && p.1 < q.1)
  }

  ghost predicate RowMajorSorted(cells: seq<(int, int)>) {
    forall i, j :: 0 <= i < j < |cells| ==> RowMajorLess(cells[i], cells[j])
  }

  /** The cells a scan of rows [r0, r1) and columns [c0, c1) keeps. */
  ghost predicate Scanned(g: array2<Cell>, r0: int, r1: int, c0: int, c1: int, keep: Cell -> bool,
                          p: (int, int))
    reads g
  {
    r0 <= p.0 < r1 && c0 <= p.1 < c1 && InGrid(g, p.0, p.1) && keep(g[p.0, p.1])
  }

  /** Row-major sorted sequences have no duplicates. */
  lemma SortedDistinct(cells: seq<(int, int)>)
    requires RowMajorSorted(cells)
    ensures Distinct(cells)
  {
    forall i, j | 0 <= i < j < |cells|
      ensures cells[i] != cells[j]
    {
      assert RowMajorLess(cells[i], cells[j]);
    }
  }

  /** The generator's collection loops over a rectangle of the grid: rows r0
      up to r1 and, in each, columns c0 up to c1, keeping the cells whose tile
      passes the test. The result is exactly the kept cells, in row-major
      order, so without duplicates. */
  method ScanGrid(g: array2<Cell>, r0: int, r1: int, c0: int, c1: int, keep: Cell -> bool)
    returns (cells: seq<(int, int)>)
    requires 0 <= r0 && r1 <= g.Length0 && 0 <= c0 && c1 <= g.Length1
    ensures forall p :: p in cells <==> Scanned(g, r0, r1, c0, c1, keep, p)
    ensures RowMajorSorted(cells) && Distinct(cells)
    ensures r1 <= r0 || c1 <= c0 ==> cells == []
  {
    cells := [];
    var r := r0;
    while r < r1
      invariant r0 <= r
      invariant forall p :: p in cells <==> Scanned(g, r0, r1, c0, c1, keep, p) && p.0 < r
      invariant forall i :: 0 <= i < |cells| ==> cells[i].0 < r
      invariant RowMajorSorted(cells)
      invariant r1 <= r0 || c1 <= c0 ==> cells == []
      decreases r1 - r
    {
      var c := c0;
      while c < c1
        invariant c0 <= c
        invariant forall p :: p in cells <==>
          Scanned(g, r0, r1, c0, c1, keep, p) && (p.0 < r || (p.0 == r && p.1 < c))
        invariant forall i :: 0 <= i < |cells| ==> RowMajorLess(cells[i], (r, c))
        invariant RowMajorSorted(cells)
        invariant r1 <= r0 || c1 <= c0 ==> cells == []
        decreases c1 - c
      {
        if keep(g[r, c]) {
          cells := cells + [(r, c)];
        }
        c := c + 1;
      }
      r := r + 1;
    }
    SortedDistinct(cells);
  }

  /** Every cell of the rectangle holds tile t. */
  ghost predicate Uniform(g: array2<Cell>, sr: int, sc: int, w: int, h: int, t: Cell)
    reads g
  {
    forall r, c :: InRect(sr, sc, w, h, r, c) && InGrid(g, r, c) ==> g[r, c] == t
  }

  /** The nested check loop that gives up at the first cell of the rectangle
      not holding t (is_area_clear's scan, the sub-room footprint test). */
  method AllTiles(g: array2<Cell>, sr: int, sc: int, w: int, h: int, t: Cell) returns (all: bool)
    requires RectInGrid(g, sr, sc, w, h)
    ensures all <==> Uniform(g, sr, sc, w, h, t)
  {
    var r := sr;
    while r < sr + h
      invariant sr <= r && (r <= sr + h || h < 0)
      invariant forall r', c' :: InRect(sr, sc, w, h, r', c') && r' < r ==> g[r', c'] == t
      decreases sr + h - r
    {
      var c := sc;
      while c < sc + w
        invariant sc <= c && (c <= sc + w || w < 0)
        invariant forall r', c' :: InRect(sr, sc, w, h, r', c') && (r' < r || (r' == r && c' < c)) ==> g[r', c'] == t
        decreases sc + w - c
      {
        if g[r, c] != t {
          return false;
        }
        c := c + 1;
      }
      r := r + 1;
    }
    return true;
  }
}
