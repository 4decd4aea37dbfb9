/** The hallway maze: recursive backtracking over the MAZE_WALL cells left
    after the rooms, then the pass that turns the two integer markers into
    named floor and hallway tiles. */
module Maze {
  import opened Common
  import opened Rng
  import opened Tiles
  import opened Grid

  /** The four moves of the backtracker, two cells at a time. */
  const Directions: seq<(int, int)> := [(0, 2), (0, -2), (2, 0), (-2, 0)]

  /** The row stride of Key: any number above the widest maze column
      (GridColumns - 2 = 13) keeps distinct cells apart; a literal keeps the
      division arithmetic cheap. */
  const KeyStride: int := 16

  /** Cell (r, c) of the maze bounds as one number. */
  function Key(r: int, c: int): int {
    KeyStride * r + c
  }

  /** The MAZE_WALL cells within the maze bounds, by Key: the backtracker's
      measure. */
  ghost function MazeWalls(g: array2<Cell>): set<int>
    reads g
  {
    set k | 0 <= k < KeyStride * GridRows && InMazeBounds(k / KeyStride, k % KeyStride)
      && InGrid(g, k / KeyStride, k % KeyStride) && g[k / KeyStride, k % KeyStride] == MazeWall
  }

  /** No named tile inside the ring sits between two markers, in a row or in
      a column. The backtracker writes MAZE_PASSAGE on the cell between two
      marker cells without looking at it; on such a grid that cell is itself
      a marker, so no named tile is overwritten. */
  ghost predicate NoThin(g: array2<Cell>)
    reads g
  {
    forall x, y :: NotThinAt(g, x, y)
  }

  ghost predicate NotThinAt(g: array2<Cell>, x: int, y: int)
    reads g
  {
    1 <= x < g.Length0 - 1 && 1 <= y < g.Length1 - 1 && !g[x, y].IsMarker() ==>
      (!g[x - 1, y].IsMarker() || !g[x + 1, y].IsMarker()) && (!g[x, y - 1].IsMarker() || !g[x, y + 1].IsMarker())
  }

  /** One MAZE_PASSAGE write. Writing it over a marker keeps a grid free of
      thin named tiles, and writing it over MAZE_WALL shrinks the measure. */
  method MarkPassage(g: array2<Cell>, r: int, c: int)
    requires InGrid(g, r, c)
    modifies g
    ensures forall x, y :: InGrid(g, x, y) ==> g[x, y] == if (x, y) == (r, c) then MazePassage else old(g[x, y])
    ensures MazeWalls(g) <= old(MazeWalls(g))
    ensures old(g[r, c]) == MazeWall && InMazeBounds(r, c) ==> MazeWalls(g) < old(MazeWalls(g))
    ensures old(NoThin(g)) && old(g[r, c]).IsMarker() ==> NoThin(g)
  {
    g[r, c] := MazePassage;
    if old(g[r, c]) == MazeWall && InMazeBounds(r, c) {
      assert Key(r, c) / KeyStride == r && Key(r, c) % KeyStride == c;
      assert Key(r, c) in old(MazeWalls(g)) && Key(r, c) !in MazeWalls(g);
    }
    if old(NoThin(g)) && old(g[r, c]).IsMarker() {
      forall x, y
        ensures NotThinAt(g, x, y)
      {
        assert old(NotThinAt(g, x, y));
      }
    }
  }

  /** How one cell may evolve under the backtracker: it keeps its tile, or it
      becomes MAZE_PASSAGE inside the maze bounds, off the even/even lattice
      the two-cell moves never reach, and then, when the grid had no thin
      named tiles, it held a marker before. */
  predicate Evolves(before: Cell, after: Cell, x: int, y: int, thin: bool) {
    after == before
    || (after == MazePassage && InMazeBounds(x, y) && (x % 2 == 1 || y % 2 == 1) && (thin ==> before.IsMarker()))
  }

  /** recursive_backtracking_maze_generator: mark (r, c) as passage, then try
      the four moves in shuffled order, carving the cell between and recursing
      into every move that lands on MAZE_WALL within the maze bounds.
      Entering only MAZE_WALL cells, each call shrinks the set of MAZE_WALL
      cells, which is why the recursion ends. Afterwards (r, c) is passage,
      every cell has evolved as Evolves allows, and a grid without thin named
      tiles stays so. The ghost flag thin records that the grid had no thin
      named tiles on entry. */
  method CarvePassages(g: array2<Cell>, r: int, c: int, rng: Source, ghost thin: bool) returns (rng': Source)
    requires InMazeBounds(r, c) && g.Length0 >= GridRows && g.Length1 >= GridColumns
    requires r % 2 == 1 && c % 2 == 1
    requires g[r, c] == MazeWall
    requires thin ==> NoThin(g)
    modifies g
    decreases MazeWalls(g), 0
    ensures MazeWalls(g) <= old(MazeWalls(g))
    ensures forall x, y :: InGrid(g, x, y) ==> Evolves(old(g[x, y]), g[x, y], x, y, thin)
    ensures g[r, c] == MazePassage
    ensures thin ==> NoThin(g)
  {
    MarkPassage(g, r, c);
    var dirs;
    dirs, rng' := Shuffle(rng, Directions);
    for i := 0 to |dirs|
      invariant forall x, y :: InGrid(g, x, y) ==> Evolves(old(g[x, y]), g[x, y], x, y, thin)
      invariant g[r, c] == MazePassage
      invariant MazeWalls(g) < old(MazeWalls(g))
      invariant thin ==> NoThin(g)
    {
      rng' := TryDirection(g, r, c, dirs[i], rng', thin);
    }
  }

  /** One iteration of the backtracker's move loop at (r, c), which is
      already passage: when move d lands on MAZE_WALL within the maze bounds,
      carve the cell between and recurse there. */
  method TryDirection(g: array2<Cell>, r: int, c: int, d: (int, int), rng: Source, ghost thin: bool)
    returns (rng': Source)
    requires InMazeBounds(r, c) && g.Length0 >= GridRows && g.Length1 >= GridColumns
    requires r % 2 == 1 && c % 2 == 1
    requires d in Directions && g[r, c] == MazePassage
    requires thin ==> NoThin(g)
    modifies g
    decreases MazeWalls(g), 1
    ensures MazeWalls(g) <= old(MazeWalls(g))
    ensures forall x, y :: InGrid(g, x, y) ==> Evolves(old(g[x, y]), g[x, y], x, y, thin)
    ensures thin ==> NoThin(g)
  {
    var (dr, dc) := d;
    var nr, nc := r + dr, c + dc;
    var wr, wc := r + dr / 2, c + dc / 2;
    rng' := rng;
    if 1 <= nr < GridRows - 1 && 1 <= nc < GridColumns - 1 {
      if g[nr, nc] == MazeWall {
        MidInBounds(r, c, d);
        if thin {
          MidMarker(g, r, c, d);
        }
        label Carve:
        MarkPassage(g, wr, wc);
        rng' := CarvePassages(g, nr, nc, rng', thin);
        forall x, y | InGrid(g, x, y)
          ensures Evolves(old(g[x, y]), g[x, y], x, y, thin)
        {
          assert Evolves(old@Carve(g[x, y]), g[x, y], x, y, thin) || (x, y) == (wr, wc);
        }
      }
    }
  }

  /** The cell a move jumps over lies within the maze bounds when both ends do. */
  lemma MidInBounds(r: int, c: int, d: (int, int))
    requires d in Directions && InMazeBounds(r, c) && InMazeBounds(r + d.0, c + d.1)
    ensures InMazeBounds(r + d.0 / 2, c + d.1 / 2)
  {
  }

  /** On a grid without thin named tiles, the cell between two marker cells
      two steps apart is itself a marker. */
  lemma MidMarker(g: array2<Cell>, r: int, c: int, d: (int, int))
    requires d in Directions && InMazeBounds(r, c) && InMazeBounds(r + d.0, c + d.1)
    requires g.Length0 >= GridRows && g.Length1 >= GridColumns && NoThin(g)
    requires g[r, c].IsMarker() && g[r + d.0, c + d.1].IsMarker()
    ensures g[r + d.0 / 2, c + d.1 / 2].IsMarker()
  {
    assert NotThinAt(g, r + d.0 / 2, c + d.1 / 2);
  }

  /** An odd row, odd column interior cell still holding MAZE_WALL: a
      candidate start for the backtracker. */
  ghost predicate IsWallStart(g: array2<Cell>, r: int, c: int)
    reads g
  {
    Interior(g.Length0, g.Length1, r, c) && r % 2 == 1 && c % 2 == 1 && g[r, c] == MazeWall
  }

  /** The wall_starts loop: odd rows, and in each odd columns, strictly
      inside the ring, keeping the MAZE_WALL cells. The result is exactly the
      candidate starts, in row-major order. */
  method CollectWallStarts(g: array2<Cell>) returns (starts: seq<(int, int)>)
    ensures forall p :: p in starts <==> IsWallStart(g, p.0, p.1)
    ensures RowMajorSorted(starts)
  {
    var rows, columns := g.Length0, g.Length1;
    starts := [];
    var r := 1;
    while r < rows - 1
      invariant 1 <= r && r % 2 == 1
      invariant forall p :: p in starts <==> IsWallStart(g, p.0, p.1) && p.0 < r
      invariant forall i :: 0 <= i < |starts| ==> starts[i].0 < r
      invariant RowMajorSorted(starts)
      decreases rows - r
    {
      var c := 1;
      while c < columns - 1
        invariant 1 <= c && c % 2 == 1
        invariant forall p :: p in starts <==> IsWallStart(g, p.0, p.1) && (p.0 < r || (p.0 == r && p.1 < c))
        invariant forall i :: 0 <= i < |starts| ==> RowMajorLess(starts[i], (r, c))
        invariant RowMajorSorted(starts)
        decreases columns - c
      {
        if g[r, c] == MazeWall {
          starts := starts + [(r, c)];
        }
        c := c + 2;
      }
      r := r + 2;
    }
  }

  /** The tile a MAZE_WALL cell becomes, from whether its north, south, west
      and east neighbours are open. */
  function WallTile(n: bool, s: bool, w: bool, e: bool): Cell {
    if (n || s) && !(w || e) then VerticalHallway
    else if (w || e) && !(n || s) then HorizontalHallway
    else OpenSpace
  }

  /** What the resolution pass leaves in a cell holding t, given the tiles its
      neighbours hold when it is visited: named tiles stay, MAZE_PASSAGE
      becomes open floor, MAZE_WALL becomes a hallway piece or open floor. */
  function Resolve(t: Cell, n: Cell, s: Cell, w: Cell, e: Cell): Cell {
    if t == MazePassage then OpenSpace
    else if t == MazeWall then
      WallTile(IsPassageOrRoom(n), IsPassageOrRoom(s), IsPassageOrRoom(w), IsPassageOrRoom(e))
    else t
  }

  /** The resolution rule case by case: a named tile is never touched, no
      marker survives, a passage becomes open floor, and a wall cell becomes a
      vertical hallway exactly when it is open only to the north or south, a
      horizontal one exactly when it is open only to the west or east, and
      open floor when both axes or neither are open. */
  lemma ResolveCases(t: Cell, n: Cell, s: Cell, w: Cell, e: Cell)
    ensures var r := Resolve(t, n, s, w, e);
      var ns := IsPassageOrRoom(n) || IsPassageOrRoom(s);
      var we := IsPassageOrRoom(w) || IsPassageOrRoom(e);
      && !r.IsMarker()
      && (!t.IsMarker() ==> r == t)
      && (t == MazePassage ==> r == OpenSpace)
      && (t == MazeWall ==> (r == VerticalHallway <==> ns && !we))
      && (t == MazeWall ==> (r == HorizontalHallway <==> we && !ns))
      && (t == MazeWall ==> (r == OpenSpace <==> ns == we))
  {
  }

  /** The rule is symmetric under swapping the axes: a wall cell seen with
      rows and columns exchanged resolves to the other hallway kind. */
  lemma WallTileTranspose(n: bool, s: bool, w: bool, e: bool)
    ensures WallTile(n, s, w, e) == VerticalHallway <==> WallTile(w, e, n, s) == HorizontalHallway
    ensures WallTile(n, s, w, e) == OpenSpace <==> WallTile(w, e, n, s) == OpenSpace
  {
  }

  /** What cell (x, y) holds after the resolution pass, as Resolve gives it
      with the north and west neighbours already resolved and the south and
      east neighbours not yet visited. */
  predicate ResolvedAt(before: Cell, after: Cell, n: Cell, s: Cell, w: Cell, e: Cell) {
    after == Resolve(before, n, s, w, e)
  }

  /** One visit of the conversion pass: the tile at (r, c) is resolved from
      its four neighbours as they stand, and no other cell changes. */
  method ResolveCell(g: array2<Cell>, r: int, c: int)
    requires 1 <= r < g.Length0 - 1 && 1 <= c < g.Length1 - 1
    modifies g
    ensures g[r, c] == Resolve(old(g[r, c]), g[r - 1, c], g[r + 1, c], g[r, c - 1], g[r, c + 1])
    ensures forall x, y :: InGrid(g, x, y) && (x, y) != (r, c) ==> g[x, y] == old(g[x, y])
  {
    var rows, columns := g.Length0, g.Length1;
    var tile := g[r, c];
    if tile == MazePassage {
      g[r, c] := OpenSpace;
    } else if tile == MazeWall {
      var hasN := r > 0 && IsPassageOrRoom(g[r - 1, c]);
      var hasS := r < rows - 1 && IsPassageOrRoom(g[r + 1, c]);
      var hasW := c > 0 && IsPassageOrRoom(g[r, c - 1]);
      var hasE := c < columns - 1 && IsPassageOrRoom(g[r, c + 1]);
      if (hasN || hasS) && !(hasW || hasE) {
        g[r, c] := VerticalHallway;
      } else if (hasW || hasE) && !(hasN || hasS) {
        g[r, c] := HorizontalHallway;
      } else {
        g[r, c] := OpenSpace;
      }
    }
  }

  /** The conversion loop of generate_hallways_in_remaining_space, in row-major
      order over the interior, in place. Every interior cell ends as Resolve
      gives it from its old tile, the final tiles of its north and west
      neighbours and the old tiles of its south and east neighbours; the ring
      is untouched and no interior marker is left. */
  method ResolveMarkers(g: array2<Cell>)
    modifies g
    ensures forall x, y :: InGrid(g, x, y) ==>
      if Interior(g.Length0, g.Length1, x, y)
      then ResolvedAt(old(g[x, y]), g[x, y], g[x - 1, y], old(g[x + 1, y]), g[x, y - 1], old(g[x, y + 1]))
      else g[x, y] == old(g[x, y])
  {
    var rows, columns := g.Length0, g.Length1;
    var r := 1;
    while r < rows - 1
      invariant 1 <= r
      invariant forall x, y :: InGrid(g, x, y) ==>
        if Interior(rows, columns, x, y) && x < r
        then ResolvedAt(old(g[x, y]), g[x, y], g[x - 1, y], old(g[x + 1, y]), g[x, y - 1], old(g[x, y + 1]))
        else g[x, y] == old(g[x, y])
      decreases rows - r
    {
      var c := 1;
      while c < columns - 1
        invariant 1 <= c
        invariant forall x, y :: InGrid(g, x, y) ==>
          if Interior(rows, columns, x, y) && (x < r || (x == r && y < c))
          then ResolvedAt(old(g[x, y]), g[x, y], g[x - 1, y], old(g[x + 1, y]), g[x, y - 1], old(g[x, y + 1]))
          else g[x, y] == old(g[x, y])
        decreases columns - c
      {
        assert InGrid(g, r, c) && InGrid(g, r + 1, c) && InGrid(g, r, c + 1);
        assert g[r, c] == old(g[r, c]) && g[r + 1, c] == old(g[r + 1, c]) && g[r, c + 1] == old(g[r, c + 1]);
        label Step:
        ResolveCell(g, r, c);
        forall x, y | InGrid(g, x, y)
          ensures if Interior(rows, columns, x, y) && (x < r || (x == r && y < c + 1))
            then ResolvedAt(old(g[x, y]), g[x, y], g[x - 1, y], old(g[x + 1, y]), g[x, y - 1], old(g[x, y + 1]))
            else g[x, y] == old(g[x, y])
        {
          if (x, y) != (r, c) {
            assert g[x, y] == old@Step(g[x, y]);
            if Interior(rows, columns, x, y) && (x < r || (x == r && y < c)) {
              assert g[x - 1, y] == old@Step(g[x - 1, y]) && g[x, y - 1] == old@Step(g[x, y - 1]);
            }
          }
        }
        c := c + 1;
      }
      r := r + 1;
    }
  }

  /** Step 1 of generate_hallways_in_remaining_space: collect the candidate
      starts and, when there is one, carve the maze from a randomly chosen
      candidate. (-1, -1) comes back exactly when there was no candidate;
      otherwise the start was a candidate and is now MAZE_PASSAGE. */
  method CarveFromRandomStart(g: array2<Cell>, rng: Source, ghost thin: bool)
    returns (startR: int, startC: int, rng': Source)
    requires g.Length0 == GridRows && g.Length1 == GridColumns
    requires thin ==> NoThin(g)
    modifies g
    ensures (startR, startC) == (-1, -1) ==> forall r, c :: !old(IsWallStart(g, r, c))
    ensures (startR, startC) != (-1, -1) ==> old(IsWallStart(g, startR, startC)) && g[startR, startC] == MazePassage
    ensures forall x, y :: InGrid(g, x, y) ==> Evolves(old(g[x, y]), g[x, y], x, y, thin)
  {
    var starts := CollectWallStarts(g);
    startR, startC, rng' := -1, -1, rng;
    if |starts| > 0 {
      var start;
      start, rng' := Choice(rng, starts);
      startR, startC := start.0, start.1;
      assert IsWallStart(g, startR, startC);
      rng' := CarvePassages(g, startR, startC, rng', thin);
    } else {
      forall r, c
        ensures !old(IsWallStart(g, r, c))
      {
        assert (r, c) !in starts;
      }
    }
  }

  /** A cell through both steps: whatever the backtracker did to it, the
      resolution pass leaves no marker, turns a passage into open floor, and
      keeps a named tile on a grid without thin named tiles. */
  lemma HallwayCell(before: Cell, mid: Cell, after: Cell, n: Cell, s: Cell, w: Cell, e: Cell,
                    x: int, y: int, thin: bool)
    requires Evolves(before, mid, x, y, thin)
    requires after == Resolve(mid, n, s, w, e)
    ensures !after.IsMarker()
    ensures before == MazePassage ==> after == OpenSpace
    ensures thin && !before.IsMarker() ==> after == before
    ensures !InMazeBounds(x, y) && !before.IsMarker() ==> after == before
  {
    ResolveCases(mid, n, s, w, e);
  }

  /** generate_hallways_in_remaining_space on a grid of the configured size:
      carve from a random candidate start, then resolve the markers. The
      returned start is (-1, -1) exactly when there was no candidate, and
      otherwise a candidate, which ends as open floor. The ring is untouched,
      no interior marker is left, a MAZE_PASSAGE cell (the connector's
      corridors) ends as open floor, and on a grid without thin named tiles
      no named tile changes. */
  method GenerateHallwaysInRemainingSpace(g: array2<Cell>, rng: Source)
    returns (startR: int, startC: int, rng': Source)
    requires g.Length0 == GridRows && g.Length1 == GridColumns
    modifies g
    ensures (startR, startC) == (-1, -1) ==> forall r, c :: !old(IsWallStart(g, r, c))
    ensures (startR, startC) != (-1, -1) ==> old(IsWallStart(g, startR, startC)) && g[startR, startC] == OpenSpace
    ensures forall x, y :: InGrid(g, x, y) && !Interior(g.Length0, g.Length1, x, y) ==> g[x, y] == old(g[x, y])
    ensures forall x, y :: Interior(g.Length0, g.Length1, x, y) ==> !g[x, y].IsMarker()
    ensures forall x, y :: Interior(g.Length0, g.Length1, x, y) && old(g[x, y]) == MazePassage ==> g[x, y] == OpenSpace
    ensures old(NoThin(g)) ==> forall x, y :: InGrid(g, x, y) && !old(g[x, y]).IsMarker() ==> g[x, y] == old(g[x, y])
  {
    ghost var thin := NoThin(g);
    startR, startC, rng' := CarveFromRandomStart(g, rng, thin);
    label Carved:
    ResolveMarkers(g);
    forall x, y | InGrid(g, x, y)
      ensures Interior(g.Length0, g.Length1, x, y) ==> !g[x, y].IsMarker()
      ensures Interior(g.Length0, g.Length1, x, y) && old(g[x, y]) == MazePassage ==> g[x, y] == OpenSpace
      ensures thin && !old(g[x, y]).IsMarker() ==> g[x, y] == old(g[x, y])
    {
      if Interior(g.Length0, g.Length1, x, y) {
        HallwayCell(old(g[x, y]), old@Carved(g[x, y]), g[x, y], g[x - 1, y], old@Carved(g[x + 1, y]),
                    g[x, y - 1], old@Carved(g[x, y + 1]), x, y, thin);
      }
    }
  }
}
