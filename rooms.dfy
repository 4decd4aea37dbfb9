/** Room carving: the small-room shell with its exits, the medium and large
    rooms' partition lines, and the large room's sub-room. Every carving
    ends by placing containers inside the room. */
module Rooms {
  import opened Common
  import opened Rng
  import opened Tiles
  import opened Grid
  import opened Loot
  import opened Scene

  /** The shell carve_small_room writes at (r, c) inside its rectangle: the
      corner branch, then the border branch, then open floor, each chain in
      the source's order. */
  function ShellTile(sr: int, sc: int, w: int, h: int, r: int, c: int): Cell {
    var er, ec := sr + h - 1, sc + w - 1;
    if (r == sr && c == sc) || (r == sr && c == ec) || (r == er && c == sc) || (r == er && c == ec) then
      if r == sr && c == sc then TopLeftCorner
      else if r == sr && c == ec then TopRightCorner
      else if r == er && c == sc then BottomLeftCorner
      else BottomRightCorner
    else if r == sr || r == er || c == sc || c == ec then
      if r == sr then TopWall
      else if r == er then BottomWall
      else if c == sc then LeftWall
      else RightWall
    else OpenSpace
  }

  /** A border cell that is not a corner: the exit candidates. */
  predicate EdgeCell(sr: int, sc: int, w: int, h: int, p: (int, int)) {
    var er, ec := sr + h - 1, sc + w - 1;
    ((p.0 == sr || p.0 == er) && sc < p.1 < ec) || ((p.1 == sc || p.1 == ec) && sr < p.0 < er)
  }

  /** The number of exit candidates of a w x h room. */
  function EdgeCount(w: int, h: int): nat {
    2 * Max(w - 2, 0) + 2 * Max(h - 2, 0)
  }

  /** The i-th exit candidate in the order the source lists them: top and
      bottom cell of each inner column, then left and right cell of each
      inner row. */
  function EdgeAt(sr: int, sc: int, w: int, h: int, i: nat): (int, int) {
    var er, ec := sr + h - 1, sc + w - 1;
    var n := 2 * Max(w - 2, 0);
    if i < n then (if i % 2 == 0 then sr else er, sc + 1 + i / 2)
    else (sr + 1 + (i - n) / 2, if (i - n) % 2 == 0 then sc else ec)
  }

  /** Which cells the exit-candidate list holds, and that in a room at least
      two cells wide and tall it holds each once. */
  lemma EdgeAtSpec(sr: int, sc: int, w: int, h: int)
    ensures forall i :: 0 <= i < EdgeCount(w, h) ==> EdgeCell(sr, sc, w, h, EdgeAt(sr, sc, w, h, i))
    ensures forall p :: EdgeCell(sr, sc, w, h, p) ==> exists i :: 0 <= i < EdgeCount(w, h) && EdgeAt(sr, sc, w, h, i) == p
    ensures w >= 2 && h >= 2 ==> forall i, j :: 0 <= i < j < EdgeCount(w, h) ==> EdgeAt(sr, sc, w, h, i) != EdgeAt(sr, sc, w, h, j)
  {
    var er, ec := sr + h - 1, sc + w - 1;
    var n := 2 * Max(w - 2, 0);
    forall p | EdgeCell(sr, sc, w, h, p)
      ensures exists i :: 0 <= i < EdgeCount(w, h) && EdgeAt(sr, sc, w, h, i) == p
    {
      if (p.0 == sr || p.0 == er) && sc < p.1 < ec {
        var i := 2 * (p.1 - sc - 1) + (if p.0 == sr then 0 else 1);
        assert EdgeAt(sr, sc, w, h, i) == p;
      } else {
        var i := n + 2 * (p.0 - sr - 1) + (if p.1 == sc then 0 else 1);
        assert EdgeAt(sr, sc, w, h, i) == p;
      }
    }
  }

  /** The exit-candidate list of carve_small_room. */
  method WallTiles(sr: int, sc: int, w: int, h: int) returns (tiles: seq<(int, int)>)
    ensures |tiles| == EdgeCount(w, h)
    ensures forall i :: 0 <= i < |tiles| ==> tiles[i] == EdgeAt(sr, sc, w, h, i)
  {
    var er, ec := sr + h - 1, sc + w - 1;
    tiles := [];
    var c := sc + 1;
    while c < ec
      invariant sc + 1 <= c <= Max(ec, sc + 1)
      invariant |tiles| == 2 * (c - sc - 1)
      invariant forall i :: 0 <= i < |tiles| ==> tiles[i] == EdgeAt(sr, sc, w, h, i)
      decreases ec - c
    {
      tiles := tiles + [(sr, c), (er, c)];
      c := c + 1;
    }
    assert |tiles| == 2 * Max(w - 2, 0);
    var r := sr + 1;
    while r < er
      invariant sr + 1 <= r <= Max(er, sr + 1)
      invariant |tiles| == 2 * Max(w - 2, 0) + 2 * (r - sr - 1)
      invariant forall i :: 0 <= i < |tiles| ==> tiles[i] == EdgeAt(sr, sc, w, h, i)
      decreases er - r
    {
      tiles := tiles + [(r, sc), (r, ec)];
      r := r + 1;
    }
  }

  /** The perimeter loop of carve_small_room: the whole rectangle becomes the
      shell. */
  method CarveShell(g: array2<Cell>, sr: int, sc: int, w: int, h: int)
    requires RectInGrid(g, sr, sc, w, h)
    modifies g
    ensures forall r, c :: InGrid(g, r, c) ==>
      g[r, c] == if InRect(sr, sc, w, h, r, c) then ShellTile(sr, sc, w, h, r, c) else old(g[r, c])
  {
    var r := sr;
    while r < sr + h
      invariant sr <= r && (r <= sr + h || h < 0)
      invariant forall r', c' :: InGrid(g, r', c') ==>
        g[r', c'] == if InRect(sr, sc, w, h, r', c') && r' < r then ShellTile(sr, sc, w, h, r', c') else old(g[r', c'])
      decreases sr + h - r
    {
      var c := sc;
      while c < sc + w
        invariant sc <= c && (c <= sc + w || w < 0)
        invariant forall r', c' :: InGrid(g, r', c') ==>
          g[r', c'] == if InRect(sr, sc, w, h, r', c') && (r' < r || (r' == r && c' < c))
                       then ShellTile(sr, sc, w, h, r', c') else old(g[r', c'])
        decreases sc + w - c
      {
        g[r, c] := ShellTile(sr, sc, w, h, r, c);
        c := c + 1;
      }
      r := r + 1;
    }
  }

  /** The exit loop of carve_small_room: the first exits_required cells of the
      shuffled candidates (all of them if there are fewer) become open floor. */
  method OpenExits(g: array2<Cell>, tiles: seq<(int, int)>, exitsRequired: int) returns (exits: seq<(int, int)>)
    requires AllInGrid(g, tiles)
    modifies g
    ensures exits == tiles[..Min(Max(exitsRequired, 0), |tiles|)]
    ensures forall r, c :: InGrid(g, r, c) ==> g[r, c] == if (r, c) in exits then OpenSpace else old(g[r, c])
  {
    var placed := 0;
    while placed < |tiles| && placed < exitsRequired
      invariant 0 <= placed <= |tiles| && placed <= Max(exitsRequired, 0)
      invariant forall r, c :: InGrid(g, r, c) ==> g[r, c] == if (r, c) in tiles[..placed] then OpenSpace else old(g[r, c])
    {
      var (r, c) := tiles[placed];
      assert tiles[..placed + 1] == tiles[..placed] + [(r, c)];
      g[r, c] := OpenSpace;
      placed := placed + 1;
    }
    exits := tiles[..placed];
  }

  /** The tile of a cell after the shell and the exits, over the tile t it had. */
  function CarvedTile(sr: int, sc: int, w: int, h: int, exits: seq<(int, int)>, p: (int, int), t: Cell): Cell {
    if InRect(sr, sc, w, h, p.0, p.1) then (if p in exits then OpenSpace else ShellTile(sr, sc, w, h, p.0, p.1))
    else t
  }

  /** The tile of a cell after a room is carved over the tile t it had: the
      shell and exits, then the partition lines, then the sub-room, then every
      container the room's placements wrote. A small room has no lines and no
      sub-room; a medium room has no sub-room. */
  function RoomTile(sr: int, sc: int, w: int, h: int, exits: seq<(int, int)>, lines: seq<Line>,
                    sub: Option<SubRoom>, added: seq<LootRecord>, p: (int, int), t: Cell): Cell {
    Stamp(added, p, SubTile(sub, p, PartitionTile(lines, sr, sc, w, h, p, CarvedTile(sr, sc, w, h, exits, p, t))))
  }

  /** What carve_small_room promises of its exits: distinct border cells that
      are not corners, as many as required or as the border offers. */
  ghost predicate ExitsOf(sr: int, sc: int, w: int, h: int, exitsRequired: int, exits: seq<(int, int)>) {
    && |exits| == Min(Max(exitsRequired, 0), EdgeCount(w, h))
    && (forall i :: 0 <= i < |exits| ==> EdgeCell(sr, sc, w, h, exits[i]))
    && Distinct(exits)
  }

  /** What a room's container placement promises of its entries: each an
      in-room container of the room's interior with the loot its kind
      promises, one entry per cell, no stray chest. */
  ghost predicate EntriesIn(sr: int, sc: int, w: int, h: int, added: seq<LootRecord>) {
    && AllLoot(added) && Distinct(Cells(added))
    && forall i :: 0 <= i < |added| ==> !added[i].stray && InRectInterior(sr, sc, w, h, added[i].row, added[i].column)
  }

  /** The interior of a freshly carved shell is open floor; exits lie on the border. */
  lemma CarvedInterior(sr: int, sc: int, w: int, h: int, exitsRequired: int, exits: seq<(int, int)>,
                       p: (int, int), t: Cell)
    requires ExitsOf(sr, sc, w, h, exitsRequired, exits)
    ensures InRectInterior(sr, sc, w, h, p.0, p.1) ==> CarvedTile(sr, sc, w, h, exits, p, t) == OpenSpace
  {
    if InRectInterior(sr, sc, w, h, p.0, p.1) {
      assert forall i :: 0 <= i < |exits| ==> exits[i] != p;
    }
  }

  /** The perimeter and exit steps of carve_small_room: afterwards the
      rectangle is the shell with its exits opened, and its interior is open
      floor. */
  method CarveWalls(g: array2<Cell>, sr: int, sc: int, w: int, h: int, exitsRequired: int, rng: Source)
    returns (exits: seq<(int, int)>, rng': Source)
    requires RectInGrid(g, sr, sc, w, h) && w >= 2 && h >= 2
    modifies g
    ensures ExitsOf(sr, sc, w, h, exitsRequired, exits)
    ensures forall r, c :: InGrid(g, r, c) ==> g[r, c] == CarvedTile(sr, sc, w, h, exits, (r, c), old(g[r, c]))
  {
    CarveShell(g, sr, sc, w, h);
    var pool := WallTiles(sr, sc, w, h);
    var tiles;
    tiles, rng' := Shuffle(rng, pool);
    EdgeAtSpec(sr, sc, w, h);
    assert forall i :: 0 <= i < |tiles| ==> EdgeCell(sr, sc, w, h, tiles[i]) by {
      forall i | 0 <= i < |tiles| ensures EdgeCell(sr, sc, w, h, tiles[i]) {
        assert tiles[i] in pool;
      }
    }
    assert Distinct(pool);
    DistinctPermutation(pool, tiles);
    exits := OpenExits(g, tiles, exitsRequired);
  }

  /** carve_small_room: the shell over the whole rectangle, then the exits on
      shuffled border cells, then a "Small" container placement. */
  method CarveSmallRoom(g: array2<Cell>, sr: int, sc: int, w: int, h: int, exitsRequired: int,
                        im: InventoryManager, rng: Source)
    returns (added: seq<LootRecord>, rng': Source, exits: seq<(int, int)>)
    requires RectInGrid(g, sr, sc, w, h) && w >= 2 && h >= 2
    modifies g
    ensures ExitsOf(sr, sc, w, h, exitsRequired, exits)
    ensures EntriesIn(sr, sc, w, h, added) && CountKind(added, Chest) == 0
    ensures CountKind(added, Barrel) <= 4 && CountKind(added, Crate) <= 4
    ensures |added| == CountKind(added, Barrel) + CountKind(added, Crate)
    ensures CountKind(added, Barrel) == 0 || CountKind(added, Crate) == 0 ==>
      forall r, c :: InRectInterior(sr, sc, w, h, r, c) ==> (r, c) in Cells(added)
    ensures forall r, c :: InGrid(g, r, c) ==>
      g[r, c] == Stamp(added, (r, c), CarvedTile(sr, sc, w, h, exits, (r, c), old(g[r, c])))
    ensures ManifestHolds(g, added)
    ensures w == 2 || h == 2 ==> added == []
  {
    exits, rng' := CarveWalls(g, sr, sc, w, h, exitsRequired, rng);
    forall r, c | InRectInterior(sr, sc, w, h, r, c)
      ensures g[r, c] == OpenSpace
    {
      CarvedInterior(sr, sc, w, h, exitsRequired, exits, (r, c), old(g[r, c]));
    }
    added, rng' := PlaceContainersInRoom(g, sr, sc, w, h, Small, im, rng');
  }

  /** An interior wall of a medium or large room: a row drawn as a horizontal
      hallway or a column drawn as a vertical one. */
  datatype Line = Row(row: int) | Column(column: int)

  function HallwayOf(l: Line): Cell {
    if l.Row? then HorizontalHallway else VerticalHallway
  }

  /** The line crosses the room's interior at p. */
  predicate Covers(l: Line, sr: int, sc: int, w: int, h: int, p: (int, int)) {
    InRectInterior(sr, sc, w, h, p.0, p.1) && (if l.Row? then p.0 == l.row else p.1 == l.column)
  }

  /** The line's row or column is one of the interior's. */
  predicate LineInside(l: Line, sr: int, sc: int, w: int, h: int) {
    if l.Row? then sr < l.row < sr + h - 1 else sc < l.column < sc + w - 1
  }

  /** Interior walls are drawn only when the interior is at least 2 x 2. */
  predicate HasPartitions(w: int, h: int) {
    w - 2 >= 2 && h - 2 >= 2
  }

  /** One line drawn over the tile t at p: open floor it crosses becomes
      hallway, anything else stays. */
  function DrawnTile(l: Line, sr: int, sc: int, w: int, h: int, p: (int, int), t: Cell): Cell {
    if t == OpenSpace && Covers(l, sr, sc, w, h, p) then HallwayOf(l) else t
  }

  /** The lines drawn in order over the tile t at p. */
  function PartitionTile(lines: seq<Line>, sr: int, sc: int, w: int, h: int, p: (int, int), t: Cell): Cell {
    if |lines| == 0 then t
    else DrawnTile(lines[|lines| - 1], sr, sc, w, h, p, PartitionTile(lines[..|lines| - 1], sr, sc, w, h, p, t))
  }

  /** Line i is the first of lines to cross p, and u is its hallway. */
  ghost predicate FirstCover(lines: seq<Line>, sr: int, sc: int, w: int, h: int, p: (int, int), u: Cell) {
    exists i :: 0 <= i < |lines| && Covers(lines[i], sr, sc, w, h, p) && u == HallwayOf(lines[i]) &&
      forall j :: 0 <= j < i ==> !Covers(lines[j], sr, sc, w, h, p)
  }

  /** What the partition loop does to a cell: a tile other than open floor is
      kept; open floor no line crosses stays open; open floor some line
      crosses becomes the hallway of the first line to cross it. */
  lemma {:induction false} PartitionEffect(lines: seq<Line>, sr: int, sc: int, w: int, h: int, p: (int, int), t: Cell)
    ensures t != OpenSpace ==> PartitionTile(lines, sr, sc, w, h, p, t) == t
    ensures t == OpenSpace && (forall i :: 0 <= i < |lines| ==> !Covers(lines[i], sr, sc, w, h, p)) ==>
      PartitionTile(lines, sr, sc, w, h, p, t) == OpenSpace
    ensures t == OpenSpace && (exists i :: 0 <= i < |lines| && Covers(lines[i], sr, sc, w, h, p)) ==>
      FirstCover(lines, sr, sc, w, h, p, PartitionTile(lines, sr, sc, w, h, p, t))
  {
    if |lines| > 0 {
      var n := |lines| - 1;
      var prefix := lines[..n];
      PartitionEffect(prefix, sr, sc, w, h, p, t);
      var u := PartitionTile(prefix, sr, sc, w, h, p, t);
      assert forall j :: 0 <= j < n ==> prefix[j] == lines[j];
      if t == OpenSpace {
        if exists i :: 0 <= i < n && Covers(prefix[i], sr, sc, w, h, p) {
          var i :| 0 <= i < n && Covers(prefix[i], sr, sc, w, h, p) && u == HallwayOf(prefix[i]) &&
            forall j :: 0 <= j < i ==> !Covers(prefix[j], sr, sc, w, h, p);
          assert PartitionTile(lines, sr, sc, w, h, p, t) == u;
          assert Covers(lines[i], sr, sc, w, h, p);
        } else if Covers(lines[n], sr, sc, w, h, p) {
          assert Covers(lines[n], sr, sc, w, h, p) && PartitionTile(lines, sr, sc, w, h, p, t) == HallwayOf(lines[n]);
        }
      }
    }
  }

  /** One wall line of carve_medium_room / carve_large_room: along the
      interior span of its row or column, open floor becomes hallway. */
  method DrawLine(g: array2<Cell>, l: Line, sr: int, sc: int, w: int, h: int)
    requires RectInGrid(g, sr, sc, w, h) && LineInside(l, sr, sc, w, h)
    modifies g
    ensures forall r, c :: InGrid(g, r, c) ==> g[r, c] == DrawnTile(l, sr, sc, w, h, (r, c), old(g[r, c]))
  {
    match l
    case Row(wallR) =>
      var c := sc + 1;
      while c < sc + w - 1
        invariant sc + 1 <= c <= Max(sc + w - 1, sc + 1)
        invariant forall r', c' :: InGrid(g, r', c') ==>
          g[r', c'] == if c' < c then DrawnTile(l, sr, sc, w, h, (r', c'), old(g[r', c'])) else old(g[r', c'])
      {
        if g[wallR, c] == OpenSpace {
          g[wallR, c] := HorizontalHallway;
        }
        c := c + 1;
      }
    case Column(wallC) =>
      var r := sr + 1;
      while r < sr + h - 1
        invariant sr + 1 <= r <= Max(sr + h - 1, sr + 1)
        invariant forall r', c' :: InGrid(g, r', c') ==>
          g[r', c'] == if r' < r then DrawnTile(l, sr, sc, w, h, (r', c'), old(g[r', c'])) else old(g[r', c'])
      {
        if g[r, wallC] == OpenSpace {
          g[r, wallC] := VerticalHallway;
        }
        r := r + 1;
      }
  }

  /** The interior wall loop shared by carve_medium_room and carve_large_room:
      when the interior is at least 2 x 2, one to three lines, each a row or a
      column drawn at random; otherwise nothing, and no draw. */
  method CarvePartitions(g: array2<Cell>, sr: int, sc: int, w: int, h: int, rng: Source)
    returns (lines: seq<Line>, rng': Source)
    requires RectInGrid(g, sr, sc, w, h)
    modifies g
    ensures HasPartitions(w, h) ==> 1 <= |lines| <= 3
    ensures !HasPartitions(w, h) ==> lines == [] && rng' == rng
    ensures forall i :: 0 <= i < |lines| ==> LineInside(lines[i], sr, sc, w, h)
    ensures forall r, c :: InGrid(g, r, c) ==> g[r, c] == PartitionTile(lines, sr, sc, w, h, (r, c), old(g[r, c]))
  {
    lines, rng' := [], rng;
    if HasPartitions(w, h) {
      var n;
      n, rng' := RandInt(rng', 1, 3);
      while |lines| < n
        invariant |lines| <= n
        invariant forall i :: 0 <= i < |lines| ==> LineInside(lines[i], sr, sc, w, h)
        invariant forall r, c :: InGrid(g, r, c) ==> g[r, c] == PartitionTile(lines, sr, sc, w, h, (r, c), old(g[r, c]))
      {
        var horizontal, l;
        horizontal, rng' := Choice(rng', [true, false]);
        if horizontal {
          var wallR;
          wallR, rng' := RandInt(rng', sr + 1, sr + h - 2);
          l := Row(wallR);
        } else {
          var wallC;
          wallC, rng' := RandInt(rng', sc + 1, sc + w - 2);
          l := Column(wallC);
        }
        DrawLine(g, l, sr, sc, w, h);
        assert (lines + [l])[..|lines|] == lines;
        lines := lines + [l];
      }
    }
  }

  /** ROOM_DIMENSIONS_SMALL, ROOM_DIMENSIONS_MEDIUM, ROOM_DIMENSIONS_LARGE:
      (width, height) in tiles. */
  const SmallDims: seq<(int, int)> := [(2, 2), (2, 3), (3, 2)]
  const MediumDims: seq<(int, int)> := [(2, 4), (4, 2), (3, 4), (4, 3), (4, 4)]
  const LargeDims: seq<(int, int)> := [(3, 7), (7, 3), (4, 6), (6, 4), (5, 5), (5, 6), (6, 5), (6, 6)]

  /** A large room's sub-room: where it went, its size and its exits. */
  datatype SubRoom = SubRoom(row: int, column: int, width: int, height: int, exits: seq<(int, int)>)

  /** The sub-room's shell and exits over the tile t, where there is one. */
  function SubTile(sub: Option<SubRoom>, p: (int, int), t: Cell): Cell {
    match sub
    case None => t
    case Some(s) => CarvedTile(s.row, s.column, s.width, s.height, s.exits, p, t)
  }

  /** The start cells the sub-room search lists for a sw x sh sub-room: its
      whole footprint inside the room's interior. */
  predicate SubStart(sr: int, sc: int, w: int, h: int, sw: int, sh: int, r: int, c: int) {
    sr + 1 <= r < sr + h - sh && sc + 1 <= c < sc + w - sw
  }

  /** The start list keeps every cell it visits. */
  predicate AnyTile(t: Cell) {
    true
  }

  /** The first candidate whose sw x sh footprint is all open floor, or
      |cands| when there is none. */
  method FindSubStart(g: array2<Cell>, cands: seq<(int, int)>, sw: int, sh: int) returns (k: nat)
    requires forall i :: 0 <= i < |cands| ==> RectInGrid(g, cands[i].0, cands[i].1, sw, sh)
    ensures k <= |cands|
    ensures k < |cands| ==> Uniform(g, cands[k].0, cands[k].1, sw, sh, OpenSpace)
    ensures forall j :: 0 <= j < k ==> !Uniform(g, cands[j].0, cands[j].1, sw, sh, OpenSpace)
  {
    k := 0;
    while k < |cands|
      invariant k <= |cands|
      invariant forall j :: 0 <= j < k ==> !Uniform(g, cands[j].0, cands[j].1, sw, sh, OpenSpace)
    {
      var clear := AllTiles(g, cands[k].0, cands[k].1, sw, sh, OpenSpace);
      if clear {
        return;
      }
      k := k + 1;
    }
  }

  /** The sub-room step of carve_large_room: draw a small size, list the
      interior starts where it fits, shuffle them, and carve a small room with
      one exit at the first whose footprint is all open floor. Every small
      size is two tiles wide or tall, so the sub-room has no interior and
      receives no container. */
  method CarveSubRoom(g: array2<Cell>, sr: int, sc: int, w: int, h: int, im: InventoryManager, rng: Source)
    returns (sub: Option<SubRoom>, added: seq<LootRecord>, rng': Source)
    requires RectInGrid(g, sr, sc, w, h)
    modifies g
    ensures var (sw, sh) := SmallDims[rng.Raw() % |SmallDims|];
      && (sub.None? ==> forall r, c :: SubStart(sr, sc, w, h, sw, sh, r, c) ==> !old(Uniform(g, r, c, sw, sh, OpenSpace)))
      && (sub.Some? ==>
            && sub.value.width == sw && sub.value.height == sh
            && SubStart(sr, sc, w, h, sw, sh, sub.value.row, sub.value.column)
            && old(Uniform(g, sub.value.row, sub.value.column, sw, sh, OpenSpace))
            && ExitsOf(sub.value.row, sub.value.column, sw, sh, 1, sub.value.exits))
    ensures added == []
    ensures forall r, c :: InGrid(g, r, c) ==> g[r, c] == SubTile(sub, (r, c), old(g[r, c]))
  {
    var dims;
    dims, rng' := Choice(rng, SmallDims);
    var (sw, sh) := dims;
    var starts := ScanGrid(g, sr + 1, sr + h - sh, sc + 1, sc + w - sw, AnyTile);
    var cands;
    cands, rng' := Shuffle(rng', starts);
    assert forall i :: 0 <= i < |cands| ==> SubStart(sr, sc, w, h, sw, sh, cands[i].0, cands[i].1) by {
      forall i | 0 <= i < |cands| ensures SubStart(sr, sc, w, h, sw, sh, cands[i].0, cands[i].1) {
        assert cands[i] in starts;
      }
    }
    var k := FindSubStart(g, cands, sw, sh);
    if k == |cands| {
      sub, added := None, [];
      forall r, c | SubStart(sr, sc, w, h, sw, sh, r, c)
        ensures !Uniform(g, r, c, sw, sh, OpenSpace)
      {
        assert (r, c) in starts;
        assert (r, c) in cands;
      }
    } else {
      var (subR, subC) := cands[k];
      var exits;
      added, rng', exits := CarveSmallRoom(g, subR, subC, sw, sh, 1, im, rng');
      sub := Some(SubRoom(subR, subC, sw, sh, exits));
    }
  }

  /** Containers sit on cells the lines cannot touch, so drawing the lines
      after the containers is drawing them before. */
  lemma StampPartition(rs: seq<LootRecord>, lines: seq<Line>, sr: int, sc: int, w: int, h: int, p: (int, int), t: Cell)
    ensures PartitionTile(lines, sr, sc, w, h, p, Stamp(rs, p, t)) == Stamp(rs, p, PartitionTile(lines, sr, sc, w, h, p, t))
  {
    if p in Cells(rs) {
      StampCovered(rs, p, t, PartitionTile(lines, sr, sc, w, h, p, t));
      PartitionEffect(lines, sr, sc, w, h, p, Stamp(rs, p, t));
    } else {
      StampMiss(rs, p, t);
      StampMiss(rs, p, PartitionTile(lines, sr, sc, w, h, p, t));
    }
  }

  /** The cells of the sub-room's footprint. */
  predicate InSub(sub: Option<SubRoom>, p: (int, int)) {
    sub.Some? && InRect(sub.value.row, sub.value.column, sub.value.width, sub.value.height, p.0, p.1)
  }

  /** Containers outside the sub-room's footprint commute with carving it. */
  lemma StampSub(rs: seq<LootRecord>, sub: Option<SubRoom>, p: (int, int), t: Cell)
    requires p in Cells(rs) ==> !InSub(sub, p)
    ensures SubTile(sub, p, Stamp(rs, p, t)) == Stamp(rs, p, SubTile(sub, p, t))
  {
    if p !in Cells(rs) {
      StampMiss(rs, p, t);
      StampMiss(rs, p, SubTile(sub, p, t));
    }
  }

  /** The first two steps carve_medium_room and carve_large_room share: a
      small room, then the interior walls over it. The small room's
      containers survive the walls. */
  method CarveDividedRoom(g: array2<Cell>, sr: int, sc: int, w: int, h: int, exitsRequired: int,
                          im: InventoryManager, rng: Source)
    returns (first: seq<LootRecord>, rng': Source, exits: seq<(int, int)>, lines: seq<Line>)
    requires RectInGrid(g, sr, sc, w, h) && w >= 2 && h >= 2
    modifies g
    ensures ExitsOf(sr, sc, w, h, exitsRequired, exits)
    ensures (HasPartitions(w, h) ==> 1 <= |lines| <= 3) && (!HasPartitions(w, h) ==> lines == [])
    ensures forall i :: 0 <= i < |lines| ==> LineInside(lines[i], sr, sc, w, h)
    ensures EntriesIn(sr, sc, w, h, first) && CountKind(first, Chest) == 0
    ensures ManifestHolds(g, first)
    ensures forall r, c :: InGrid(g, r, c) ==>
      g[r, c] == RoomTile(sr, sc, w, h, exits, lines, None, first, (r, c), old(g[r, c]))
  {
    first, rng', exits := CarveSmallRoom(g, sr, sc, w, h, exitsRequired, im, rng);
    label Carved:
    lines, rng' := CarvePartitions(g, sr, sc, w, h, rng');
    forall i | 0 <= i < |first|
      ensures g[first[i].row, first[i].column] == KindTile(first[i].kind)
    {
      PartitionEffect(lines, sr, sc, w, h, first[i].Pos(), old@Carved(g[first[i].row, first[i].column]));
    }
    forall r, c | InGrid(g, r, c)
      ensures g[r, c] == RoomTile(sr, sc, w, h, exits, lines, None, first, (r, c), old(g[r, c]))
    {
      StampPartition(first, lines, sr, sc, w, h, (r, c), CarvedTile(sr, sc, w, h, exits, (r, c), old(g[r, c])));
    }
  }

  /** carve_medium_room: a small room, then the interior walls, then a second
      "Medium" container placement on the open floor the walls left. */
  method CarveMediumRoom(g: array2<Cell>, sr: int, sc: int, w: int, h: int, exitsRequired: int,
                         im: InventoryManager, rng: Source)
    returns (added: seq<LootRecord>, rng': Source, exits: seq<(int, int)>, lines: seq<Line>)
    requires RectInGrid(g, sr, sc, w, h) && w >= 2 && h >= 2
    modifies g
    ensures ExitsOf(sr, sc, w, h, exitsRequired, exits)
    ensures (HasPartitions(w, h) ==> 1 <= |lines| <= 3) && (!HasPartitions(w, h) ==> lines == [])
    ensures forall i :: 0 <= i < |lines| ==> LineInside(lines[i], sr, sc, w, h)
    ensures EntriesIn(sr, sc, w, h, added) && CountKind(added, Chest) == 0
    ensures ManifestHolds(g, added)
    ensures forall r, c :: InGrid(g, r, c) ==>
      g[r, c] == RoomTile(sr, sc, w, h, exits, lines, None, added, (r, c), old(g[r, c]))
  {
    var first, second;
    first, rng', exits, lines := CarveDividedRoom(g, sr, sc, w, h, exitsRequired, im, rng);
    label Drawn:
    second, rng' := PlaceContainersInRoom(g, sr, sc, w, h, Medium, im, rng');
    added := first + second;
    forall i, j | 0 <= i < |first| && 0 <= j < |second|
      ensures first[i].Pos() != second[j].Pos()
    {
      assert old@Drawn(g[first[i].row, first[i].column]) == KindTile(first[i].kind);
    }
    forall i | 0 <= i < |first|
      ensures g[first[i].row, first[i].column] == KindTile(first[i].kind)
    {
      assert first[i].Pos() !in Cells(second);
    }
    ManifestJoin(g, first, second);
    forall r, c | InGrid(g, r, c)
      ensures g[r, c] == RoomTile(sr, sc, w, h, exits, lines, None, added, (r, c), old(g[r, c]))
    {
      var t := CarvedTile(sr, sc, w, h, exits, (r, c), old(g[r, c]));
      StampConcat(first, second, (r, c), PartitionTile(lines, sr, sc, w, h, (r, c), t));
    }
    CountConcat(first, second, Chest);
  }

  /** The sub-room lies inside the room's interior. */
  predicate SubInside(sub: Option<SubRoom>, sr: int, sc: int, w: int, h: int) {
    sub.Some? ==>
      && sr < sub.value.row && sub.value.row + sub.value.height <= sr + h - 1
      && sc < sub.value.column && sub.value.column + sub.value.width <= sc + w - 1
  }

  /** The first three steps of carve_large_room: a divided room, then a
      sub-room where one fits. The sub-room is carved on open floor only, so
      the containers already placed survive it. */
  method CarveNestedRoom(g: array2<Cell>, sr: int, sc: int, w: int, h: int, exitsRequired: int,
                         im: InventoryManager, rng: Source)
    returns (kept: seq<LootRecord>, rng': Source, exits: seq<(int, int)>, lines: seq<Line>, sub: Option<SubRoom>)
    requires RectInGrid(g, sr, sc, w, h) && w >= 2 && h >= 2
    modifies g
    ensures ExitsOf(sr, sc, w, h, exitsRequired, exits)
    ensures (HasPartitions(w, h) ==> 1 <= |lines| <= 3) && (!HasPartitions(w, h) ==> lines == [])
    ensures forall i :: 0 <= i < |lines| ==> LineInside(lines[i], sr, sc, w, h)
    ensures SubInside(sub, sr, sc, w, h)
    ensures sub.Some? ==> ExitsOf(sub.value.row, sub.value.column, sub.value.width, sub.value.height, 1, sub.value.exits)
    ensures EntriesIn(sr, sc, w, h, kept) && CountKind(kept, Chest) == 0
    ensures ManifestHolds(g, kept)
    ensures forall r, c :: InGrid(g, r, c) ==>
      g[r, c] == RoomTile(sr, sc, w, h, exits, lines, sub, kept, (r, c), old(g[r, c]))
  {
    var first, subAdded;
    first, rng', exits, lines := CarveDividedRoom(g, sr, sc, w, h, exitsRequired, im, rng);
    label Drawn:
    sub, subAdded, rng' := CarveSubRoom(g, sr, sc, w, h, im, rng');
    kept := first + subAdded;
    assert kept == first;
    forall i | 0 <= i < |first|
      ensures !InSub(sub, first[i].Pos())
      ensures g[first[i].row, first[i].column] == KindTile(first[i].kind)
    {
      assert old@Drawn(g[first[i].row, first[i].column]) != OpenSpace;
    }
    forall r, c | InGrid(g, r, c)
      ensures g[r, c] == RoomTile(sr, sc, w, h, exits, lines, sub, kept, (r, c), old(g[r, c]))
    {
      var u := PartitionTile(lines, sr, sc, w, h, (r, c), CarvedTile(sr, sc, w, h, exits, (r, c), old(g[r, c])));
      if (r, c) in Cells(first) {
        var i :| 0 <= i < |first| && Cells(first)[i] == (r, c);
        assert !InSub(sub, first[i].Pos());
      }
      StampSub(first, sub, (r, c), u);
    }
  }

  /** carve_large_room: a small room, the interior walls, a sub-room where
      one fits, then a "Large" container placement on the open floor left. */
  method CarveLargeRoom(g: array2<Cell>, sr: int, sc: int, w: int, h: int, exitsRequired: int,
                        im: InventoryManager, rng: Source)
    returns (added: seq<LootRecord>, rng': Source, exits: seq<(int, int)>, lines: seq<Line>, sub: Option<SubRoom>)
    requires RectInGrid(g, sr, sc, w, h) && w >= 2 && h >= 2
    modifies g
    ensures ExitsOf(sr, sc, w, h, exitsRequired, exits)
    ensures (HasPartitions(w, h) ==> 1 <= |lines| <= 3) && (!HasPartitions(w, h) ==> lines == [])
    ensures forall i :: 0 <= i < |lines| ==> LineInside(lines[i], sr, sc, w, h)
    ensures SubInside(sub, sr, sc, w, h)
    ensures sub.Some? ==> ExitsOf(sub.value.row, sub.value.column, sub.value.width, sub.value.height, 1, sub.value.exits)
    ensures EntriesIn(sr, sc, w, h, added) && CountKind(added, Chest) <= 1
    ensures ManifestHolds(g, added)
    ensures forall r, c :: InGrid(g, r, c) ==>
      g[r, c] == RoomTile(sr, sc, w, h, exits, lines, sub, added, (r, c), old(g[r, c]))
  {
    var kept, third;
    kept, rng', exits, lines, sub := CarveNestedRoom(g, sr, sc, w, h, exitsRequired, im, rng);
    label Nested:
    third, rng' := PlaceContainersInRoom(g, sr, sc, w, h, Large, im, rng');
    added := kept + third;
    forall i, j | 0 <= i < |kept| && 0 <= j < |third|
      ensures kept[i].Pos() != third[j].Pos()
    {
      assert old@Nested(g[kept[i].row, kept[i].column]) == KindTile(kept[i].kind);
    }
    forall i | 0 <= i < |kept|
      ensures g[kept[i].row, kept[i].column] == KindTile(kept[i].kind)
    {
      assert kept[i].Pos() !in Cells(third);
    }
    ManifestJoin(g, kept, third);
    forall r, c | InGrid(g, r, c)
      ensures g[r, c] == RoomTile(sr, sc, w, h, exits, lines, sub, added, (r, c), old(g[r, c]))
    {
      var u := PartitionTile(lines, sr, sc, w, h, (r, c), CarvedTile(sr, sc, w, h, exits, (r, c), old(g[r, c])));
      StampConcat(kept, third, (r, c), SubTile(sub, (r, c), u));
    }
    CountConcat(kept, third, Chest);
  }

  /** What a carved room looks like, whatever tiles it was carved over:
      nothing outside its rectangle changes, no maze marker is left inside
      it, and its border is the shell with the exits opened, so the open
      cells of the border are exactly the exits. */
  lemma RoomShape(sr: int, sc: int, w: int, h: int, exitsRequired: int, exits: seq<(int, int)>, lines: seq<Line>,
                  sub: Option<SubRoom>, added: seq<LootRecord>, p: (int, int), t: Cell)
    requires w >= 2 && h >= 2 && ExitsOf(sr, sc, w, h, exitsRequired, exits)
    requires SubInside(sub, sr, sc, w, h) && EntriesIn(sr, sc, w, h, added)
    ensures !InRect(sr, sc, w, h, p.0, p.1) ==> RoomTile(sr, sc, w, h, exits, lines, sub, added, p, t) == t
    ensures InRect(sr, sc, w, h, p.0, p.1) ==> !RoomTile(sr, sc, w, h, exits, lines, sub, added, p, t).IsMarker()
    ensures InRect(sr, sc, w, h, p.0, p.1) && !InRectInterior(sr, sc, w, h, p.0, p.1) ==>
      RoomTile(sr, sc, w, h, exits, lines, sub, added, p, t) == CarvedTile(sr, sc, w, h, exits, p, t)
    ensures EdgeCell(sr, sc, w, h, p) ==> (RoomTile(sr, sc, w, h, exits, lines, sub, added, p, t) == OpenSpace <==> p in exits)
  {
    var carved := CarvedTile(sr, sc, w, h, exits, p, t);
    var drawn := PartitionTile(lines, sr, sc, w, h, p, carved);
    var nested := SubTile(sub, p, drawn);
    PartitionEffect(lines, sr, sc, w, h, p, carved);
    if !InRectInterior(sr, sc, w, h, p.0, p.1) {
      assert forall i :: 0 <= i < |lines| ==> !Covers(lines[i], sr, sc, w, h, p);
      assert drawn == carved && nested == carved;
      assert p !in Cells(added) by {
        assert forall i :: 0 <= i < |added| ==> Cells(added)[i] != p;
      }
      StampMiss(added, p, nested);
    } else if p in Cells(added) {
      StampCovered(added, p, nested, nested);
    } else {
      StampMiss(added, p, nested);
    }
  }
}
