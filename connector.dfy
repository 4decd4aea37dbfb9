/** connect_rooms_to_hallways: every opened cell on a placed room's perimeter
    turns the MAZE_WALL cell one step outward from it into MAZE_PASSAGE, so
    the maze later grows out of a passage at each exit. */
module Connector {
  import opened Common
  import opened Tiles
  import opened Grid
  import opened Placement

  /** The perimeter tiles the connector treats as opened. */
  predicate IsExitTile(t: Cell) {
    t == OpenSpace || t == LootBarrel || t == LootCrate || t == LootChest
  }

  function EndRow(room: Room): int {
    room.startR + room.height - 1
  }

  function EndColumn(room: Room): int {
    room.startC + room.width - 1
  }

  /** A cell of the room's rectangle on its first or last row or column. */
  predicate OnPerimeter(room: Room, p: (int, int)) {
    && InRect(room.startR, room.startC, room.width, room.height, p.0, p.1)
    && (p.0 == room.startR || p.0 == EndRow(room) || p.1 == room.startC || p.1 == EndColumn(room))
  }

  /** The step the source takes from a perimeter cell: up from the first
      row, else down from the last row, else left from the first column,
      else right from the last column. */
  function Outward(room: Room, p: (int, int)): (int, int) {
    if p.0 == room.startR then (p.0 - 1, p.1)
    else if p.0 == EndRow(room) then (p.0 + 1, p.1)
    else if p.1 == room.startC then (p.0, p.1 - 1)
    else if p.1 == EndColumn(room) then (p.0, p.1 + 1)
    else p
  }

  /** The perimeter cell whose outward step lands on q, if any: the step is
      one-to-one, so each cell outside the room has at most one. */
  function Feeder(room: Room, q: (int, int)): Option<(int, int)> {
    var sr, sc, er, ec := room.startR, room.startC, EndRow(room), EndColumn(room);
    if q.0 == sr - 1 && sc <= q.1 <= ec then Some((sr, q.1))
    else if q.0 == er + 1 && sr != er && sc <= q.1 <= ec then Some((er, q.1))
    else if q.1 == sc - 1 && sr < q.0 < er then Some((q.0, sc))
    else if q.1 == ec + 1 && sc != ec && sr < q.0 < er then Some((q.0, ec))
    else None
  }

  /** Feeder inverts the outward step on the perimeter, both ways round. */
  lemma FeederInverse(room: Room, p: (int, int), q: (int, int))
    requires room.width >= 1 && room.height >= 1
    ensures OnPerimeter(room, p) && Outward(room, p) == q <==> Feeder(room, q) == Some(p)
  {
  }

  /** No cell of the rectangle is fed: every outward step leaves it. */
  lemma FeederOutside(room: Room, q: (int, int))
    requires room.width >= 1 && room.height >= 1
    ensures InRect(room.startR, room.startC, room.width, room.height, q.0, q.1) ==> Feeder(room, q) == None
  {
  }

  /** The connector opens q for this room: q is a MAZE_WALL cell within the
      maze bounds whose feeder on the room's perimeter holds an opened tile. */
  ghost predicate Fed(g: array2<Cell>, room: Room, q: (int, int))
    reads g
  {
    && InMazeBounds(q.0, q.1) && InGrid(g, q.0, q.1) && g[q.0, q.1] == MazeWall
    && Feeder(room, q).Some?
    && InGrid(g, Feeder(room, q).value.0, Feeder(room, q).value.1)
    && IsExitTile(g[Feeder(room, q).value.0, Feeder(room, q).value.1])
  }

  /** The body of the scan at one cell p of the room's rectangle: if p is an
      opened perimeter cell, its outward cell is opened when it is MAZE_WALL
      within the maze bounds. Exactly the cell p feeds can change. */
  method ConnectCell(g: array2<Cell>, room: Room, p: (int, int))
    requires room.width >= 1 && room.height >= 1
    requires RectInGrid(g, room.startR, room.startC, room.width, room.height)
    requires InRect(room.startR, room.startC, room.width, room.height, p.0, p.1)
    requires g.Length0 >= GridRows - 1 && g.Length1 >= GridColumns - 1
    modifies g
    ensures forall x, y :: InGrid(g, x, y) ==>
      g[x, y] == if old(Fed(g, room, (x, y))) && Feeder(room, (x, y)) == Some(p) then MazePassage else old(g[x, y])
  {
    var (r, c) := p;
    var sr, sc, er, ec := room.startR, room.startC, EndRow(room), EndColumn(room);
    forall x, y | Feeder(room, (x, y)) == Some(p)
      ensures (x, y) == Outward(room, p) && OnPerimeter(room, p)
    {
      FeederInverse(room, p, (x, y));
    }
    if IsExitTile(g[r, c]) && (r == sr || r == er || c == sc || c == ec) {
      var dr, dc := 0, 0;
      if r == sr {
        dr := -1;
      } else if r == er {
        dr := 1;
      } else if c == sc {
        dc := -1;
      } else if c == ec {
        dc := 1;
      }
      var cr, cc := r + dr, c + dc;
      FeederInverse(room, p, (cr, cc));
      if 1 <= cr < GridRows - 1 && 1 <= cc < GridColumns - 1 {
        if g[cr, cc] == MazeWall {
          g[cr, cc] := MazePassage;
        }
      }
    }
  }

  /** Feeders lie in the room's rectangle. */
  lemma FeederInRect(room: Room, q: (int, int))
    requires room.width >= 1 && room.height >= 1 && Feeder(room, q).Some?
    ensures InRect(room.startR, room.startC, room.width, room.height, Feeder(room, q).value.0, Feeder(room, q).value.1)
  {
  }

  /** The feeder of q lies on row r, before column c. */
  predicate FedInRow(room: Room, q: (int, int), r: int, c: int) {
    Feeder(room, q).Some? && Feeder(room, q).value.0 == r && Feeder(room, q).value.1 < c
  }

  /** The inner loop over row r of the room's rectangle: the cells fed from
      that row are opened. */
  method ConnectRow(g: array2<Cell>, room: Room, r: int)
    requires room.width >= 1 && room.height >= 1
    requires RectInGrid(g, room.startR, room.startC, room.width, room.height)
    requires room.startR <= r <= EndRow(room)
    requires g.Length0 >= GridRows - 1 && g.Length1 >= GridColumns - 1
    modifies g
    ensures forall x, y :: InGrid(g, x, y) ==>
      g[x, y] == if old(Fed(g, room, (x, y))) && FedInRow(room, (x, y), r, room.startC + room.width)
                 then MazePassage else old(g[x, y])
  {
    for c := room.startC to EndColumn(room) + 1
      invariant forall x, y :: InGrid(g, x, y) ==>
        g[x, y] == if old(Fed(g, room, (x, y))) && FedInRow(room, (x, y), r, c) then MazePassage else old(g[x, y])
    {
      label Before:
      FeederOutside(room, (r, c));
      ConnectCell(g, room, (r, c));
      forall x, y | InGrid(g, x, y) && Feeder(room, (x, y)) == Some((r, c))
        ensures old@Before(Fed(g, room, (x, y))) == old(Fed(g, room, (x, y)))
      {
        assert old@Before(g[x, y]) == old(g[x, y]);
        assert old@Before(g[r, c]) == old(g[r, c]);
      }
    }
  }

  /** The loop over one placed room's rectangle: the cells its opened
      perimeter cells step onto are opened, and nothing else changes. */
  method ConnectRoom(g: array2<Cell>, room: Room)
    requires room.width >= 1 && room.height >= 1
    requires RectInGrid(g, room.startR, room.startC, room.width, room.height)
    requires g.Length0 >= GridRows - 1 && g.Length1 >= GridColumns - 1
    modifies g
    ensures forall r, c :: InGrid(g, r, c) ==>
      g[r, c] == if old(Fed(g, room, (r, c))) then MazePassage else old(g[r, c])
  {
    for r := room.startR to EndRow(room) + 1
      invariant forall x, y :: InGrid(g, x, y) ==>
        g[x, y] == if old(Fed(g, room, (x, y))) && Feeder(room, (x, y)).Some? && Feeder(room, (x, y)).value.0 < r
                   then MazePassage else old(g[x, y])
    {
      label Before:
      ConnectRow(g, room, r);
      forall x, y | InGrid(g, x, y) && Feeder(room, (x, y)).Some?
        ensures Feeder(room, (x, y)).value.0 == r ==> old@Before(Fed(g, room, (x, y))) == old(Fed(g, room, (x, y)))
        ensures FedInRow(room, (x, y), r, room.startC + room.width) <==> Feeder(room, (x, y)).value.0 == r
      {
        FeederInRect(room, (x, y));
        var f := Feeder(room, (x, y)).value;
        FeederOutside(room, f);
        if f.0 == r {
          assert old@Before(g[x, y]) == old(g[x, y]);
          assert old@Before(g[f.0, f.1]) == old(g[f.0, f.1]);
        }
      }
    }
    forall x, y | Feeder(room, (x, y)).Some?
      ensures Feeder(room, (x, y)).value.0 < EndRow(room) + 1
    {
      FeederInRect(room, (x, y));
    }
  }

  /** Some placed room of the list opens q, the list read from its end. */
  ghost predicate Connected(g: array2<Cell>, rooms: seq<Room>, q: (int, int))
    reads g
  {
    |rooms| > 0 &&
      (Connected(g, rooms[..|rooms| - 1], q) || (rooms[|rooms| - 1].placed && Fed(g, rooms[|rooms| - 1], q)))
  }

  /** Connected says that some placed room of the list opens q. */
  lemma {:induction false} ConnectedSome(g: array2<Cell>, rooms: seq<Room>, q: (int, int))
    ensures Connected(g, rooms, q) <==> exists i :: 0 <= i < |rooms| && rooms[i].placed && Fed(g, rooms[i], q)
  {
    if |rooms| > 0 {
      var init := rooms[..|rooms| - 1];
      ConnectedSome(g, init, q);
      if exists i :: 0 <= i < |rooms| && rooms[i].placed && Fed(g, rooms[i], q) {
        var i :| 0 <= i < |rooms| && rooms[i].placed && Fed(g, rooms[i], q);
        if i < |init| {
          assert init[i] == rooms[i];
        }
      }
      if exists i :: 0 <= i < |init| && init[i].placed && Fed(g, init[i], q) {
        var i :| 0 <= i < |init| && init[i].placed && Fed(g, init[i], q);
        assert init[i] == rooms[i];
      }
    }
  }

  /** What every placed room needs for the connector to index its cells. */
  predicate Connectable(g: array2<Cell>, rooms: seq<Room>) {
    forall i :: 0 <= i < |rooms| && rooms[i].placed ==>
      rooms[i].width >= 1 && rooms[i].height >= 1
      && RectInGrid(g, rooms[i].startR, rooms[i].startC, rooms[i].width, rooms[i].height)
  }

  /** connect_rooms_to_hallways: exactly the MAZE_WALL cells within the maze
      bounds that some placed room's opened perimeter cell steps onto become
      MAZE_PASSAGE; every other cell keeps its tile. The rooms are visited in
      turn, but a write only turns MAZE_WALL into MAZE_PASSAGE, which no
      later test of an opened tile can see, so the order does not matter. */
  method ConnectRoomsToHallways(g: array2<Cell>, rooms: seq<Room>)
    requires Connectable(g, rooms)
    requires g.Length0 >= GridRows - 1 && g.Length1 >= GridColumns - 1
    modifies g
    ensures forall r, c :: InGrid(g, r, c) ==>
      g[r, c] == if old(Connected(g, rooms, (r, c))) then MazePassage else old(g[r, c])
    ensures forall r, c :: InGrid(g, r, c) ==> g[r, c] == old(g[r, c]) || (old(g[r, c]) == MazeWall && g[r, c] == MazePassage)
  {
    for k := 0 to |rooms|
      invariant forall r, c :: InGrid(g, r, c) ==>
        g[r, c] == if old(Connected(g, rooms[..k], (r, c))) then MazePassage else old(g[r, c])
      invariant forall r, c :: old(Connected(g, rooms[..k], (r, c))) ==>
        InGrid(g, r, c) && old(g[r, c]) == MazeWall
    {
      if rooms[k].placed {
        label Before:
        ConnectRoom(g, rooms[k]);
        forall r, c | InGrid(g, r, c)
          ensures g[r, c] == if old(Connected(g, rooms[..k + 1], (r, c))) then MazePassage else old(g[r, c])
        {
          assert rooms[..k + 1][..k] == rooms[..k];
          var f := Feeder(rooms[k], (r, c));
          if f.Some? && InGrid(g, f.value.0, f.value.1) {
            assert IsExitTile(old@Before(g[f.value.0, f.value.1])) == IsExitTile(old(g[f.value.0, f.value.1]));
          }
        }
      }
      assert rooms[..k + 1][..k] == rooms[..k];
      forall r, c | old(Connected(g, rooms[..k + 1], (r, c)))
        ensures InGrid(g, r, c) && old(g[r, c]) == MazeWall
      {
      }
    }
    assert rooms[..|rooms|] == rooms;
  }


  /** Every opened cell on a placed room's perimeter reaches the maze: when
      the cell one step outward is MAZE_WALL within the maze bounds, the
      connector opens it. */
  lemma ExitReached(g: array2<Cell>, rooms: seq<Room>, i: int, p: (int, int))
    requires Connectable(g, rooms) && 0 <= i < |rooms| && rooms[i].placed
    requires OnPerimeter(rooms[i], p) && IsExitTile(g[p.0, p.1])
    requires g.Length0 >= GridRows - 1 && g.Length1 >= GridColumns - 1
    requires var q := Outward(rooms[i], p); InMazeBounds(q.0, q.1) && g[q.0, q.1] == MazeWall
    ensures Connected(g, rooms, Outward(rooms[i], p))
  {
    var q := Outward(rooms[i], p);
    FeederInverse(rooms[i], p, q);
    assert Fed(g, rooms[i], q);
    ConnectedSome(g, rooms, q);
  }
}
