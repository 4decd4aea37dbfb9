/** Room planning and placement: the list of rooms to place, the clear-area
    test and search, and the placement loop that carves every room it can fit
    into the maze-wall fill. */
module Placement {
  import opened Common
  import opened Rng
  import opened Tiles
  import opened Grid
  import opened Loot
  import opened Scene
  import opened Rooms

  const RoomMinCount: int := 3
  const RoomMaxCount: int := 8
  const RoomMinExits: int := 1
  const RoomMaxExits: int := 4

  /** A room record: its plan, and where its top-left cell went once placed. */
  datatype Room = Room(id: int, roomType: RoomType, width: int, height: int, exitsRequired: int,
                       placed: bool, startR: int, startC: int)

  /** The size table a room type draws from. */
  function DimsOf(t: RoomType): seq<(int, int)> {
    match t
    case Small => SmallDims
    case Medium => MediumDims
    case Large => LargeDims
  }

  /** The type a percent roll picks: below 33 small, below 66 medium, else large. */
  function TypeOfRoll(d: nat): RoomType {
    if d < 33 then Small else if d < 66 then Medium else Large
  }

  /** Room i of a plan whose own three draws start at tape position at: its
      type roll, its size choice and its exit count, not yet placed. */
  ghost predicate Planned(room: Room, i: int, tape: nat -> nat, at: nat) {
    && room.id == i
    && room.roomType == TypeOfRoll(tape(at) % 100)
    && (room.width, room.height) == DimsOf(room.roomType)[tape(at + 1) % |DimsOf(room.roomType)|]
    && room.exitsRequired == RoomMinExits + tape(at + 2) % (RoomMaxExits - RoomMinExits + 1)
    && !room.placed && room.startR == -1 && room.startC == -1
  }

  /** generate_rooms_data: a count draw, then three draws per room. Every
      planned size comes from its type's table, so every room is at least two
      cells wide and tall, and asks for one to four exits. */
  method GenerateRoomsData(rng: Source) returns (rooms: seq<Room>, rng': Source)
    ensures |rooms| == RoomMinCount + rng.Raw() % (RoomMaxCount - RoomMinCount + 1)
    ensures RoomMinCount <= |rooms| <= RoomMaxCount
    ensures forall i :: 0 <= i < |rooms| ==> Planned(rooms[i], i, rng.tape, rng.pos + 1 + 3 * i)
    ensures forall i :: 0 <= i < |rooms| ==>
      && (rooms[i].width, rooms[i].height) in DimsOf(rooms[i].roomType)
      && rooms[i].width >= 2 && rooms[i].height >= 2
      && RoomMinExits <= rooms[i].exitsRequired <= RoomMaxExits
    ensures rng' == Source(rng.tape, rng.pos + 1 + 3 * |rooms|)
  {
    var n;
    n, rng' := RandInt(rng, RoomMinCount, RoomMaxCount);
    rooms := [];
    var i := 0;
    while i < n
      invariant 0 <= i <= n && |rooms| == i
      invariant rng' == Source(rng.tape, rng.pos + 1 + 3 * i)
      invariant forall j :: 0 <= j < i ==> Planned(rooms[j], j, rng.tape, rng.pos + 1 + 3 * j)
      invariant forall j :: 0 <= j < i ==>
        && (rooms[j].width, rooms[j].height) in DimsOf(rooms[j].roomType)
        && rooms[j].width >= 2 && rooms[j].height >= 2
        && RoomMinExits <= rooms[j].exitsRequired <= RoomMaxExits
    {
      var room;
      room, rng' := PlanRoom(i, rng');
      rooms := rooms + [room];
      i := i + 1;
    }
  }

  /** One room of generate_rooms_data: a type roll, a size from the type's
      table and an exit count, three draws in that order. */
  method PlanRoom(i: int, rng: Source) returns (room: Room, rng': Source)
    ensures Planned(room, i, rng.tape, rng.pos)
    ensures (room.width, room.height) in DimsOf(room.roomType)
    ensures room.width >= 2 && room.height >= 2
    ensures RoomMinExits <= room.exitsRequired <= RoomMaxExits
    ensures rng' == Source(rng.tape, rng.pos + 3)
  {
    var roll;
    roll, rng' := Percent(rng);
    var roomType := TypeOfRoll(roll);
    var dims;
    dims, rng' := Choice(rng', DimsOf(roomType));
    var exits;
    exits, rng' := RandInt(rng', RoomMinExits, RoomMaxExits);
    room := Room(i, roomType, dims.0, dims.1, exits, false, -1, -1);
  }

  /** is_area_clear's promise: the rectangle lies strictly inside the outer
      ring and every one of its cells is still MAZE_WALL. */
  ghost predicate AreaClear(g: array2<Cell>, sr: int, sc: int, w: int, h: int)
    reads g
  {
    && 1 <= sr && 1 <= sc && sr + h <= g.Length0 - 1 && sc + w <= g.Length1 - 1
    && Uniform(g, sr, sc, w, h, MazeWall)
  }

  /** is_area_clear. Reading the row length needs at least one row. */
  method IsAreaClear(g: array2<Cell>, sr: int, sc: int, w: int, h: int) returns (clear: bool)
    requires g.Length0 >= 1
    ensures clear <==> AreaClear(g, sr, sc, w, h)
  {
    if sr < 1 || sc < 1 || sr + h > g.Length0 - 1 || sc + w > g.Length1 - 1 {
      return false;
    }
    clear := AllTiles(g, sr, sc, w, h, MazeWall);
  }

  /** find_clear_area: every start cell whose rectangle could fit inside the
      ring, shuffled, and the first one that is clear; (-1, -1) exactly when
      no rectangle of that size is clear anywhere. */
  method FindClearArea(g: array2<Cell>, w: int, h: int, rng: Source) returns (sr: int, sc: int, rng': Source)
    requires g.Length0 >= 1 && w >= 0 && h >= 0
    ensures sr == -1 <==> forall r, c :: !AreaClear(g, r, c, w, h)
    ensures sr == -1 ==> sc == -1
    ensures sr != -1 ==> AreaClear(g, sr, sc, w, h)
  {
    var starts := ScanGrid(g, 1, g.Length0 - h, 1, g.Length1 - w, AnyTile);
    forall r, c | AreaClear(g, r, c, w, h)
      ensures (r, c) in starts
    {
      assert Scanned(g, 1, g.Length0 - h, 1, g.Length1 - w, AnyTile, (r, c));
    }
    var order;
    order, rng' := Shuffle(rng, starts);
    var i := 0;
    while i < |order|
      invariant 0 <= i <= |order|
      invariant forall p :: p in order[..i] ==> !AreaClear(g, p.0, p.1, w, h)
    {
      var clear := IsAreaClear(g, order[i].0, order[i].1, w, h);
      if clear {
        return order[i].0, order[i].1, rng';
      }
      i := i + 1;
    }
    assert order[..i] == order;
    return -1, -1, rng';
  }

  /** What a room's carve chose beyond its size: where the exits went, the
      interior walls and the sub-room. */
  datatype Layout = Layout(exits: seq<(int, int)>, lines: seq<Line>, sub: Option<SubRoom>)

  /** The type dispatch of place_rooms_in_dungeon. */
  method CarveRoom(g: array2<Cell>, room: Room, sr: int, sc: int, im: InventoryManager, rng: Source)
    returns (added: seq<LootRecord>, rng': Source, layout: Layout)
    requires RectInGrid(g, sr, sc, room.width, room.height) && room.width >= 2 && room.height >= 2
    modifies g
    ensures ExitsOf(sr, sc, room.width, room.height, room.exitsRequired, layout.exits)
    ensures SubInside(layout.sub, sr, sc, room.width, room.height)
    ensures EntriesIn(sr, sc, room.width, room.height, added) && CountKind(added, Chest) <= 1
    ensures room.roomType != Large ==> layout.sub == None && CountKind(added, Chest) == 0
    ensures room.roomType == Small ==> layout.lines == []
    ensures ManifestHolds(g, added)
    ensures forall r, c :: InGrid(g, r, c) ==>
      g[r, c] == RoomTile(sr, sc, room.width, room.height, layout.exits, layout.lines, layout.sub, added,
                          (r, c), old(g[r, c]))
  {
    var exits, lines, sub;
    match room.roomType
    case Small =>
      added, rng', exits := CarveSmallRoom(g, sr, sc, room.width, room.height, room.exitsRequired, im, rng);
      layout := Layout(exits, [], None);
    case Medium =>
      added, rng', exits, lines := CarveMediumRoom(g, sr, sc, room.width, room.height, room.exitsRequired, im, rng);
      layout := Layout(exits, lines, None);
    case Large =>
      added, rng', exits, lines, sub := CarveLargeRoom(g, sr, sc, room.width, room.height, room.exitsRequired, im, rng);
      layout := Layout(exits, lines, sub);
  }

  /** A placed room's rectangle covers (r, c). */
  predicate InRoom(room: Room, r: int, c: int) {
    room.placed && InRect(room.startR, room.startC, room.width, room.height, r, c)
  }

  predicate InRoomInterior(room: Room, r: int, c: int) {
    room.placed && InRectInterior(room.startR, room.startC, room.width, room.height, r, c)
  }

  ghost predicate InSomeRoom(rooms: seq<Room>, r: int, c: int) {
    exists i :: 0 <= i < |rooms| && InRoom(rooms[i], r, c)
  }

  ghost predicate InSomeRoomInterior(rooms: seq<Room>, r: int, c: int) {
    exists i :: 0 <= i < |rooms| && InRoomInterior(rooms[i], r, c)
  }

  /** The room lies strictly inside the outer ring of a rows x cols grid. */
  predicate RoomFits(rows: int, cols: int, room: Room) {
    1 <= room.startR && 1 <= room.startC && room.startR + room.height <= rows - 1
    && room.startC + room.width <= cols - 1
  }

  /** Two rectangles share no cell: one lies wholly above, below, left or
      right of the other. */
  predicate Apart(a: Room, b: Room) {
    || a.startR + a.height <= b.startR || b.startR + b.height <= a.startR
    || a.startC + a.width <= b.startC || b.startC + b.width <= a.startC
  }

  /** Rectangles are apart when the top-left-most cell they could share is
      not in both. */
  lemma ApartByCorner(a: Room, b: Room)
    requires a.width >= 1 && a.height >= 1 && b.width >= 1 && b.height >= 1
    requires var m := (Max(a.startR, b.startR), Max(a.startC, b.startC));
      !(InRect(a.startR, a.startC, a.width, a.height, m.0, m.1) && InRect(b.startR, b.startC, b.width, b.height, m.0, m.1))
    ensures Apart(a, b)
  {
  }

  /** A placed room's border on the grid: the shell, with exactly its exits
      open, as many as carve_small_room promises. */
  ghost predicate BorderHolds(g: array2<Cell>, room: Room, exits: seq<(int, int)>)
    reads g
  {
    && ExitsOf(room.startR, room.startC, room.width, room.height, room.exitsRequired, exits)
    && forall r, c ::
         (InRect(room.startR, room.startC, room.width, room.height, r, c)
          && !InRectInterior(room.startR, room.startC, room.width, room.height, r, c) && InGrid(g, r, c)) ==>
         g[r, c] == CarvedTile(room.startR, room.startC, room.width, room.height, exits, (r, c), MazeWall)
  }

  /** One carve as the placement loop relies on it: nothing outside the
      rectangle changes, no maze marker is left inside it, its border holds,
      and its entries lie in its interior. */
  method CarveAt(g: array2<Cell>, room: Room, im: InventoryManager, rng: Source)
    returns (added: seq<LootRecord>, rng': Source, layout: Layout)
    requires room.placed && RectInGrid(g, room.startR, room.startC, room.width, room.height)
    requires room.width >= 2 && room.height >= 2
    modifies g
    ensures forall r, c :: InGrid(g, r, c) ==> if InRoom(room, r, c) then !g[r, c].IsMarker() else g[r, c] == old(g[r, c])
    ensures BorderHolds(g, room, layout.exits)
    ensures ManifestHolds(g, added) && AllLoot(added)
    ensures forall i :: 0 <= i < |added| ==> !added[i].stray && InRoomInterior(room, added[i].row, added[i].column)
    ensures room.roomType != Large ==> CountKind(added, Chest) == 0
  {
    added, rng', layout := CarveRoom(g, room, room.startR, room.startC, im, rng);
    forall r, c | InGrid(g, r, c)
      ensures if InRoom(room, r, c) then !g[r, c].IsMarker() else g[r, c] == old(g[r, c])
      ensures InRoom(room, r, c) && !InRectInterior(room.startR, room.startC, room.width, room.height, r, c) ==>
        g[r, c] == CarvedTile(room.startR, room.startC, room.width, room.height, layout.exits, (r, c), MazeWall)
    {
      RoomShape(room.startR, room.startC, room.width, room.height, room.exitsRequired, layout.exits, layout.lines,
                layout.sub, added, (r, c), old(g[r, c]));
    }
  }

  /** What place_rooms_in_dungeon keeps true of the rooms handled so far. */
  ghost predicate PlacedSoFar(g: array2<Cell>, rooms: seq<Room>, out: seq<Room>, layouts: seq<Layout>,
                              added: seq<LootRecord>)
    reads g
  {
    && |out| <= |rooms| && |layouts| == |out|
    && (forall i :: 0 <= i < |out| ==>
          out[i] == rooms[i] || out[i] == rooms[i].(placed := true, startR := out[i].startR, startC := out[i].startC))
    && (forall i :: 0 <= i < |out| && out[i].placed ==> RoomFits(g.Length0, g.Length1, out[i]))
    && (forall i, j :: 0 <= i < j < |out| && out[i].placed && out[j].placed ==> Apart(out[i], out[j]))
    && (forall i :: 0 <= i < |out| && out[i].placed ==> BorderHolds(g, out[i], layouts[i].exits))
    && ManifestHolds(g, added) && AllLoot(added)
    && (forall k :: 0 <= k < |added| ==> !added[k].stray && InSomeRoomInterior(out, added[k].row, added[k].column))
  }

  /** place_rooms_in_dungeon: for each room in turn, find a clear area; where
      one is found, mark the room placed there and carve it by its type. Placed
      rooms lie inside the ring, were all MAZE_WALL before, and never overlap;
      an unplaced room keeps its record (start -1, -1 from the plan); cells
      outside every placed room keep their tile; every manifest entry is an
      in-room container on the cell it names. The source updates the room
      records in place; here the updated list is returned. */
  method PlaceRoomsInDungeon(g: array2<Cell>, rooms: seq<Room>, im: InventoryManager, rng: Source)
    returns (out: seq<Room>, added: seq<LootRecord>, rng': Source, layouts: seq<Layout>)
    requires g.Length0 >= 1
    requires forall i :: 0 <= i < |rooms| ==> !rooms[i].placed && rooms[i].width >= 2 && rooms[i].height >= 2
    modifies g
    ensures |out| == |rooms|
    ensures PlacedSoFar(g, rooms, out, layouts, added)
    ensures forall i :: 0 <= i < |out| && !out[i].placed ==> out[i] == rooms[i]
    ensures forall i :: 0 <= i < |out| && out[i].placed ==>
      old(Uniform(g, out[i].startR, out[i].startC, out[i].width, out[i].height, MazeWall))
    ensures forall r, c :: InGrid(g, r, c) ==>
      if InSomeRoom(out, r, c) then !g[r, c].IsMarker() else g[r, c] == old(g[r, c])
    ensures forall i, r, c :: 0 <= i < |out| && !out[i].placed ==> !AreaClear(g, r, c, out[i].width, out[i].height)
  {
    out, added, rng', layouts := [], [], rng, [];
    var k := 0;
    while k < |rooms|
      invariant 0 <= k <= |rooms| && |out| == k
      invariant PlacedSoFar(g, rooms, out, layouts, added)
      invariant forall i :: 0 <= i < k && out[i].placed ==>
        old(Uniform(g, out[i].startR, out[i].startC, out[i].width, out[i].height, MazeWall))
      invariant forall r, c :: InGrid(g, r, c) ==>
        if InSomeRoom(out, r, c) then !g[r, c].IsMarker() else g[r, c] == old(g[r, c])
      invariant forall i, r, c :: 0 <= i < k && !out[i].placed ==> !AreaClear(g, r, c, out[i].width, out[i].height)
    {
      label Top:
      var room := rooms[k];
      var sr, sc;
      sr, sc, rng' := FindClearArea(g, room.width, room.height, rng');
      if sr != -1 {
        var placedRoom := room.(placed := true, startR := sr, startC := sc);
        out, added, layouts, rng' := PlaceOne(g, rooms, out, layouts, added, placedRoom, im, rng');
        // Carving only ever turns MAZE_WALL into something else, so no area becomes clear.
        forall r, c, w, h | AreaClear(g, r, c, w, h)
          ensures old@Top(AreaClear(g, r, c, w, h))
        {
          forall x, y | InRect(r, c, w, h, x, y) && InGrid(g, x, y)
            ensures old@Top(g[x, y]) == MazeWall
          {
            assert g[x, y] == MazeWall;
          }
        }
      } else {
        NotPlaced(g, rooms, out, layouts, added, room);
        out, layouts := out + [room], layouts + [Layout([], [], None)];
      }
      k := k + 1;
    }
  }

  /** An unplaced room adds no cell and no constraint. */
  lemma NotPlaced(g: array2<Cell>, rooms: seq<Room>, out: seq<Room>, layouts: seq<Layout>,
                  added: seq<LootRecord>, room: Room)
    requires PlacedSoFar(g, rooms, out, layouts, added) && |out| < |rooms| && room == rooms[|out|]
    requires !room.placed
    ensures PlacedSoFar(g, rooms, out + [room], layouts + [Layout([], [], None)], added)
    ensures forall r, c :: InSomeRoom(out + [room], r, c) <==> InSomeRoom(out, r, c)
  {
    var out' := out + [room];
    forall k | 0 <= k < |added|
      ensures InSomeRoomInterior(out', added[k].row, added[k].column)
    {
      var i :| 0 <= i < |out| && InRoomInterior(out[i], added[k].row, added[k].column);
      assert out'[i] == out[i];
    }
    forall r, c | InSomeRoom(out', r, c)
      ensures InSomeRoom(out, r, c)
    {
      var i :| 0 <= i < |out'| && InRoom(out'[i], r, c);
    }
    forall r, c | InSomeRoom(out, r, c)
      ensures InSomeRoom(out', r, c)
    {
      var i :| 0 <= i < |out| && InRoom(out[i], r, c);
      assert out'[i] == out[i];
    }
  }

  /** A clear area overlaps no placed room: every cell of a placed room holds
      a named tile, and every cell of the area holds MAZE_WALL. */
  lemma ClearAreaApart(g: array2<Cell>, out: seq<Room>, room: Room)
    requires AreaClear(g, room.startR, room.startC, room.width, room.height) && room.width >= 1 && room.height >= 1
    requires forall i :: 0 <= i < |out| && out[i].placed ==>
      RoomFits(g.Length0, g.Length1, out[i]) && out[i].width >= 1 && out[i].height >= 1
    requires forall r, c :: InGrid(g, r, c) && InSomeRoom(out, r, c) ==> !g[r, c].IsMarker()
    ensures forall i :: 0 <= i < |out| && out[i].placed ==> Apart(out[i], room)
  {
    forall i | 0 <= i < |out| && out[i].placed
      ensures Apart(out[i], room)
    {
      var m := (Max(out[i].startR, room.startR), Max(out[i].startC, room.startC));
      if InRect(out[i].startR, out[i].startC, out[i].width, out[i].height, m.0, m.1) {
        assert InRoom(out[i], m.0, m.1) && InGrid(g, m.0, m.1);
        assert !g[m.0, m.1].IsMarker();
        assert !InRect(room.startR, room.startC, room.width, room.height, m.0, m.1);
      }
      ApartByCorner(out[i], room);
    }
  }

  /** One successful placement: carve the room at the clear area found and
      extend the loop's facts to it. */
  method PlaceOne(g: array2<Cell>, rooms: seq<Room>, out: seq<Room>, layouts: seq<Layout>,
                  added: seq<LootRecord>, room: Room, im: InventoryManager, rng: Source)
    returns (out': seq<Room>, added': seq<LootRecord>, layouts': seq<Layout>, rng': Source)
    requires PlacedSoFar(g, rooms, out, layouts, added) && |out| < |rooms|
    requires room == rooms[|out|].(placed := true, startR := room.startR, startC := room.startC) && room.placed
    requires forall i :: 0 <= i < |rooms| ==> rooms[i].width >= 2 && rooms[i].height >= 2
    requires AreaClear(g, room.startR, room.startC, room.width, room.height)
    requires forall r, c :: InGrid(g, r, c) && InSomeRoom(out, r, c) ==> !g[r, c].IsMarker()
    modifies g
    ensures out' == out + [room] && |layouts'| == |out'|
    ensures PlacedSoFar(g, rooms, out', layouts', added')
    ensures forall r, c :: InGrid(g, r, c) ==>
      if InRoom(room, r, c) then !g[r, c].IsMarker() else g[r, c] == old(g[r, c])
  {
    forall i | 0 <= i < |out| && out[i].placed
      ensures out[i].width >= 1 && out[i].height >= 1
    {
      assert out[i].width == rooms[i].width && out[i].height == rooms[i].height;
    }
    ClearAreaApart(g, out, room);
    label Before:
    var roomAdded, layout;
    roomAdded, rng', layout := CarveAt(g, room, im, rng);
    out', layouts', added' := out + [room], layouts + [layout], added + roomAdded;
    var n := |out|;
    forall i | 0 <= i < n && out[i].placed
      ensures BorderHolds(g, out[i], layouts[i].exits)
    {
      assert old@Before(BorderHolds(g, out[i], layouts[i].exits));
      forall r, c | InRect(out[i].startR, out[i].startC, out[i].width, out[i].height, r, c) && InGrid(g, r, c)
        ensures g[r, c] == old@Before(g[r, c])
      {
        assert !InRoom(room, r, c);
      }
    }
    forall k | 0 <= k < |added|
      ensures !InRoom(room, added[k].row, added[k].column)
      ensures g[added[k].row, added[k].column] == KindTile(added[k].kind)
    {
      assert old@Before(g[added[k].row, added[k].column]) == KindTile(added[k].kind);
    }
    ManifestJoin(g, added, roomAdded);
    forall k | 0 <= k < |added'|
      ensures IsContainerLoot(added'[k].kind, added'[k].loot)
      ensures !added'[k].stray && InSomeRoomInterior(out', added'[k].row, added'[k].column)
    {
      if k < |added| {
        var i :| 0 <= i < |out| && InRoomInterior(out[i], added[k].row, added[k].column);
        assert out'[i] == out[i];
      } else {
        assert added'[k] == roomAdded[k - |added|];
        assert out'[n] == room;
      }
    }
  }
}
