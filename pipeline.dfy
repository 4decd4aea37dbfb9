/** generate_dungeon_and_loot: the generation steps run in order on one grid
    of the configured size, with one inventory manager and one manifest of
    placed containers shared by all the loot passes. */
module Pipeline {
  import opened Common
  import opened Rng
  import opened Tiles
  import opened Grid
  import opened Loot
  import opened Scene
  import opened Placement
  import opened Connector
  import opened Maze

  const EnemySpawnerCount: int := 2

  /** The ring holds exactly what generate_initial_box_dungeon put there. */
  ghost predicate RingSealed(g: array2<Cell>)
    reads g
  {
    forall r, c :: InGrid(g, r, c) && !Interior(g.Length0, g.Length1, r, c) ==>
      g[r, c] == BoxTile(g.Length0, g.Length1, r, c)
  }

  /** Step 6.1, generate_initial_box_dungeon followed by initialize_inner_grid:
      the sealed box with MAZE_WALL inside. */
  method BuildBox() returns (g: array2<Cell>)
    ensures fresh(g) && g.Length0 == GridRows && g.Length1 == GridColumns
    ensures forall r, c :: InGrid(g, r, c) ==> g[r, c] == InitialTile(GridRows, GridColumns, r, c)
  {
    g := GenerateInitialBoxDungeon(GridRows, GridColumns);
    InitializeInnerGrid(g);
  }

  /** Every placed room of the plan is at least two cells wide and tall and
      lies inside the ring. */
  ghost predicate RoomsFit(g: array2<Cell>, rooms: seq<Room>)
    reads g
  {
    forall i :: 0 <= i < |rooms| && rooms[i].placed ==>
      rooms[i].width >= 2 && rooms[i].height >= 2 && RoomFits(g.Length0, g.Length1, rooms[i])
  }

  /** Placed rooms never share a cell. */
  predicate RoomsApart(rooms: seq<Room>) {
    forall i, j :: 0 <= i < j < |rooms| && rooms[i].placed && rooms[j].placed ==> Apart(rooms[i], rooms[j])
  }

  /** A cell of a placed room is inside the ring. */
  lemma RoomCellInterior(g: array2<Cell>, rooms: seq<Room>, r: int, c: int)
    requires RoomsFit(g, rooms) && InSomeRoom(rooms, r, c)
    ensures Interior(g.Length0, g.Length1, r, c)
  {
    var i :| 0 <= i < |rooms| && InRoom(rooms[i], r, c);
    assert RoomFits(g.Length0, g.Length1, rooms[i]);
  }

  /** When the named interior cells are exactly the cells of placed rooms at
      least two cells wide and tall, no named tile is thin: each has a named
      neighbour in its own room along both axes. */
  lemma NoThinFromRooms(g: array2<Cell>, rooms: seq<Room>)
    requires RoomsFit(g, rooms)
    requires forall r, c :: Interior(g.Length0, g.Length1, r, c) ==> (!g[r, c].IsMarker() <==> InSomeRoom(rooms, r, c))
    ensures NoThin(g)
  {
    forall x, y
      ensures NotThinAt(g, x, y)
    {
      if Interior(g.Length0, g.Length1, x, y) && !g[x, y].IsMarker() {
        var i :| 0 <= i < |rooms| && InRoom(rooms[i], x, y);
        var room := rooms[i];
        var (dr, dc) := if x + 1 < room.startR + room.height then (1, 0) else (-1, 0);
        var (er, ec) := if y + 1 < room.startC + room.width then (0, 1) else (0, -1);
        assert InRoom(room, x + dr, y + dc) && InRoom(room, x + er, y + ec);
        RoomCellInterior(g, rooms, x + dr, y + dc);
        RoomCellInterior(g, rooms, x + er, y + ec);
      }
    }
  }

  /** generate_rooms_data and step 6.4 on the sealed box: plan the rooms and place them
      with their in-room loot. Placed rooms are at least two cells wide and
      tall, lie inside the ring and never overlap; an unplaced room keeps the
      plan's start (-1, -1); a cell of a placed room holds a named tile and
      every other cell keeps its initial tile; the manifest holds and names
      only room-interior cells. */
  method PlaceRooms(g: array2<Cell>, im: InventoryManager, rng: Source)
    returns (rooms: seq<Room>, inRoom: seq<LootRecord>, rng': Source)
    requires g.Length0 == GridRows && g.Length1 == GridColumns
    requires forall r, c :: InGrid(g, r, c) ==> g[r, c] == InitialTile(GridRows, GridColumns, r, c)
    modifies g
    ensures RoomMinCount <= |rooms| <= RoomMaxCount
    ensures RoomsFit(g, rooms) && RoomsApart(rooms)
    ensures forall i :: 0 <= i < |rooms| && !rooms[i].placed ==> rooms[i].startR == -1 && rooms[i].startC == -1
    ensures forall r, c :: InGrid(g, r, c) ==>
      if InSomeRoom(rooms, r, c) then !g[r, c].IsMarker() else g[r, c] == InitialTile(GridRows, GridColumns, r, c)
    ensures ManifestHolds(g, inRoom) && AllLoot(inRoom)
    ensures forall k :: 0 <= k < |inRoom| ==> !inRoom[k].stray && InSomeRoomInterior(rooms, inRoom[k].row, inRoom[k].column)
  {
    var plan;
    plan, rng' := GenerateRoomsData(rng);
    var layouts;
    rooms, inRoom, rng', layouts := PlaceRoomsInDungeon(g, plan, im, rng');
    forall i | 0 <= i < |rooms|
      ensures rooms[i].width == plan[i].width && rooms[i].height == plan[i].height
      ensures !rooms[i].placed ==> rooms[i].startR == -1 && rooms[i].startC == -1
    {
      assert Planned(plan[i], i, rng.tape, rng.pos + 1 + 3 * i);
    }
  }

  /** A cell the connector may change: MAZE_WALL opened to MAZE_PASSAGE. */
  predicate Opened(before: Cell, after: Cell) {
    after == before || (before == MazeWall && after == MazePassage)
  }

  /** Step 6.5: connect the placed rooms to the maze system. Only MAZE_WALL
      cells change, and only to MAZE_PASSAGE. */
  method Connect(g: array2<Cell>, rooms: seq<Room>)
    requires g.Length0 == GridRows && g.Length1 == GridColumns
    requires RoomsFit(g, rooms)
    modifies g
    ensures forall r, c :: InGrid(g, r, c) ==> Opened(old(g[r, c]), g[r, c])
  {
    ConnectRoomsToHallways(g, rooms);
  }

  /** generate_rooms_data and steps 6.4 and 6.5 on the sealed box: plan the rooms, place them with
      their in-room loot, and connect them to the maze. Afterwards the ring is
      sealed, the named interior cells are exactly the cells of placed rooms,
      so no named tile is thin, and the manifest holds. */
  method LayOutRooms(g: array2<Cell>, im: InventoryManager, rng: Source)
    returns (rooms: seq<Room>, inRoom: seq<LootRecord>, rng': Source)
    requires g.Length0 == GridRows && g.Length1 == GridColumns
    requires forall r, c :: InGrid(g, r, c) ==> g[r, c] == InitialTile(GridRows, GridColumns, r, c)
    modifies g
    ensures RoomMinCount <= |rooms| <= RoomMaxCount
    ensures RoomsFit(g, rooms) && RoomsApart(rooms)
    ensures forall i :: 0 <= i < |rooms| && !rooms[i].placed ==> rooms[i].startR == -1 && rooms[i].startC == -1
    ensures RingSealed(g)
    ensures forall r, c :: Interior(g.Length0, g.Length1, r, c) ==> (!g[r, c].IsMarker() <==> InSomeRoom(rooms, r, c))
    ensures NoThin(g)
    ensures ManifestHolds(g, inRoom) && AllLoot(inRoom)
    ensures forall k :: 0 <= k < |inRoom| ==> !inRoom[k].stray && InSomeRoomInterior(rooms, inRoom[k].row, inRoom[k].column)
  {
    rooms, inRoom, rng' := PlaceRooms(g, im, rng);
    label Connecting:
    Connect(g, rooms);
    forall r, c | InGrid(g, r, c)
      ensures !Interior(g.Length0, g.Length1, r, c) ==> g[r, c] == BoxTile(g.Length0, g.Length1, r, c)
      ensures Interior(g.Length0, g.Length1, r, c) ==> (!g[r, c].IsMarker() <==> InSomeRoom(rooms, r, c))
    {
      if InSomeRoom(rooms, r, c) {
        RoomCellInterior(g, rooms, r, c);
      }
    }
    NoThinFromRooms(g, rooms);
    forall k | 0 <= k < |inRoom|
      ensures g[inRoom[k].row, inRoom[k].column] == KindTile(inRoom[k].kind)
    {
      assert InGrid(g, inRoom[k].row, inRoom[k].column);
      assert old@Connecting(g[inRoom[k].row, inRoom[k].column]) == KindTile(inRoom[k].kind);
    }
  }

  /** No cell holds an integer marker. */
  ghost predicate NoMarkers(g: array2<Cell>)
    reads g
  {
    forall r, c :: InGrid(g, r, c) ==> !g[r, c].IsMarker()
  }

  /** Every spawner record names a cell holding a spawner. */
  ghost predicate SpawnersHold(g: array2<Cell>, locs: seq<SpawnerRecord>)
    reads g
  {
    forall i :: 0 <= i < |locs| ==> InGrid(g, locs[i].row, locs[i].column) && g[locs[i].row, locs[i].column] == EnemySpawner
  }

  /** How a cell may change under the spawner, outside-loot and stray-chest
      passes: not at all, or, inside the ring, from floor to a tile that is
      neither floor nor a marker. */
  predicate FloorTaken(before: Cell, after: Cell, interior: bool) {
    after == before || (interior && IsFloor(before) && !IsFloor(after) && !after.IsMarker())
  }

  /** Step 6.6: the maze fills the remaining MAZE_WALL cells and the markers
      are resolved. The ring stays sealed, no marker is left, and the named
      tiles, so the manifest, are untouched. */
  method Hallways(g: array2<Cell>, loot: seq<LootRecord>, rng: Source) returns (rng': Source)
    requires g.Length0 == GridRows && g.Length1 == GridColumns
    requires RingSealed(g) && NoThin(g) && ManifestHolds(g, loot)
    modifies g
    ensures RingSealed(g) && NoMarkers(g) && ManifestHolds(g, loot)
  {
    var startR, startC;
    startR, startC, rng' := GenerateHallwaysInRemainingSpace(g, rng);
    forall k | 0 <= k < |loot|
      ensures g[loot[k].row, loot[k].column] == KindTile(loot[k].kind)
    {
      assert InGrid(g, loot[k].row, loot[k].column);
      assert old(g[loot[k].row, loot[k].column]) == KindTile(loot[k].kind);
    }
    forall r, c | InGrid(g, r, c)
      ensures !g[r, c].IsMarker()
    {
      if !Interior(g.Length0, g.Length1, r, c) {
        assert old(g[r, c]) == BoxTile(g.Length0, g.Length1, r, c);
      }
    }
  }

  /** A pass that only takes floor cells keeps the ring, the absence of
      markers, the manifest and the spawners as they were. */
  lemma FloorTakenKeeps(before: Cell, after: Cell, interior: bool)
    requires FloorTaken(before, after, interior)
    ensures !interior ==> after == before
    ensures !before.IsMarker() ==> !after.IsMarker()
    ensures before in {LootChest, LootBarrel, LootCrate, EnemySpawner} ==> after == before
  {
  }

  /** Step 6.6b: at most two spawners on distinct floor cells. */
  method Spawners(g: array2<Cell>, loot: seq<LootRecord>, rng: Source)
    returns (locs: seq<SpawnerRecord>, rng': Source)
    requires g.Length0 == GridRows && g.Length1 == GridColumns
    requires RingSealed(g) && NoMarkers(g) && ManifestHolds(g, loot)
    modifies g
    ensures RingSealed(g) && NoMarkers(g) && ManifestHolds(g, loot)
    ensures |locs| <= EnemySpawnerCount && Distinct(SpawnerCells(locs)) && SpawnersHold(g, locs)
  {
    locs, rng' := PlaceEnemySpawners(g, EnemySpawnerCount, rng);
    forall r, c | InGrid(g, r, c)
      ensures FloorTaken(old(g[r, c]), g[r, c], Interior(g.Length0, g.Length1, r, c))
    {
      if (r, c) in SpawnerCells(locs) {
        var i :| 0 <= i < |locs| && SpawnerCells(locs)[i] == (r, c);
        assert old(FloorCell(g, locs[i].row, locs[i].column));
      }
    }
    forall r, c | InGrid(g, r, c)
      ensures !Interior(g.Length0, g.Length1, r, c) ==> g[r, c] == BoxTile(g.Length0, g.Length1, r, c)
      ensures !g[r, c].IsMarker()
    {
      FloorTakenKeeps(old(g[r, c]), g[r, c], Interior(g.Length0, g.Length1, r, c));
    }
    forall k | 0 <= k < |loot|
      ensures g[loot[k].row, loot[k].column] == KindTile(loot[k].kind)
    {
      var (r, c) := (loot[k].row, loot[k].column);
      assert InGrid(g, r, c);
      FloorTakenKeeps(old(g[r, c]), g[r, c], Interior(g.Length0, g.Length1, r, c));
    }
    forall i | 0 <= i < |locs|
      ensures InGrid(g, locs[i].row, locs[i].column) && g[locs[i].row, locs[i].column] == EnemySpawner
    {
      assert SpawnerCells(locs)[i] == (locs[i].row, locs[i].column);
      assert old(FloorCell(g, locs[i].row, locs[i].column));
    }
  }

  /** place_outside_loot seen cell by cell: it only takes floor cells, and
      the records it returns name exactly the cells it took. */
  method OutsideLootOnFloor(g: array2<Cell>, im: InventoryManager, rng: Source)
    returns (added: seq<LootRecord>, rng': Source)
    requires g.Length0 >= 1
    modifies g
    ensures forall r, c :: InGrid(g, r, c) ==> FloorTaken(old(g[r, c]), g[r, c], Interior(g.Length0, g.Length1, r, c))
    ensures forall i :: 0 <= i < |added| ==> old(FloorCell(g, added[i].row, added[i].column))
    ensures ManifestHolds(g, added) && AllLoot(added) && |added| <= 6
    ensures forall i :: 0 <= i < |added| ==> added[i].kind != Chest && !added[i].stray
  {
    added, rng' := PlaceOutsideLoot(g, im, rng);
    TakenFromFloor(g, added);
    forall r, c | InGrid(g, r, c)
      ensures FloorTaken(old(g[r, c]), g[r, c], Interior(g.Length0, g.Length1, r, c))
    {
      if g[r, c] != old(g[r, c]) {
        var i :| 0 <= i < |added| && Cells(added)[i] == (r, c);
        assert old(FloorCell(g, added[i].row, added[i].column));
      }
    }
  }

  /** spawn_stray_chest_if_lucky seen cell by cell: it only takes floor
      cells, and the record it returns names the cell it took. */
  method StrayChestOnFloor(g: array2<Cell>, im: InventoryManager, rng: Source)
    returns (added: seq<LootRecord>, rng': Source)
    requires g.Length0 >= 1
    modifies g
    ensures forall r, c :: InGrid(g, r, c) ==> FloorTaken(old(g[r, c]), g[r, c], Interior(g.Length0, g.Length1, r, c))
    ensures forall i :: 0 <= i < |added| ==> old(FloorCell(g, added[i].row, added[i].column))
    ensures ManifestHolds(g, added) && AllLoot(added) && |added| <= 1
    ensures forall i :: 0 <= i < |added| ==> added[i].kind == Chest && added[i].stray
  {
    var placed;
    ghost var spots;
    added, placed, rng', spots := SpawnStrayChestIfLucky(g, im, rng);
    TakenFromFloor(g, added);
    forall r, c | InGrid(g, r, c)
      ensures FloorTaken(old(g[r, c]), g[r, c], Interior(g.Length0, g.Length1, r, c))
    {
      if g[r, c] != old(g[r, c]) {
        var i :| 0 <= i < |added| && Cells(added)[i] == (r, c);
        assert old(FloorCell(g, added[i].row, added[i].column));
      }
    }
  }

  /** Step 6.6c: barrels and crates on floor cells, appended to the manifest.
      The earlier containers and the spawners stay where they are. */
  method OutsideLoot(g: array2<Cell>, im: InventoryManager, loot: seq<LootRecord>, locs: seq<SpawnerRecord>,
                     rng: Source)
    returns (added: seq<LootRecord>, rng': Source)
    requires g.Length0 == GridRows && g.Length1 == GridColumns
    requires RingSealed(g) && NoMarkers(g) && ManifestHolds(g, loot) && SpawnersHold(g, locs)
    modifies g
    ensures RingSealed(g) && NoMarkers(g) && ManifestHolds(g, loot + added) && SpawnersHold(g, locs)
    ensures AllLoot(added) && |added| <= 6
    ensures forall i :: 0 <= i < |added| ==> added[i].kind != Chest && !added[i].stray
  {
    added, rng' := OutsideLootOnFloor(g, im, rng);
    forall r, c | InGrid(g, r, c)
      ensures !Interior(g.Length0, g.Length1, r, c) ==> g[r, c] == BoxTile(g.Length0, g.Length1, r, c)
      ensures !g[r, c].IsMarker()
    {
      FloorTakenKeeps(old(g[r, c]), g[r, c], Interior(g.Length0, g.Length1, r, c));
    }
    forall k | 0 <= k < |loot|
      ensures g[loot[k].row, loot[k].column] == KindTile(loot[k].kind)
    {
      var (r, c) := (loot[k].row, loot[k].column);
      assert InGrid(g, r, c);
      FloorTakenKeeps(old(g[r, c]), g[r, c], Interior(g.Length0, g.Length1, r, c));
    }
    forall k | 0 <= k < |locs|
      ensures g[locs[k].row, locs[k].column] == EnemySpawner
    {
      var (r, c) := (locs[k].row, locs[k].column);
      assert InGrid(g, r, c);
      FloorTakenKeeps(old(g[r, c]), g[r, c], Interior(g.Length0, g.Length1, r, c));
    }
    forall i, j | 0 <= i < |loot| && 0 <= j < |added|
      ensures loot[i].Pos() != added[j].Pos()
    {
      assert old(g[loot[i].row, loot[i].column]) == KindTile(loot[i].kind);
      assert old(FloorCell(g, added[j].row, added[j].column));
    }
    ManifestJoin(g, loot, added);
  }

  /** Every cell a list of records names holds a container tile, which is
      neither floor nor a marker. */
  lemma TakenFromFloor(g: array2<Cell>, added: seq<LootRecord>)
    requires ManifestHolds(g, added)
    ensures forall i :: 0 <= i < |added| ==>
      var t := g[Cells(added)[i].0, Cells(added)[i].1]; !IsFloor(t) && !t.IsMarker()
  {
    forall i | 0 <= i < |added|
      ensures var t := g[Cells(added)[i].0, Cells(added)[i].1]; !IsFloor(t) && !t.IsMarker()
    {
      assert Cells(added)[i] == added[i].Pos();
    }
  }

  /** Step 6.6d: at most one rare stray chest on a floor cell, appended to
      the manifest. The earlier containers and the spawners stay. */
  method StrayChest(g: array2<Cell>, im: InventoryManager, loot: seq<LootRecord>, locs: seq<SpawnerRecord>,
                    rng: Source)
    returns (added: seq<LootRecord>, rng': Source)
    requires g.Length0 == GridRows && g.Length1 == GridColumns
    requires RingSealed(g) && NoMarkers(g) && ManifestHolds(g, loot) && SpawnersHold(g, locs)
    modifies g
    ensures RingSealed(g) && NoMarkers(g) && ManifestHolds(g, loot + added) && SpawnersHold(g, locs)
    ensures AllLoot(added) && |added| <= 1
    ensures forall i :: 0 <= i < |added| ==> added[i].kind == Chest && added[i].stray
  {
    added, rng' := StrayChestOnFloor(g, im, rng);
    forall r, c | InGrid(g, r, c)
      ensures !Interior(g.Length0, g.Length1, r, c) ==> g[r, c] == BoxTile(g.Length0, g.Length1, r, c)
      ensures !g[r, c].IsMarker()
    {
      FloorTakenKeeps(old(g[r, c]), g[r, c], Interior(g.Length0, g.Length1, r, c));
    }
    forall k | 0 <= k < |loot|
      ensures g[loot[k].row, loot[k].column] == KindTile(loot[k].kind)
    {
      var (r, c) := (loot[k].row, loot[k].column);
      assert InGrid(g, r, c);
      FloorTakenKeeps(old(g[r, c]), g[r, c], Interior(g.Length0, g.Length1, r, c));
    }
    forall k | 0 <= k < |locs|
      ensures g[locs[k].row, locs[k].column] == EnemySpawner
    {
      var (r, c) := (locs[k].row, locs[k].column);
      assert InGrid(g, r, c);
      FloorTakenKeeps(old(g[r, c]), g[r, c], Interior(g.Length0, g.Length1, r, c));
    }
    forall i, j | 0 <= i < |loot| && 0 <= j < |added|
      ensures loot[i].Pos() != added[j].Pos()
    {
      assert old(g[loot[i].row, loot[i].column]) == KindTile(loot[i].kind);
      assert old(FloorCell(g, added[j].row, added[j].column));
    }
    ManifestJoin(g, loot, added);
  }

  /** generate_dungeon_and_loot, without the printing, the pixel conversion
      and the dictionary output: the grid, the room records, the manifest of
      placed containers in placement order and the spawner records. The ring
      is sealed and no marker is left anywhere; the placed rooms fit inside
      the ring and never overlap; the manifest agrees with the grid, one
      entry per cell; every chest that is not the stray chest lies inside a
      placed room, and the stray chest, when there is one, is the last entry;
      at most two spawners stand on distinct cells. */
  method GenerateDungeonAndLoot(rng: Source)
    returns (g: array2<Cell>, rooms: seq<Room>, loot: seq<LootRecord>, spawners: seq<SpawnerRecord>, rng': Source)
    ensures fresh(g) && g.Length0 == GridRows && g.Length1 == GridColumns
    ensures RingSealed(g) && NoMarkers(g)
    ensures RoomMinCount <= |rooms| <= RoomMaxCount && RoomsFit(g, rooms) && RoomsApart(rooms)
    ensures forall i :: 0 <= i < |rooms| && !rooms[i].placed ==> rooms[i].startR == -1 && rooms[i].startC == -1
    ensures ManifestHolds(g, loot) && AllLoot(loot)
    ensures forall i :: 0 <= i < |loot| && loot[i].kind == Chest && !loot[i].stray ==>
      InSomeRoomInterior(rooms, loot[i].row, loot[i].column)
    ensures forall i :: 0 <= i < |loot| && loot[i].stray ==> loot[i].kind == Chest && i == |loot| - 1
    ensures |spawners| <= EnemySpawnerCount && Distinct(SpawnerCells(spawners)) && SpawnersHold(g, spawners)
  {
    var im := InventoryManager(GearTierWeights);
    g := BuildBox();
    var inRoom, outside, stray;
    rooms, inRoom, rng' := LayOutRooms(g, im, rng);
    rng' := Hallways(g, inRoom, rng');
    spawners, rng' := Spawners(g, inRoom, rng');
    outside, rng' := OutsideLoot(g, im, inRoom, spawners, rng');
    stray, rng' := StrayChest(g, im, inRoom + outside, spawners, rng');
    loot := inRoom + outside + stray;
    forall i | 0 <= i < |loot|
      ensures loot[i].kind == Chest && !loot[i].stray ==> InSomeRoomInterior(rooms, loot[i].row, loot[i].column)
      ensures loot[i].stray ==> loot[i].kind == Chest && i == |loot| - 1
    {
      if i < |inRoom| {
        assert loot[i] == inRoom[i];
      } else if i < |inRoom| + |outside| {
        assert loot[i] == outside[i - |inRoom|];
      } else {
        assert loot[i] == stray[i - |inRoom| - |outside|];
      }
    }
  }
}
