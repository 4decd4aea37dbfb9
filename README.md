# Dungeon generator, modelled in Dafny

This project models the procedural dungeon generator in `dungeon_generator.py`. The generator works on a grid of 8 rows by 15 columns: a 3840×2160 canvas cut into 256×256 tiles. It does the following, in order:

1. It seals the grid in a box of corner and edge walls and fills the inside with the integer marker MAZE_WALL.
2. It plans 3 to 8 rooms (Small, Medium or Large), each with a size taken from its type's table and 1 to 4 exits.
3. It places every room that fits on an all-MAZE_WALL area and carves it:
   - Small rooms get a shell and their exits.
   - Medium rooms also get partition lines.
   - Large rooms also get a nested sub-room.
   - Every room then gets containers inside it: a chest (Large rooms only), barrels and crates.
4. It opens the MAZE_WALL cell outside each exit as MAZE_PASSAGE.
5. It grows a recursive-backtracking maze through the remaining MAZE_WALL cells and turns both markers into open floor and hallway tiles.
6. It places enemy spawners, then outside barrels and crates, then (one time in a hundred) a stray chest on the remaining floor.

Every container rolls its gear through the InventoryManager's weighted tier roll. The manifest of placed containers (`placed_loot`) is the generator's loot output.

The grid is an `array2<Cell>`, and every pass that rewrites it is a method with `modifies g`. Each method states the new grid cell by cell, in terms of the old grid and of value-level functions (`Grid.BoxTile`, `Rooms.RoomTile`, `Maze.Resolve`, `Scene.Stamp`). Lemmas then prove properties of those functions that the rest of the generator relies on: exits on the border, containers inside the room, passages only on maze cells, and so on.

Randomness is an input. `Rng.Source` is an arbitrary infinite tape of draws plus a read position, so every property holds for every possible sequence of random outcomes. The main result is `Pipeline.GenerateDungeonAndLoot`, which promises:
- the final grid keeps its sealed ring and holds no marker;
- the rooms fit inside the ring and lie apart;
- every manifest entry sits on a cell that holds its container tile, with no two entries on one cell, and its loot is what its container promises;
- in-room chests lie inside rooms, and the stray chest, if any, is the last entry;
- there are at most two spawners, on distinct cells.

Modules, in dependency order:
- **Common**: Option, Min, Max, duplicate-free sequences.
- **Rng**: the random source.
- **Tiles**: the tile vocabulary.
- **Grid**: the box, the inner fill and the scans.
- **Loot**: the loot roller.
- **Scene**: container placement, spawners, outside loot, the stray chest.
- **Rooms**: room carving.
- **Placement**: room planning and placement.
- **Connector**: room-to-maze connection.
- **Maze**: the hallway maze and marker resolution.
- **Pipeline**: the whole generation.

## Model

| member | source | states |
|---|---|---|
| Grid.GridSize | dungeon_generator.py:10-15 | the configured canvas and tile sizes give a grid of 15 columns and 8 rows |
| Grid.GenerateInitialBoxDungeon | dungeon_generator.py:260-273 | every cell of the fresh rows×columns grid holds the box tile: edge walls on the four sides, corners where the corner writes left them |
| Grid.InitializeInnerGrid | dungeon_generator.py:275-282 | every interior cell becomes MAZE_WALL and the ring is untouched |
| Grid.SealedBox | dungeon_generator.py:260-282 | after both steps the four corners and four edges hold their wall tiles, MAZE_WALL is exactly the interior, and no cell is MAZE_PASSAGE |
| Grid.ScanGrid | dungeon_generator.py:489-492 | the collected cells are exactly those of the rectangle whose tile passes the test, in row-major order and without duplicates |
| Grid.AllTiles | dungeon_generator.py:707-710 | the early-exit check answers true exactly when every cell of the rectangle holds the tile |
| Rng.RandInt | dungeon_generator.py:149 | randint(a, b) returns a value in [a, b] fixed by one draw and consumes exactly that draw |
| Rng.Percent | dungeon_generator.py:152 | a random() < p test is one draw reduced to [0, 100) |
| Rng.Choice | dungeon_generator.py:183 | choice returns an element of the list, fixed by one draw |
| Rng.Shuffle | dungeon_generator.py:289 | shuffle returns a permutation (same multiset, same length) of its input |
| Tiles.PassageOrRoomCases | dungeon_generator.py:329-331 | the resolution pass's open-neighbour test admits exactly open floor, passage, the three containers, the spawner, the four edge walls and No_Wall, and no corner or hallway tile |
| Loot.IndexOf | dungeon_generator.py:113-118 | list.index finds the first occurrence, and fails exactly when the tier is not in the list |
| Loot.Pick | dungeon_generator.py:135 | the weighted choice picks the index whose running-total interval contains the draw |
| Loot.RollAmongSpec | dungeon_generator.py:121-139 | if some valid tier has positive weight, the roll consumes one draw and yields a valid tier with positive weight; otherwise it yields "F" and consumes nothing |
| Loot.RollWeightedTierSpec | dungeon_generator.py:113-139 | between two known tiers the roll yields a weighted tier ranked between them, or "F" when no tier of the range has weight |
| Loot.UnknownTierFails | dungeon_generator.py:116-118 | the roll fails exactly when a bound names no tier |
| Loot.FallbackWhenRangeWeightless | dungeon_generator.py:130-131 | a B..S roll whose three tiers all have zero weight falls back to "F" |
| Loot.GenerateGear | dungeon_generator.py:180-191 | the item has the indexed tier, the type picked by one draw from the type list, the name "<tier> Tier <type>" and the placeholder stats |
| Loot.RollHighTierItem | dungeon_generator.py:151-157 | one item of the chest's first loop: well-formed and of tier A or S |
| Loot.RollHighTierItems | dungeon_generator.py:149-157 | the chest's first loop yields exactly count items, each well-formed and of tier A or S |
| Loot.RollLowTierItems | dungeon_generator.py:160-163 | the chest's second loop yields exactly count items, each well-formed and of a tier from F to B |
| Loot.RollChestLoot | dungeon_generator.py:145-168 | chest loot is 1 to 4 A/S items followed by 0 to 4 items of tier F to B |
| Loot.ChestLootBounded | dungeon_generator.py:166-168 | chest loot always holds between 1 and 8 items and starts with an A or S item, so the trimming branch never runs |
| Loot.RollRangeLoot | dungeon_generator.py:170-176 | the barrel/crate loop yields between min and max items, each well-formed and of tier "F" or ranked between the bounds |
| Loot.RollLoot | dungeon_generator.py:141-178 | both branches of _roll_loot together: chest loot for a chest, otherwise a count within bounds and tiers within range |
| Loot.GenerateLoot | dungeon_generator.py:206-255 | a chest's loot is chest loot; a barrel holds exactly 4 items and a crate exactly 6, all of tier A or lower |
| Scene.PlaceContainer | dungeon_generator.py:390-406 | one container of the kind, with the loot its kind promises, is written on the cell and recorded there; no other cell changes |
| Scene.StampChanged | dungeon_generator.py:352-431 | only a cell some manifest entry names can be changed by writing the entries |
| Scene.ManifestJoin | dungeon_generator.py:377-382 | two manifests that both hold on the grid and name disjoint cells hold together |
| Scene.PlaceChest | dungeon_generator.py:368-383 | at most one chest is placed, only in a Large room, on the first shuffled open tile |
| Scene.PlaceBarrelsAndCrates | dungeon_generator.py:385-429 | at most 4 barrels and 4 crates on consecutive shuffled open tiles, and when no barrel or no crate was placed (each count is at least 1) the open tiles were all used |
| Scene.PlaceContainersInRoom | dungeon_generator.py:352-431 | every entry sits on a distinct cell that was open floor inside the room, holds its container's loot, and only those cells change; at most one chest, and only in a Large room; a room 2 wide or tall gets nothing |
| Scene.FloorCells | dungeon_generator.py:446-455 | the interior open-floor and hallway cells, each once, in row-major order |
| Scene.ShuffledFloor | dungeon_generator.py:526-536 | the candidate spots are exactly the interior open-floor and hallway cells, without duplicates |
| Scene.PlaceEnemySpawners | dungeon_generator.py:523-553 | at most count spawners on distinct cells that were floor; exactly those cells become Enemy_Spawner; fewer only when the floor ran out |
| Scene.LayOutsideLoot | dungeon_generator.py:499-519 | the first min(num, spots) shuffled spots each get a barrel or a crate with its loot |
| Scene.PlaceOutsideLoot | dungeon_generator.py:483-521 | at most 6 barrels or crates on distinct former floor cells, fewer than 2 only when the floor ran out; only those cells change |
| Scene.SpawnStrayChestIfLucky | dungeon_generator.py:434-480 | a stray chest is placed exactly when the 1% draw hits and a floor cell exists; the candidates are the interior floor cells in row-major order, not shuffled, and the chest lands on the one the next draw picks from that list; nothing else changes |
| Rooms.EdgeAtSpec | dungeon_generator.py:580-582 | the exit-candidate list holds every non-corner border cell, and each exactly once |
| Rooms.WallTiles | dungeon_generator.py:580-582 | the candidate list is built in the source's order: top and bottom of each inner column, then left and right of each inner row |
| Rooms.CarveShell | dungeon_generator.py:562-578 | the rectangle gets corners, edge walls and open interior; cells outside it are untouched |
| Rooms.OpenExits | dungeon_generator.py:583-588 | the first exits_required shuffled candidates, or all of them, become open floor |
| Rooms.CarvedInterior | dungeon_generator.py:558-592 | the interior of a freshly carved shell is open floor |
| Rooms.CarveSmallRoom | dungeon_generator.py:558-592 | distinct non-corner exits, as many as required or as the border offers; containers only on interior cells; the grid is the shell with its exits, stamped with the entries |
| Rooms.PartitionEffect | dungeon_generator.py:605-618 | a partition line changes only open floor it crosses, which becomes the hallway of the first line to cross it |
| Rooms.DrawLine | dungeon_generator.py:609-618 | one line turns the open floor it crosses into hallway, and nothing else |
| Rooms.CarvePartitions | dungeon_generator.py:601-618 | 1 to 3 lines inside the interior when it is at least 2×2, none otherwise |
| Rooms.FindSubStart | dungeon_generator.py:655-665 | the first candidate whose whole footprint is open floor, or none |
| Rooms.CarveSubRoom | dungeon_generator.py:648-665 | a sub-room is carved on an all-open footprint inside the interior, with one exit, or no candidate had one |
| Rooms.StampPartition | dungeon_generator.py:594-622 | containers and partition lines commute, since lines only touch open floor |
| Rooms.StampSub | dungeon_generator.py:624-669 | containers outside the sub-room commute with carving it |
| Rooms.CarveMediumRoom | dungeon_generator.py:594-622 | the shell with exits, then partitions, then containers (no chest), all inside the room |
| Rooms.CarveLargeRoom | dungeon_generator.py:624-669 | the shell with exits, partitions, an optional sub-room, then containers with at most one chest |
| Rooms.RoomShape | dungeon_generator.py:558-669 | carving changes nothing outside the room, leaves no marker inside it, keeps the border as the shell and exits, and a border non-corner is open exactly when it is an exit |
| Placement.PlanRoom | dungeon_generator.py:677-698 | one room from three draws: type by the percent roll, size from its type's table, 1 to 4 exits, not yet placed |
| Placement.GenerateRoomsData | dungeon_generator.py:673-699 | 3 to 8 rooms, room i planned from its own three draws |
| Placement.IsAreaClear | dungeon_generator.py:701-710 | clear exactly when the rectangle lies inside the ring and is all MAZE_WALL |
| Placement.FindClearArea | dungeon_generator.py:712-724 | (-1, -1) exactly when no start is clear; otherwise a clear start |
| Placement.ApartByCorner | dungeon_generator.py:726-746 | two rooms that do not share the cell at their overlap's corner do not overlap |
| Placement.ClearAreaApart | dungeon_generator.py:729-731 | an area that is all MAZE_WALL overlaps no room already placed, since every placed room's cells hold named tiles |
| Placement.CarveRoom | dungeon_generator.py:737-742 | the type dispatch: exits, sub-room and containers as the type allows, and the grid as RoomTile gives it |
| Placement.CarveAt | dungeon_generator.py:728-742 | only the room's cells change, none is left a marker, the border holds its shell and exits, and the entries lie in the room's interior |
| Placement.PlaceRoomsInDungeon | dungeon_generator.py:726-746 | a room that could not be placed is returned unchanged, and no area of its size is clear on the final grid (the loop carries this from the room's own turn, when no area was clear, because carving only removes MAZE_WALL); a placed one was carved on an all-MAZE_WALL area; only room cells change, and none of them holds a marker |
| Connector.FeederInverse | dungeon_generator.py:759-766 | the outward step from a perimeter cell is one-to-one: each outside cell has at most one feeding perimeter cell |
| Connector.ConnectRoom | dungeon_generator.py:750-772 | exactly the MAZE_WALL cells within the maze bounds that an opened perimeter cell of the room steps onto become MAZE_PASSAGE |
| Connector.ConnectRoomsToHallways | dungeon_generator.py:748-774 | over all placed rooms, a cell changes exactly when it is such a target, and only from MAZE_WALL to MAZE_PASSAGE; the order of rooms does not matter |
| Connector.ExitReached | dungeon_generator.py:757-772 | an opened perimeter cell whose outward neighbour is MAZE_WALL within the bounds gets that neighbour connected |
| Maze.MarkPassage | dungeon_generator.py:287 | marking shrinks the set of in-bounds MAZE_WALL cells, which is the recursion's measure |
| Maze.CarvePassages | dungeon_generator.py:285-297 | from an odd/odd start, the backtracker ends and marks its start as passage; every cell it changes lies in the maze bounds, has an odd coordinate and becomes MAZE_PASSAGE; on a grid without thin named tiles (NoThin: no named tile sits between two markers in a row or column, which Pipeline.NoThinFromRooms establishes for the generator's grid) every changed cell held a marker, so named tiles are never written; on any other grid the cell between two markers may be overwritten whatever it held, as the unchecked write at dungeon_generator.py:296 allows |
| Maze.CollectWallStarts | dungeon_generator.py:305-309 | the start candidates are exactly the odd-row, odd-column interior MAZE_WALL cells, in row-major order |
| Maze.ResolveCases | dungeon_generator.py:317-345 | named tiles stay, passage becomes open floor, a wall becomes vertical hallway exactly when open only north/south, horizontal exactly when open only west/east, and open floor otherwise |
| Maze.WallTileTranspose | dungeon_generator.py:339-345 | the wall rule is symmetric under swapping the two axes |
| Maze.ResolveCell | dungeon_generator.py:318-343 | one visit of the conversion pass: the cell becomes the tile resolved from its four neighbours as they stand, and no other cell changes |
| Maze.ResolveMarkers | dungeon_generator.py:317-345 | the in-place conversion pass: each interior cell is resolved from the updated north and west neighbours and the not-yet-visited south and east ones; the ring is untouched |
| Maze.HallwayCell | dungeon_generator.py:299-345 | after carving and resolving, a cell holds no marker, an old passage is open floor, and a named tile is unchanged when it lies outside the maze bounds or the carve ran on a grid without thin named tiles (NoThin: no named tile sits between two markers in a row or column, which Pipeline.NoThinFromRooms establishes for the generator's grid) |
| Maze.GenerateHallwaysInRemainingSpace | dungeon_generator.py:299-347 | (-1, -1) exactly when no start exists; otherwise the start ends as open floor; no interior marker is left; the ring is untouched; on a grid without thin named tiles (NoThin: no named tile sits between two markers in a row or column, which Pipeline.NoThinFromRooms establishes for the generator's grid), all named tiles are untouched |
| Pipeline.BuildBox | dungeon_generator.py:839-841 | the initial grid is the sealed box filled with MAZE_WALL |
| Pipeline.NoThinFromRooms | dungeon_generator.py:726-746 | when the named interior cells are exactly the room cells, every named tile has named neighbours along both axes, so the maze never runs past it |
| Pipeline.LayOutRooms | dungeon_generator.py:842-853 | after placement and connection the ring is sealed, the named interior cells are exactly the room cells, and the in-room manifest holds |
| Pipeline.Spawners | dungeon_generator.py:858-859 | at most two spawners on distinct cells, each holding Enemy_Spawner, with the ring and the manifest kept |
| Pipeline.TakenFromFloor | dungeon_generator.py:861-865 | a cell holding a manifest entry is no longer floor, so later floor passes cannot reuse it |
| Pipeline.GenerateDungeonAndLoot | dungeon_generator.py:831-865 | the final grid is 8×15 with a sealed ring and no marker; a plan of 3 to 8 rooms whose placed ones fit and lie apart, and whose unplaced ones keep start (-1, -1); a manifest whose every entry holds on the grid with its container's loot; in-room chests inside rooms; the stray chest last; at most two distinct spawners |

## Left out

- Printing, the ASCII map, the focus tile and the warning messages in generate_dungeon_and_loot (lines 844-931) are output only and are not modelled.
- process_final_loot_output, grid_to_detailed_dictionary and get_tile_coordinates_str turn the result into pixel coordinates with floats and into dictionaries. They are not modelled, and the spawner records carry only row and column.
- sys.setrecursionlimit is not modelled. Recursion depth is unbounded in Dafny.
- The GEAR_STAT_IMPACTS table is empty. Every item's stats are modelled as the placeholder string.
- Randomness is a tape of draws, not a distribution. No probability (the 20% chest chance, the 1% stray chance, the tier weights as frequencies) is stated.
- random.random() < p is a percent draw below 100·p.
- random.sample on chest loot is not modelled, because `Loot.ChestLootBounded` proves that branch unreachable.
- Room dictionaries are the `Placement.Room` datatype. Placement returns the updated room list instead of mutating the dictionaries.
- The placed_loot list is modelled as the entries each pass returns, joined in the order the generator appends them.
- A 2×2 room has no non-corner border cells, so the carving code gives it no exit, whatever exits_required says. That count is drawn by `randint(ROOM_MIN_EXITS, ROOM_MAX_EXITS)`, which gives 1 to 4 (dungeon_generator.py:688). The model follows the carving code, and `Rooms.ExitsOf` says "as many as required or as the border offers".
- Rooms.CarveSmallRoom, Rooms.CarveMediumRoom, Rooms.CarveLargeRoom: require width and height of at least 2, because every call site passes a size of at least 2: the three size tables (dungeon_generator.py:52-54) and the 2×2 to 3×2 sub-room draw (dungeon_generator.py:649). The code itself stays inside the rectangle for a width or height of 1, and the model does not cover that case.
- Maze.GenerateHallwaysInRemainingSpace: requires a grid of exactly GRID_ROWS×GRID_COLUMNS. The maze tests its bounds against those module constants, whatever grid it gets, and the generator only ever passes a grid of that size.
- Maze.CarvePassages: does not state that the backtracker leaves a perfect maze (every reachable odd cell visited, no cycles). It states only what it may change and that it ends.
- Pipeline.GenerateDungeonAndLoot: does not state that the rooms are connected to one another. The source makes no such check, and a 2×2 room gets no exit at all.
- Grid.ScanGrid: is unit-stride only. The stride-2 start scan of the maze is `Maze.CollectWallStarts`.
