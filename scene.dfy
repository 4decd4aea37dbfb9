/** Scene population: containers inside a room, enemy spawners, outside loot
    and the rare stray chest. Each operation writes tiles into the grid and
    returns the entries it appends to the loot manifest (placed_loot). */
module Scene {
  import opened Common
  import opened Rng
  import opened Tiles
  import opened Grid
  import opened Loot

  datatype RoomType = Small | Medium | Large

  /** One placed_loot entry: its container, whether it is the rare stray
      chest, its cell and its items. */
  datatype LootRecord = LootRecord(kind: ContainerKind, stray: bool, row: int, column: int, loot: seq<GearItem>) {
    function Pos(): (int, int) {
      (row, column)
    }

    /** The manifest's "type" string. */
    function Label(): string {
      match kind
      case Chest => if stray then "Chest [RARE STRAY CHEST]" else "Chest"
      case Barrel => "Barrel"
      case Crate => "Crate"
    }
  }

  /** One spawner_locations entry (the pixel centres are not modelled). */
  datatype SpawnerRecord = SpawnerRecord(row: int, column: int)

  function KindTile(kind: ContainerKind): Cell {
    match kind
    case Chest => LootChest
    case Barrel => LootBarrel
    case Crate => LootCrate
  }

  /** The tile at p after the manifest entries rs were written, in order, over
      the tile t. */
  function Stamp(rs: seq<LootRecord>, p: (int, int), t: Cell): Cell {
    if |rs| == 0 then t
    else if rs[|rs| - 1].Pos() == p then KindTile(rs[|rs| - 1].kind)
    else Stamp(rs[..|rs| - 1], p, t)
  }

  ghost function Cells(rs: seq<LootRecord>): seq<(int, int)> {
    seq(|rs|, i requires 0 <= i < |rs| => rs[i].Pos())
  }

  /** Every entry's items are what its container's generate_loot promises. */
  ghost predicate AllLoot(rs: seq<LootRecord>) {
    forall i :: 0 <= i < |rs| ==> IsContainerLoot(rs[i].kind, rs[i].loot)
  }

  function CountKind(rs: seq<LootRecord>, k: ContainerKind): nat {
    if |rs| == 0 then 0
    else CountKind(rs[..|rs| - 1], k) + (if rs[|rs| - 1].kind == k then 1 else 0)
  }

  lemma StampAppend(rs: seq<LootRecord>, e: LootRecord, p: (int, int), t: Cell)
    ensures Stamp(rs + [e], p, t) == if e.Pos() == p then KindTile(e.kind) else Stamp(rs, p, t)
  {
    assert (rs + [e])[..|rs|] == rs;
  }

  /** Writing a + b is writing a, then b. */
  lemma {:induction false} StampConcat(a: seq<LootRecord>, b: seq<LootRecord>, p: (int, int), t: Cell)
    ensures Stamp(a + b, p, t) == Stamp(b, p, Stamp(a, p, t))
    decreases |b|
  {
    if |b| == 0 {
      assert a + b == a;
    } else {
      var b' := b[..|b| - 1];
      assert a + b == (a + b') + [b[|b| - 1]];
      StampAppend(a + b', b[|b| - 1], p, t);
      StampAppend(b', b[|b| - 1], p, Stamp(a, p, t));
      StampConcat(a, b', p, t);
    }
  }

  /** Cells no entry names keep their tile. */
  lemma {:induction false} StampMiss(rs: seq<LootRecord>, p: (int, int), t: Cell)
    requires p !in Cells(rs)
    ensures Stamp(rs, p, t) == t
  {
    if |rs| > 0 {
      var rs' := rs[..|rs| - 1];
      assert Cells(rs') == Cells(rs)[..|rs| - 1];
      assert Cells(rs)[|rs| - 1] == rs[|rs| - 1].Pos();
      StampMiss(rs', p, t);
    }
  }

  predicate IsContainerTile(t: Cell) {
    t == LootChest || t == LootBarrel || t == LootCrate
  }

  /** A cell some entry names ends up holding a container tile, whatever
      tile lay under it. */
  lemma {:induction false} StampCovered(rs: seq<LootRecord>, p: (int, int), x: Cell, y: Cell)
    requires p in Cells(rs)
    ensures Stamp(rs, p, x) == Stamp(rs, p, y) && IsContainerTile(Stamp(rs, p, x))
  {
    var rs' := rs[..|rs| - 1];
    assert Cells(rs') == Cells(rs)[..|rs| - 1];
    assert Cells(rs)[|rs| - 1] == rs[|rs| - 1].Pos();
    if rs[|rs| - 1].Pos() != p {
      assert p in Cells(rs');
      StampCovered(rs', p, x, y);
    }
  }

  /** With duplicate-free cells, each entry's cell holds its container tile. */
  lemma {:induction false} StampHit(rs: seq<LootRecord>, i: nat, t: Cell)
    requires i < |rs| && Distinct(Cells(rs))
    ensures Stamp(rs, rs[i].Pos(), t) == KindTile(rs[i].kind)
  {
    var rs' := rs[..|rs| - 1];
    if i < |rs| - 1 {
      assert Cells(rs') == Cells(rs)[..|rs| - 1];
      assert Cells(rs)[i] != Cells(rs)[|rs| - 1];
      StampHit(rs', i, t);
    }
  }

  lemma {:induction false} CountConcat(a: seq<LootRecord>, b: seq<LootRecord>, k: ContainerKind)
    ensures CountKind(a + b, k) == CountKind(a, k) + CountKind(b, k)
    decreases |b|
  {
    if |b| == 0 {
      assert a + b == a;
    } else {
      var b' := b[..|b| - 1];
      assert a + b == (a + b') + [b[|b| - 1]];
      assert (a + b)[..|a + b| - 1] == a + b';
      CountConcat(a, b', k);
    }
  }

  /** A run of one container kind counts its whole length for that kind. */
  lemma {:induction false} CountUniform(rs: seq<LootRecord>, kind: ContainerKind, k: ContainerKind)
    requires OfKind(rs, kind)
    ensures CountKind(rs, k) == if k == kind then |rs| else 0
  {
    if |rs| > 0 {
      CountUniform(rs[..|rs| - 1], kind, k);
    }
  }

  /** The manifest agrees with the grid: one entry per cell, and each
      entry's cell holds its container tile. */
  ghost predicate ManifestHolds(g: array2<Cell>, rs: seq<LootRecord>)
    reads g
  {
    && Distinct(Cells(rs))
    && forall i :: 0 <= i < |rs| ==>
         InGrid(g, rs[i].row, rs[i].column) && g[rs[i].row, rs[i].column] == KindTile(rs[i].kind)
  }

  /** Only cells some entry names can change. */
  lemma {:induction false} StampChanged(rs: seq<LootRecord>, p: (int, int), t: Cell)
    ensures Stamp(rs, p, t) != t ==> p in Cells(rs)
  {
    if |rs| > 0 && Stamp(rs, p, t) != t {
      var rs' := rs[..|rs| - 1];
      assert Cells(rs') == Cells(rs)[..|rs| - 1];
      assert Cells(rs)[|rs| - 1] == rs[|rs| - 1].Pos();
      if rs[|rs| - 1].Pos() != p {
        StampChanged(rs', p, t);
        assert p in Cells(rs');
      }
    }
  }

  /** Joining two manifests that hold on the grid and name no cell in common. */
  lemma ManifestJoin(g: array2<Cell>, a: seq<LootRecord>, b: seq<LootRecord>)
    requires ManifestHolds(g, a) && ManifestHolds(g, b)
    requires forall i, j :: 0 <= i < |a| && 0 <= j < |b| ==> a[i].Pos() != b[j].Pos()
    ensures ManifestHolds(g, a + b)
  {
    assert Cells(a + b) == Cells(a) + Cells(b);
    forall x | x in Cells(a)
      ensures x !in Cells(b)
    {
      var i :| 0 <= i < |a| && Cells(a)[i] == x;
      assert forall j :: 0 <= j < |b| ==> Cells(b)[j] != x;
    }
    DistinctConcat(Cells(a), Cells(b));
    forall i | 0 <= i < |a + b|
      ensures InGrid(g, (a + b)[i].row, (a + b)[i].column)
      ensures g[(a + b)[i].row, (a + b)[i].column] == KindTile((a + b)[i].kind)
    {
      if i >= |a| {
        assert (a + b)[i] == b[i - |a|];
      }
    }
  }

  /** The cells of a scan whose tile passed the test, as the source's
      `in [...]` tests: the open tiles of a room and the floor tiles. */
  predicate IsOpen(t: Cell) {
    t == OpenSpace
  }

  /** The entries rs, none of them the stray chest, sit on cells[from..], one
      entry per cell in order. */
  ghost predicate LaidFrom(rs: seq<LootRecord>, cells: seq<(int, int)>, from: nat) {
    && from + |rs| <= |cells|
    && forall i :: 0 <= i < |rs| ==> rs[i].Pos() == cells[from + i] && !rs[i].stray
  }

  ghost predicate OfKind(rs: seq<LootRecord>, kind: ContainerKind) {
    forall i :: 0 <= i < |rs| ==> rs[i].kind == kind
  }

  ghost predicate AllInGrid(g: array2<Cell>, cells: seq<(int, int)>) {
    forall i :: 0 <= i < |cells| ==> InGrid(g, cells[i].0, cells[i].1)
  }

  /** One container of the given kind with its loot on cell p, recorded in
      the manifest entry e. */
  method PlaceContainer(g: array2<Cell>, p: (int, int), kind: ContainerKind, im: InventoryManager, rng: Source)
    returns (e: LootRecord, rng': Source)
    requires InGrid(g, p.0, p.1)
    modifies g
    ensures e.Pos() == p && e.kind == kind && !e.stray && IsContainerLoot(kind, e.loot)
    ensures forall r, c :: InGrid(g, r, c) ==> g[r, c] == if (r, c) == p then KindTile(kind) else old(g[r, c])
  {
    g[p.0, p.1] := KindTile(kind);
    var loot;
    loot, rng' := GenerateLoot(kind, im, rng);
    e := LootRecord(kind, false, p.0, p.1, loot);
  }

  /** Places up to n containers of one kind on cells[used..], stopping early
      (the source's `else: break`) when the cells run out: the barrel and
      crate loops and the single chest of place_containers_in_room. */
  method PlaceRun(g: array2<Cell>, cells: seq<(int, int)>, used: nat, n: int, kind: ContainerKind,
                  im: InventoryManager, rng: Source)
    returns (run: seq<LootRecord>, rng': Source)
    requires used <= |cells|
    requires AllInGrid(g, cells)
    modifies g
    ensures |run| == Min(Max(n, 0), |cells| - used)
    ensures OfKind(run, kind) && LaidFrom(run, cells, used)
    ensures AllLoot(run)
    ensures forall r, c :: InGrid(g, r, c) ==> g[r, c] == Stamp(run, (r, c), old(g[r, c]))
  {
    run, rng' := [], rng;
    var i := 0;
    while i < n && used + i < |cells|
      invariant 0 <= i && used + i <= |cells| && |run| == i
      invariant i <= Max(n, 0)
      invariant forall j :: 0 <= j < i ==>
        run[j].kind == kind && !run[j].stray && run[j].Pos() == cells[used + j]
      invariant AllLoot(run)
      invariant forall r, c :: InGrid(g, r, c) ==> g[r, c] == Stamp(run, (r, c), old(g[r, c]))
      decreases |cells| - i
    {
      var e;
      e, rng' := PlaceContainer(g, cells[used + i], kind, im, rng');
      forall r', c' | InGrid(g, r', c')
        ensures Stamp(run + [e], (r', c'), old(g[r', c'])) == g[r', c']
      {
        StampAppend(run, e, (r', c'), old(g[r', c']));
      }
      run := run + [e];
      i := i + 1;
    }
  }

  /** The room-interior cells that were Open_Space when the scan ran. */
  ghost predicate OpenInRoom(g: array2<Cell>, sr: int, sc: int, w: int, h: int, r: int, c: int)
    reads g
  {
    InRectInterior(sr, sc, w, h, r, c) && InGrid(g, r, c) && g[r, c] == OpenSpace
  }


  /** Two runs laid on consecutive stretches of the cells make one run. */
  lemma RunsJoin(a: seq<LootRecord>, b: seq<LootRecord>, open: seq<(int, int)>, from: nat)
    requires LaidFrom(a, open, from) && LaidFrom(b, open, from + |a|)
    requires AllLoot(a) && AllLoot(b)
    ensures LaidFrom(a + b, open, from)
    ensures AllLoot(a + b)
  {
    forall i | 0 <= i < |a + b|
      ensures (a + b)[i].Pos() == open[from + i] && !(a + b)[i].stray
      ensures IsContainerLoot((a + b)[i].kind, (a + b)[i].loot)
    {
      if i < |a| {
        assert (a + b)[i] == a[i];
      } else {
        assert (a + b)[i] == b[i - |a|];
      }
    }
  }

  /** The chest run of place_containers_in_room: only a Large room draws the
      0.20 chance, and the chest takes the first cell if there is one. */
  method PlaceChest(g: array2<Cell>, open: seq<(int, int)>, roomType: RoomType, im: InventoryManager, rng: Source)
    returns (chest: seq<LootRecord>, rng': Source)
    requires AllInGrid(g, open)
    modifies g
    ensures |chest| <= 1 && (|chest| == 1 ==> roomType == Large)
    ensures OfKind(chest, Chest) && LaidFrom(chest, open, 0)
    ensures AllLoot(chest)
    ensures forall r, c :: InGrid(g, r, c) ==> g[r, c] == Stamp(chest, (r, c), old(g[r, c]))
  {
    chest, rng' := [], rng;
    if roomType == Large {
      var d;
      d, rng' := Percent(rng');
      if d < 20 {
        chest, rng' := PlaceRun(g, open, 0, 1, Chest, im, rng');
      }
    }
  }

  /** The barrel and crate runs of place_containers_in_room, from the first
      unused cell: 1..4 barrels (BARREL_COUNT_MAX // 2), then 1..4 crates. */
  method PlaceBarrelsAndCrates(g: array2<Cell>, open: seq<(int, int)>, used: nat, im: InventoryManager, rng: Source)
    returns (bc: seq<LootRecord>, rng': Source)
    requires used <= |open|
    requires AllInGrid(g, open)
    modifies g
    ensures LaidFrom(bc, open, used)
    ensures AllLoot(bc)
    ensures forall r, c :: InGrid(g, r, c) ==> g[r, c] == Stamp(bc, (r, c), old(g[r, c]))
    ensures CountKind(bc, Chest) == 0 && CountKind(bc, Barrel) <= 4 && CountKind(bc, Crate) <= 4
    ensures |bc| == CountKind(bc, Barrel) + CountKind(bc, Crate)
    ensures CountKind(bc, Barrel) == 0 || CountKind(bc, Crate) == 0 ==> used + |bc| == |open|
  {
    var nb;
    nb, rng' := RandInt(rng, 1, 4);
    var barrels;
    barrels, rng' := PlaceRun(g, open, used, nb, Barrel, im, rng');
    var nc;
    nc, rng' := RandInt(rng', 1, 4);
    var crates;
    crates, rng' := PlaceRun(g, open, used + |barrels|, nc, Crate, im, rng');
    bc := barrels + crates;
    forall r, c | InGrid(g, r, c)
      ensures g[r, c] == Stamp(bc, (r, c), old(g[r, c]))
    {
      StampConcat(barrels, crates, (r, c), old(g[r, c]));
    }
    forall k: ContainerKind
      ensures CountKind(bc, k) == (if k == Barrel then |barrels| else 0) + (if k == Crate then |crates| else 0)
    {
      CountConcat(barrels, crates, k);
      CountUniform(barrels, Barrel, k);
      CountUniform(crates, Crate, k);
    }
    RunsJoin(barrels, crates, open, used);
  }

  /** The three runs of place_containers_in_room on the shuffled cells, each
      run stopping when the cells are exhausted. */
  method LayRuns(g: array2<Cell>, open: seq<(int, int)>, roomType: RoomType, im: InventoryManager, rng: Source)
    returns (added: seq<LootRecord>, rng': Source)
    requires AllInGrid(g, open) && Distinct(open)
    modifies g
    ensures LaidFrom(added, open, 0)
    ensures AllLoot(added)
    ensures forall r, c :: InGrid(g, r, c) ==> g[r, c] == Stamp(added, (r, c), old(g[r, c]))
    ensures CountKind(added, Chest) <= 1 && (CountKind(added, Chest) == 1 ==> roomType == Large)
    ensures CountKind(added, Barrel) <= 4 && CountKind(added, Crate) <= 4
    ensures |added| == CountKind(added, Chest) + CountKind(added, Barrel) + CountKind(added, Crate)
    ensures CountKind(added, Barrel) == 0 || CountKind(added, Crate) == 0 ==> |added| == |open|
  {
    var chest, bc;
    chest, rng' := PlaceChest(g, open, roomType, im, rng);
    bc, rng' := PlaceBarrelsAndCrates(g, open, |chest|, im, rng');
    added := chest + bc;
    forall r, c | InGrid(g, r, c)
      ensures g[r, c] == Stamp(added, (r, c), old(g[r, c]))
    {
      StampConcat(chest, bc, (r, c), old(g[r, c]));
    }
    forall k: ContainerKind
      ensures CountKind(added, k) == CountKind(chest, k) + CountKind(bc, k)
      ensures CountKind(chest, k) == if k == Chest then |chest| else 0
    {
      CountConcat(chest, bc, k);
      CountUniform(chest, Chest, k);
    }
    RunsJoin(chest, bc, open, 0);
  }

  /** The runs with the manifest they leave: one distinct cell per entry,
      holding its container tile, and nothing else changed. */
  method PlaceRuns(g: array2<Cell>, open: seq<(int, int)>, roomType: RoomType, im: InventoryManager, rng: Source)
    returns (added: seq<LootRecord>, rng': Source)
    requires AllInGrid(g, open) && Distinct(open)
    modifies g
    ensures LaidFrom(added, open, 0)
    ensures AllLoot(added)
    ensures forall r, c :: InGrid(g, r, c) ==> g[r, c] == Stamp(added, (r, c), old(g[r, c]))
    ensures CountKind(added, Chest) <= 1 && (CountKind(added, Chest) == 1 ==> roomType == Large)
    ensures CountKind(added, Barrel) <= 4 && CountKind(added, Crate) <= 4
    ensures |added| == CountKind(added, Chest) + CountKind(added, Barrel) + CountKind(added, Crate)
    ensures CountKind(added, Barrel) == 0 || CountKind(added, Crate) == 0 ==> |added| == |open|
    ensures ManifestHolds(g, added)
    ensures forall r, c :: InGrid(g, r, c) && g[r, c] != old(g[r, c]) ==> (r, c) in Cells(added)
  {
    added, rng' := LayRuns(g, open, roomType, im, rng);
    assert Cells(added) == open[..|added|];
    forall i | 0 <= i < |added|
      ensures g[added[i].row, added[i].column] == KindTile(added[i].kind)
    {
      StampHit(added, i, old(g[added[i].row, added[i].column]));
    }
    forall r, c | InGrid(g, r, c) && g[r, c] != old(g[r, c])
      ensures (r, c) in Cells(added)
    {
      StampChanged(added, (r, c), old(g[r, c]));
    }
  }

  /** place_containers_in_room: collect the room's interior Open_Space cells,
      shuffle them and place the three runs on them. */
  method PlaceContainersInRoom(g: array2<Cell>, sr: int, sc: int, w: int, h: int, roomType: RoomType,
                               im: InventoryManager, rng: Source)
    returns (added: seq<LootRecord>, rng': Source)
    requires RectInGrid(g, sr, sc, w, h)
    modifies g
    ensures AllLoot(added) && Distinct(Cells(added))
    ensures forall i :: 0 <= i < |added| ==>
      !added[i].stray && old(OpenInRoom(g, sr, sc, w, h, added[i].row, added[i].column))
    ensures forall r, c :: InGrid(g, r, c) ==> g[r, c] == Stamp(added, (r, c), old(g[r, c]))
    ensures CountKind(added, Chest) <= 1 && (CountKind(added, Chest) == 1 ==> roomType == Large)
    ensures CountKind(added, Barrel) <= 4 && CountKind(added, Crate) <= 4
    ensures |added| == CountKind(added, Chest) + CountKind(added, Barrel) + CountKind(added, Crate)
    ensures CountKind(added, Barrel) == 0 || CountKind(added, Crate) == 0 ==>
      forall r, c :: old(OpenInRoom(g, sr, sc, w, h, r, c)) ==> (r, c) in Cells(added)
    ensures ManifestHolds(g, added)
    ensures forall r, c :: InGrid(g, r, c) && g[r, c] != old(g[r, c]) ==> (r, c) in Cells(added)
    ensures w <= 2 || h <= 2 ==> added == []
  {
    var scanned := ScanGrid(g, sr + 1, sr + h - 1, sc + 1, sc + w - 1, IsOpen);
    var open;
    open, rng' := Shuffle(rng, scanned);
    DistinctPermutation(scanned, open);
    assert forall p :: p in open <==> OpenInRoom(g, sr, sc, w, h, p.0, p.1);
    added, rng' := PlaceRuns(g, open, roomType, im, rng');
    assert Cells(added) == open[..|added|];
    assert |added| == |open| ==> Cells(added) == open;
  }

  ghost function SpawnerCells(locs: seq<SpawnerRecord>): seq<(int, int)> {
    seq(|locs|, i requires 0 <= i < |locs| => (locs[i].row, locs[i].column))
  }

  /** A cell inside the outer ring holding open floor or a hallway: the cells
      the spawner, outside-loot and stray-chest passes may take. */
  ghost predicate FloorCell(g: array2<Cell>, r: int, c: int)
    reads g
  {
    Interior(g.Length0, g.Length1, r, c) && IsFloor(g[r, c])
  }

  /** The scan the spawner, outside-loot and stray-chest passes share: the
      floor cells strictly inside the ring, in row-major order. Reading the
      row length needs at least one row. */
  method FloorCells(g: array2<Cell>) returns (spots: seq<(int, int)>)
    requires g.Length0 >= 1
    ensures forall r, c :: (r, c) in spots <==> FloorCell(g, r, c)
    ensures RowMajorSorted(spots) && Distinct(spots) && AllInGrid(g, spots)
  {
    spots := ScanGrid(g, 1, g.Length0 - 1, 1, g.Length1 - 1, IsFloor);
    assert forall p :: p in spots <==> Scanned(g, 1, g.Length0 - 1, 1, g.Length1 - 1, IsFloor, p);
  }

  /** The floor cells of the whole grid, shuffled. */
  method ShuffledFloor(g: array2<Cell>, rng: Source) returns (spots: seq<(int, int)>, rng': Source)
    requires g.Length0 >= 1
    ensures forall r, c :: (r, c) in spots <==> FloorCell(g, r, c)
    ensures Distinct(spots) && AllInGrid(g, spots)
  {
    var scanned := FloorCells(g);
    spots, rng' := Shuffle(rng, scanned);
    DistinctPermutation(scanned, spots);
  }

  /** place_enemy_spawners: shuffle the floor cells and turn the first
      spawner_count of them (all of them if there are fewer) into spawners. */
  method PlaceEnemySpawners(g: array2<Cell>, count: int, rng: Source) returns (locs: seq<SpawnerRecord>, rng': Source)
    requires g.Length0 >= 1
    modifies g
    ensures |locs| <= Max(count, 0)
    ensures Distinct(SpawnerCells(locs))
    ensures forall i :: 0 <= i < |locs| ==> old(FloorCell(g, locs[i].row, locs[i].column))
    ensures forall r, c :: InGrid(g, r, c) ==>
      g[r, c] == if (r, c) in SpawnerCells(locs) then EnemySpawner else old(g[r, c])
    ensures |locs| < count ==> forall r, c :: old(FloorCell(g, r, c)) ==> (r, c) in SpawnerCells(locs)
  {
    var spots;
    spots, rng' := ShuffledFloor(g, rng);
    locs := [];
    var i := 0;
    while i < |spots| && i < count
      invariant 0 <= i <= |spots| && |locs| == i && i <= Max(count, 0)
      invariant forall j :: 0 <= j < i ==> (locs[j].row, locs[j].column) == spots[j]
      invariant forall r, c :: InGrid(g, r, c) ==>
        g[r, c] == if (r, c) in spots[..i] then EnemySpawner else old(g[r, c])
    {
      var (r, c) := spots[i];
      assert spots[..i + 1] == spots[..i] + [(r, c)];
      g[r, c] := EnemySpawner;
      locs := locs + [SpawnerRecord(r, c)];
      i := i + 1;
    }
    assert SpawnerCells(locs) == spots[..i];
    assert i == |spots| ==> spots[..i] == spots;
    forall a, b | 0 <= a < b < i
      ensures spots[..i][a] != spots[..i][b]
    {
      assert spots[..i][a] == spots[a] && spots[..i][b] == spots[b];
    }
  }

  /** place_outside_loot: shuffle the floor cells, draw 2..6, and on that
      many of them (all of them if there are fewer) place a barrel or a crate,
      chosen one by one. */
  method PlaceOutsideLoot(g: array2<Cell>, im: InventoryManager, rng: Source)
    returns (added: seq<LootRecord>, rng': Source)
    requires g.Length0 >= 1
    modifies g
    ensures AllLoot(added) && |added| <= 6
    ensures forall i :: 0 <= i < |added| ==>
      added[i].kind != Chest && !added[i].stray && old(FloorCell(g, added[i].row, added[i].column))
    ensures forall r, c :: InGrid(g, r, c) ==> g[r, c] == Stamp(added, (r, c), old(g[r, c]))
    ensures |added| < 2 ==> forall r, c :: old(FloorCell(g, r, c)) ==> (r, c) in Cells(added)
    ensures ManifestHolds(g, added)
    ensures forall r, c :: InGrid(g, r, c) && g[r, c] != old(g[r, c]) ==> (r, c) in Cells(added)
  {
    var spots;
    spots, rng' := ShuffledFloor(g, rng);
    var num;
    num, rng' := RandInt(rng', 2, 6);
    added, rng' := LayOutsideLoot(g, spots, num, im, rng');
    assert Cells(added) == spots[..|added|];
    assert |added| == |spots| ==> spots[..|added|] == spots;
    forall i | 0 <= i < |added|
      ensures g[added[i].row, added[i].column] == KindTile(added[i].kind)
    {
      StampHit(added, i, old(g[added[i].row, added[i].column]));
    }
    forall r, c | InGrid(g, r, c) && g[r, c] != old(g[r, c])
      ensures (r, c) in Cells(added)
    {
      StampChanged(added, (r, c), old(g[r, c]));
    }
  }

  /** One iteration of place_outside_loot: a barrel or a crate, drawn with
      equal odds, with its loot, on cell p. */
  method PlaceOutsideContainer(g: array2<Cell>, p: (int, int), im: InventoryManager, rng: Source)
    returns (e: LootRecord, rng': Source)
    requires InGrid(g, p.0, p.1)
    modifies g
    ensures e.Pos() == p && !e.stray && e.kind != Chest && IsContainerLoot(e.kind, e.loot)
    ensures forall r, c :: InGrid(g, r, c) ==> g[r, c] == if (r, c) == p then KindTile(e.kind) else old(g[r, c])
  {
    var kind;
    kind, rng' := Choice(rng, [Barrel, Crate]);
    e, rng' := PlaceContainer(g, p, kind, im, rng');
  }

  /** The loop of place_outside_loot: up to num barrels or crates, each kind
      drawn on its own, on the leading cells of spots. */
  method LayOutsideLoot(g: array2<Cell>, spots: seq<(int, int)>, num: int, im: InventoryManager, rng: Source)
    returns (added: seq<LootRecord>, rng': Source)
    requires AllInGrid(g, spots) && Distinct(spots)
    modifies g
    ensures LaidFrom(added, spots, 0) && AllLoot(added) && Distinct(Cells(added))
    ensures |added| == Min(Max(num, 0), |spots|)
    ensures forall i :: 0 <= i < |added| ==> added[i].kind != Chest
    ensures forall r, c :: InGrid(g, r, c) ==> g[r, c] == Stamp(added, (r, c), old(g[r, c]))
  {
    rng' := rng;
    added := [];
    while |added| < |spots| && |added| < num
      invariant LaidFrom(added, spots, 0) && AllLoot(added) && |added| <= Max(num, 0)
      invariant forall j :: 0 <= j < |added| ==> added[j].kind != Chest
      invariant forall r, c :: InGrid(g, r, c) ==> g[r, c] == Stamp(added, (r, c), old(g[r, c]))
      decreases |spots| - |added|
    {
      var e;
      e, rng' := PlaceOutsideContainer(g, spots[|added|], im, rng');
      forall r', c' | InGrid(g, r', c')
        ensures Stamp(added + [e], (r', c'), old(g[r', c'])) == g[r', c']
      {
        StampAppend(added, e, (r', c'), old(g[r', c']));
      }
      added := added + [e];
    }
    assert Cells(added) == spots[..|added|];
    forall a, b | 0 <= a < b < |added|
      ensures Cells(added)[a] != Cells(added)[b]
    {
      assert Cells(added)[a] == spots[a] && Cells(added)[b] == spots[b];
    }
  }

  /** spawn_stray_chest_if_lucky: with probability 0.01, a chest marked as
      the rare stray chest on one floor cell chosen from the row-major list of
      floor cells (not shuffled); nothing when the draw fails or no floor cell
      is left. The ghost result spots is that list. */
  method SpawnStrayChestIfLucky(g: array2<Cell>, im: InventoryManager, rng: Source)
    returns (added: seq<LootRecord>, placed: bool, rng': Source, ghost spots: seq<(int, int)>)
    requires g.Length0 >= 1
    modifies g
    ensures |added| <= 1 && (placed <==> |added| == 1)
    ensures placed <==> rng.Raw() % 100 == 0 && exists r, c :: old(FloorCell(g, r, c))
    ensures placed ==> RowMajorSorted(spots) && (forall r, c :: (r, c) in spots <==> old(FloorCell(g, r, c)))
    ensures placed ==> |spots| > 0 && added[0].Pos() == spots[rng.Next().Raw() % |spots|]
    ensures forall i :: 0 <= i < |added| ==>
      added[i].kind == Chest && added[i].stray && old(FloorCell(g, added[i].row, added[i].column))
    ensures AllLoot(added)
    ensures forall r, c :: InGrid(g, r, c) ==> g[r, c] == Stamp(added, (r, c), old(g[r, c]))
    ensures ManifestHolds(g, added)
    ensures forall r, c :: InGrid(g, r, c) && g[r, c] != old(g[r, c]) ==> (r, c) in Cells(added)
  {
    added, placed, spots := [], false, [];
    var d;
    d, rng' := Percent(rng);
    if d < 1 {
      var scanned := FloorCells(g);
      spots := scanned;
      if |scanned| == 0 {
        forall r, c
          ensures !old(FloorCell(g, r, c))
        {
          assert (r, c) !in scanned;
        }
        return;
      }
      var cell;
      cell, rng' := Choice(rng', scanned);
      assert FloorCell(g, cell.0, cell.1);
      var (r, c) := cell;
      g[r, c] := LootChest;
      var loot;
      loot, rng' := GenerateLoot(Chest, im, rng');
      added, placed := [LootRecord(Chest, true, r, c, loot)], true;
      assert Cells(added) == [(r, c)];
      forall i | 0 <= i < |added|
        ensures g[added[i].row, added[i].column] == KindTile(added[i].kind)
      {
        StampHit(added, i, old(g[added[i].row, added[i].column]));
      }
      forall r, c | InGrid(g, r, c) && g[r, c] != old(g[r, c])
        ensures (r, c) in Cells(added)
      {
        StampChanged(added, (r, c), old(g[r, c]));
      }
    }
  }
}
