/** The tile vocabulary of the dungeon grid.

    The generator stores string tile names and, while the maze is being carved,
    the two integer markers MAZE_WALL (0) and MAZE_PASSAGE (1) in the same grid.
    Here every named tile and both markers are variants of one datatype. */
module Tiles {

  datatype Cell =
    | NoWall
    | TopLeftCorner | TopRightCorner | BottomLeftCorner | BottomRightCorner
    | TopWall | BottomWall | LeftWall | RightWall
    | HorizontalHallway | VerticalHallway | OpenSpace
    | LootChest | LootBarrel | LootCrate
    | EnemySpawner
    | MazeWall     // the integer marker 0: unclaimed, not yet visited by the maze
    | MazePassage  // the integer marker 1: carved by the maze or by the connector
  {
    /** The two integer markers, as opposed to the string-named tiles. */
    predicate IsMarker() {
      MazeWall? || MazePassage?
    }

    /** The string the source stores for a named tile. */
    function Name(): string
      requires !IsMarker()
    {
      match this
      case NoWall => "No_Wall"
      case TopLeftCorner => "Top_Left_Corner"
      case TopRightCorner => "Top_Right_Corner"
      case BottomLeftCorner => "Bottom_Left_Corner"
      case BottomRightCorner => "Bottom_Right_Corner"
      case TopWall => "Top_Wall"
      case BottomWall => "Bottom_Wall"
      case LeftWall => "Left_Wall"
      case RightWall => "Right_Wall"
      case HorizontalHallway => "Horizontal_Hallway"
      case VerticalHallway => "Vertical_Hallway"
      case OpenSpace => "Open_Space"
      case LootChest => "Loot_Chest"
      case LootBarrel => "Loot_Barrel"
      case LootCrate => "Loot_Crate"
      case EnemySpawner => "Enemy_Spawner"
    }
  }

  predicate EndsWith(s: string, suffix: string) {
    |suffix| <= |s| && s[|s| - |suffix|..] == suffix
  }

  /** The resolution pass's "open neighbour" test, written as the source writes
      it: membership in a fixed list, or a string name ending in "Wall". */
  predicate IsPassageOrRoom(t: Cell) {
    t in {OpenSpace, MazePassage, LootBarrel, LootCrate, LootChest, EnemySpawner}
    || (!t.IsMarker() && EndsWith(t.Name(), "Wall"))
  }

  /** Which tiles the suffix test lets through: the four edge walls and, by the
      same suffix, "No_Wall"; no corner and no hallway tile. */
  lemma PassageOrRoomCases(t: Cell)
    ensures IsPassageOrRoom(t) <==>
      t in {OpenSpace, MazePassage, LootBarrel, LootCrate, LootChest, EnemySpawner,
            TopWall, BottomWall, LeftWall, RightWall, NoWall}
  {
    if !t.IsMarker() {
      var n := t.Name();
      assert EndsWith(n, "Wall") <==> n[|n| - 4..] == "Wall";
    }
  }

  /** The tiles that the spawner, outside-loot and stray-chest passes may
      occupy: open floor and both hallway kinds. */
  predicate IsFloor(t: Cell) {
    t == OpenSpace || t == HorizontalHallway || t == VerticalHallway
  }
}
