/** The loot roller: the InventoryManager's weighted tier roll, gear creation,
    per-container loot rolling, and the Chest, Barrel and Crate containers. */
module Loot {
  import opened Common
  import opened Rng

  /** Gear tiers, ranked from F (lowest) to S (highest). */
  const GearTiers: seq<string> := ["F", "E", "D", "C", "B", "A", "S"]
  const GearTypes: seq<string> :=
    ["Weapon Part", "Armor Part", "Food", "Scroll", "Spell", "Card", "Trinket", "Junk"]
  /** The game's tier weights; they sum to 100. */
  const GearTierWeights: map<string, nat> :=
    map["S" := 3, "A" := 5, "B" := 15, "C" := 25, "D" := 25, "E" := 20, "F" := 7]
  const MinLootItems: int := 1
  const MaxLootItems: int := 8
  /** Every item type misses the (empty) stat table, so every item gets this. */
  const NoStats: string := "No defined stats yet"

  datatype GearItem = GearItem(tier: string, itemType: string, name: string, stats: string)

  /** The manager is immutable after construction: it only holds the weights. */
  datatype InventoryManager = InventoryManager(tierWeights: map<string, nat>)

  /** A well-formed item: known tier and type, the display name
      "<tier> Tier <type>" and the placeholder stats. */
  ghost predicate IsGear(item: GearItem) {
    && item.tier in GearTiers
    && item.itemType in GearTypes
    && item.name == item.tier + " Tier " + item.itemType
    && item.stats == NoStats
  }

  /** list.index: the position of the first occurrence; None where Python raises. */
  function IndexOf(xs: seq<string>, x: string): (r: Option<nat>)
    ensures r.None? <==> x !in xs
    ensures r.Some? ==> r.value < |xs| && xs[r.value] == x && x !in xs[..r.value]
  {
    if xs == [] then None
    else if xs[0] == x then Some(0)
    else match IndexOf(xs[1..], x)
      case None => None
      case Some(k) => assert xs[1..][..k] == xs[1..k + 1]; Some(k + 1)
  }

  function TierRank(t: string): (k: nat)
    requires t in GearTiers
    ensures k < |GearTiers| && GearTiers[k] == t
  {
    IndexOf(GearTiers, t).value
  }

  lemma RankOfTier(i: nat)
    requires i < |GearTiers|
    ensures TierRank(GearTiers[i]) == i
  {
  }

  /** Python's GEAR_TIERS[lo:hi]: empty when lo is not below hi. */
  function Slice(xs: seq<string>, lo: nat, hi: nat): seq<string>
    requires hi <= |xs|
  {
    if lo <= hi then xs[lo..hi] else []
  }

  /** The tiers of the slice that appear in the weight table, in order. */
  function Candidates(tiers: seq<string>, weights: map<string, nat>): (cs: seq<string>)
    ensures forall t :: t in cs ==> t in tiers && t in weights
  {
    if tiers == [] then []
    else (if tiers[0] in weights then [tiers[0]] else []) + Candidates(tiers[1..], weights)
  }

  function WeightsOf(cs: seq<string>, weights: map<string, nat>): (ws: seq<nat>)
    requires forall t :: t in cs ==> t in weights
    ensures |ws| == |cs|
    ensures forall k :: 0 <= k < |cs| ==> ws[k] == weights[cs[k]]
  {
    if cs == [] then [] else [weights[cs[0]]] + WeightsOf(cs[1..], weights)
  }

  function Sum(ws: seq<nat>): nat {
    if ws == [] then 0 else ws[0] + Sum(ws[1..])
  }

  /** random.choices(k=1) given the draw u in [0, Sum(ws)): the bisection over
      the running totals selects the first index whose running total exceeds u. */
  function Pick(ws: seq<nat>, u: nat): (i: nat)
    requires u < Sum(ws)
    ensures i < |ws|
    ensures Sum(ws[..i]) <= u < Sum(ws[..i]) + ws[i]
  {
    if u < ws[0] then
      assert ws[..0] == [];
      0
    else
      var j := Pick(ws[1..], u - ws[0]);
      assert ws[..j + 1] == [ws[0]] + ws[1..][..j];
      assert Sum(ws[..j + 1]) == ws[0] + Sum(ws[1..][..j]);
      assert ws[j + 1] == ws[1..][j];
      j + 1
  }

  /** A tier the roll can produce: present in the table with a positive weight. */
  predicate Weighted(weights: map<string, nat>, t: string) {
    t in weights && weights[t] > 0
  }

  datatype TierRoll = Rolled(tier: string, rest: Source) | UnknownTier(name: string)

  /** InventoryManager._roll_weighted_tier: look both bounds up (an unknown
      name raises), take the slice of tiers between them, and roll among it. */
  function RollWeightedTier(im: InventoryManager, minTier: string, maxTier: string, rng: Source): TierRoll {
    match IndexOf(GearTiers, minTier)
    case None => UnknownTier(minTier)
    case Some(lo) =>
      match IndexOf(GearTiers, maxTier)
      case None => UnknownTier(maxTier)
      case Some(hi) => RollAmong(Slice(GearTiers, lo, hi + 1), im.tierWeights, rng)
  }

  /** Steps 2 to 4 of the tier roll over the valid tiers: keep those in the
      table, fall back to "F" when none is left or their weights sum to 0, and
      otherwise make one weighted draw. */
  function RollAmong(valid: seq<string>, weights: map<string, nat>, rng: Source): TierRoll {
    var choices := Candidates(valid, weights);
    var ws := WeightsOf(choices, weights);
    if |choices| == 0 || Sum(ws) == 0 then Rolled("F", rng)
    else Rolled(choices[Pick(ws, rng.Raw() % Sum(ws))], rng.Next())
  }

  lemma {:induction false} SumZero(ws: seq<nat>)
    ensures Sum(ws) == 0 <==> forall k :: 0 <= k < |ws| ==> ws[k] == 0
  {
    if ws != [] {
      SumZero(ws[1..]);
      assert forall k :: 1 <= k < |ws| ==> ws[k] == ws[1..][k - 1];
    }
  }

  lemma {:induction false} CandidatesMember(tiers: seq<string>, weights: map<string, nat>, k: nat)
    requires k < |tiers| && tiers[k] in weights
    ensures tiers[k] in Candidates(tiers, weights)
  {
    if k > 0 {
      CandidatesMember(tiers[1..], weights, k - 1);
    }
  }

  /** The roll among a list of tiers draws exactly when one of them carries
      weight, and then returns a weighted tier of that list. */
  lemma RollAmongSpec(valid: seq<string>, weights: map<string, nat>, rng: Source)
    ensures var r := RollAmong(valid, weights, rng);
      if exists k :: 0 <= k < |valid| && Weighted(weights, valid[k]) then
        r.Rolled? && r.rest == rng.Next() && r.tier in valid && Weighted(weights, r.tier)
      else
        r == Rolled("F", rng)
  {
    var cs := Candidates(valid, weights);
    var ws := WeightsOf(cs, weights);
    SumZero(ws);
    if exists k :: 0 <= k < |valid| && Weighted(weights, valid[k]) {
      var k :| 0 <= k < |valid| && Weighted(weights, valid[k]);
      CandidatesMember(valid, weights, k);
      var m :| 0 <= m < |cs| && cs[m] == valid[k];
      assert ws[m] > 0;
      var p := Pick(ws, rng.Raw() % Sum(ws));
      assert ws[p] > 0;
    } else {
      forall m | 0 <= m < |cs| ensures ws[m] == 0 {
        assert cs[m] in valid;
      }
    }
  }

  /** The slice between two ranks holds exactly the tiers ranked between them. */
  lemma SliceRanks(lo: nat, hi: nat, t: string)
    requires lo <= hi < |GearTiers|
    ensures t in Slice(GearTiers, lo, hi + 1) <==> t in GearTiers && lo <= TierRank(t) <= hi
  {
    var s := Slice(GearTiers, lo, hi + 1);
    assert s == GearTiers[lo..hi + 1];
    if t in s {
      var m :| 0 <= m < |s| && s[m] == t;
      assert t == GearTiers[lo + m];
      RankOfTier(lo + m);
    }
    if t in GearTiers && lo <= TierRank(t) <= hi {
      var k := TierRank(t);
      assert s[k - lo] == GearTiers[k];
    }
  }

  /** Some tier ranked between lo and hi carries weight exactly when some
      entry of the slice does. */
  lemma SliceWeighted(lo: nat, hi: nat, weights: map<string, nat>, s: seq<string>)
    requires lo < |GearTiers| && hi < |GearTiers| && s == Slice(GearTiers, lo, hi + 1)
    ensures (exists i :: lo <= i <= hi && 0 <= i < |GearTiers| && Weighted(weights, GearTiers[i])) <==>
            (exists k :: 0 <= k < |s| && Weighted(weights, s[k]))
  {
    if exists i :: lo <= i <= hi && 0 <= i < |GearTiers| && Weighted(weights, GearTiers[i]) {
      var i :| lo <= i <= hi && 0 <= i < |GearTiers| && Weighted(weights, GearTiers[i]);
      assert s[i - lo] == GearTiers[i];
    }
    if exists k :: 0 <= k < |s| && Weighted(weights, s[k]) {
      var k :| 0 <= k < |s| && Weighted(weights, s[k]);
      assert s[k] == GearTiers[lo + k];
    }
  }

  /** An unknown tier name makes the roll fail (Python's .index raises). */
  lemma UnknownTierFails(im: InventoryManager, minTier: string, maxTier: string, rng: Source)
    ensures RollWeightedTier(im, minTier, maxTier, rng).UnknownTier? <==>
      minTier !in GearTiers || maxTier !in GearTiers
  {
  }

  /** What the tier roll promises for known names. When some tier ranked
      between the two bounds carries weight, the roll consumes one draw and
      returns such a tier; otherwise it returns "F" without drawing, even when
      F lies outside the requested range. */
  lemma RollWeightedTierSpec(im: InventoryManager, minTier: string, maxTier: string, rng: Source)
    requires minTier in GearTiers && maxTier in GearTiers
    ensures var r := RollWeightedTier(im, minTier, maxTier, rng);
      var lo, hi := TierRank(minTier), TierRank(maxTier);
      if exists i :: lo <= i <= hi && 0 <= i < |GearTiers| && Weighted(im.tierWeights, GearTiers[i]) then
        && r.Rolled? && r.rest == rng.Next()
        && r.tier in GearTiers && lo <= TierRank(r.tier) <= hi
        && Weighted(im.tierWeights, r.tier)
      else
        r == Rolled("F", rng)
  {
    var lo, hi := TierRank(minTier), TierRank(maxTier);
    var slice := Slice(GearTiers, lo, hi + 1);
    assert RollWeightedTier(im, minTier, maxTier, rng) == RollAmong(slice, im.tierWeights, rng);
    RollAmongSpec(slice, im.tierWeights, rng);
    SliceWeighted(lo, hi, im.tierWeights, slice);
    var r := RollAmong(slice, im.tierWeights, rng);
    if r.Rolled? && r.tier in slice {
      SliceRanks(lo, hi, r.tier);
    }
  }

  /** The corollary the loot loops use: a known range always yields a known
      tier inside the range or the fallback F. */
  lemma RollWeightedTierRange(im: InventoryManager, minTier: string, maxTier: string, rng: Source)
    requires minTier in GearTiers && maxTier in GearTiers
    ensures var r := RollWeightedTier(im, minTier, maxTier, rng);
      r.Rolled? && r.tier in GearTiers &&
      (r.tier == "F" || TierRank(minTier) <= TierRank(r.tier) <= TierRank(maxTier))
  {
    RollWeightedTierSpec(im, minTier, maxTier, rng);
  }

  /** Asking for B..S under a table that gives B, A and S no weight falls back to F. */
  lemma FallbackWhenRangeWeightless(weights: map<string, nat>, rng: Source)
    requires forall t :: t in ["B", "A", "S"] ==> !Weighted(weights, t)
    ensures RollWeightedTier(InventoryManager(weights), "B", "S", rng) == Rolled("F", rng)
  {
    RollWeightedTierSpec(InventoryManager(weights), "B", "S", rng);
    RankOfTier(4);
    RankOfTier(6);
    assert forall i :: 4 <= i <= 6 ==> GearTiers[i] in ["B", "A", "S"];
  }

  /** InventoryManager.generate_gear: the tier at the given rank and a randomly
      chosen item type. */
  method GenerateGear(tierIndex: nat, rng: Source) returns (item: GearItem, rng': Source)
    requires tierIndex < |GearTiers|
    ensures IsGear(item) && item.tier == GearTiers[tierIndex]
    ensures item.itemType == GearTypes[rng.Raw() % |GearTypes|] && rng' == rng.Next()
  {
    var tier := GearTiers[tierIndex];
    var itemType;
    itemType, rng' := Choice(rng, GearTypes);
    item := GearItem(tier, itemType, tier + " Tier " + itemType, NoStats);
  }

  /** The tiers a chest's second phase draws from: F through B. */
  const LowTiers: seq<string> := GearTiers[..5]

  /** The chest's shape, with k the size of its first phase: 1..4 items of tier
      A or S, then 0..4 items of tier F..B. */
  ghost predicate ChestSplit(loot: seq<GearItem>, k: int) {
    && 1 <= k <= 4 && k <= |loot| <= k + 4
    && (forall i :: 0 <= i < k ==> loot[i].tier in ["A", "S"])
    && (forall i :: k <= i < |loot| ==> loot[i].tier in LowTiers)
  }

  ghost predicate IsChestLoot(loot: seq<GearItem>) {
    exists k :: ChestSplit(loot, k)
  }

  /** A chest never holds more than MaxLootItems, so the source's
      random.sample trimming branch can never run. */
  lemma ChestLootBounded(loot: seq<GearItem>)
    requires IsChestLoot(loot)
    ensures MinLootItems <= |loot| <= MaxLootItems
    ensures loot[0].tier in ["A", "S"]
  {
  }

  /** The tiers a chest's second phase draws from: F through B. */
  lemma LowTiersRanks(t: string)
    ensures t in LowTiers <==> t in GearTiers && TierRank(t) <= 4
  {
    SliceRanks(0, 4, t);
    assert LowTiers == Slice(GearTiers, 0, 5);
  }

  /** InventoryManager._roll_loot. */
  method RollLoot(im: InventoryManager, minCount: int, maxCount: int, minTier: string, maxTier: string,
                  isChest: bool, rng: Source)
    returns (loot: seq<GearItem>, rng': Source)
    requires !isChest ==> minCount <= maxCount && minTier in GearTiers && maxTier in GearTiers
    ensures forall i :: 0 <= i < |loot| ==> IsGear(loot[i])
    ensures isChest ==> IsChestLoot(loot)
    ensures !isChest ==> Max(minCount, 0) <= |loot| <= Max(maxCount, 0)
    ensures !isChest ==> forall i :: 0 <= i < |loot| ==>
      loot[i].tier == "F" || (loot[i].tier in GearTiers && TierRank(minTier) <= TierRank(loot[i].tier) <= TierRank(maxTier))
  {
    if isChest {
      loot, rng' := RollChestLoot(im, rng);
    } else {
      loot, rng' := RollRangeLoot(im, minCount, maxCount, minTier, maxTier, rng);
    }
  }

  /** The chest branch of _roll_loot: 1..4 items of tier S (percent draw below
      20) or A, then 0..4 items rolled over F..B. */
  method RollChestLoot(im: InventoryManager, rng: Source) returns (loot: seq<GearItem>, rng': Source)
    ensures forall i :: 0 <= i < |loot| ==> IsGear(loot[i])
    ensures IsChestLoot(loot)
  {
    var highCount, lowCount;
    var high, low;
    highCount, rng' := RandInt(rng, 1, 4);
    high, rng' := RollHighTierItems(highCount, rng');
    lowCount, rng' := RandInt(rng', 0, 4);
    low, rng' := RollLowTierItems(im, lowCount, rng');
    loot := high + low;
    assert ChestSplit(loot, highCount);
  }

  /** The chest's first loop: count items, each of tier S on a percent draw
      below 20 and of tier A otherwise. */
  method RollHighTierItems(count: int, rng: Source) returns (items: seq<GearItem>, rng': Source)
    ensures |items| == Max(count, 0)
    ensures forall i :: 0 <= i < |items| ==> IsGear(items[i]) && items[i].tier in ["A", "S"]
  {
    items, rng' := [], rng;
    while |items| < count
      invariant |items| <= Max(count, 0)
      invariant forall i :: 0 <= i < |items| ==> IsGear(items[i]) && items[i].tier in ["A", "S"]
      decreases count - |items|
    {
      var item;
      item, rng' := RollHighTierItem(rng');
      items := items + [item];
    }
  }

  /** One item of the chest's first loop: tier S on a percent draw below 20,
      tier A otherwise. */
  method RollHighTierItem(rng: Source) returns (item: GearItem, rng': Source)
    ensures IsGear(item) && item.tier in ["A", "S"]
  {
    var roll;
    roll, rng' := Percent(rng);
    var rolledTier := if roll < 20 then "S" else "A";
    item, rng' := GenerateGear(TierRank(rolledTier), rng');
  }

  /** The chest's second loop: count items, each rolled over F..B. */
  method RollLowTierItems(im: InventoryManager, count: int, rng: Source) returns (items: seq<GearItem>, rng': Source)
    ensures |items| == Max(count, 0)
    ensures forall i :: 0 <= i < |items| ==> IsGear(items[i]) && items[i].tier in LowTiers
  {
    items, rng' := [], rng;
    while |items| < count
      invariant |items| <= Max(count, 0)
      invariant forall i :: 0 <= i < |items| ==> IsGear(items[i]) && items[i].tier in LowTiers
      decreases count - |items|
    {
      var item;
      item, rng' := RollItem(im, "F", "B", rng');
      LowTiersRanks(item.tier);
      items := items + [item];
    }
  }

  /** The barrel and crate branch of _roll_loot: randint(minCount, maxCount)
      items, each rolled over minTier..maxTier. */
  method RollRangeLoot(im: InventoryManager, minCount: int, maxCount: int, minTier: string, maxTier: string,
                       rng: Source)
    returns (loot: seq<GearItem>, rng': Source)
    requires minCount <= maxCount && minTier in GearTiers && maxTier in GearTiers
    ensures Max(minCount, 0) <= |loot| <= Max(maxCount, 0)
    ensures forall i :: 0 <= i < |loot| ==>
      IsGear(loot[i]) && (loot[i].tier == "F" || TierRank(minTier) <= TierRank(loot[i].tier) <= TierRank(maxTier))
  {
    loot, rng' := [], rng;
    var totalCount;
    totalCount, rng' := RandInt(rng', minCount, maxCount);
    var lo, hi := TierRank(minTier), TierRank(maxTier);
    var n := 0;
    while n < totalCount
      invariant |loot| == Max(n, 0) && (n > 0 ==> n <= totalCount)
      invariant forall i :: 0 <= i < |loot| ==>
        IsGear(loot[i]) && (loot[i].tier == "F" || lo <= TierRank(loot[i].tier) <= hi)
    {
      var item;
      item, rng' := RollItem(im, minTier, maxTier, rng');
      loot := loot + [item];
      n := n + 1;
    }
  }

  /** One item of a loot loop: a tier rolled over minTier..maxTier, then a
      gear item of that tier. */
  method RollItem(im: InventoryManager, minTier: string, maxTier: string, rng: Source)
    returns (item: GearItem, rng': Source)
    requires minTier in GearTiers && maxTier in GearTiers
    ensures IsGear(item)
    ensures item.tier == "F" || TierRank(minTier) <= TierRank(item.tier) <= TierRank(maxTier)
  {
    RollWeightedTierRange(im, minTier, maxTier, rng);
    var roll := RollWeightedTier(im, minTier, maxTier, rng);
    item, rng' := GenerateGear(TierRank(roll.tier), roll.rest);
  }

  /** The three container kinds (LootChest, LootBarrel, LootCrate). */
  datatype ContainerKind = Chest | Barrel | Crate

  /** What each container's generate_loot promises. Barrels and crates hold a
      fixed number of items of tier F..A whatever the weight table. */
  ghost predicate IsContainerLoot(kind: ContainerKind, loot: seq<GearItem>) {
    && (forall i :: 0 <= i < |loot| ==> IsGear(loot[i]))
    && match kind
       case Chest => IsChestLoot(loot)
       case Barrel => |loot| == 4 && forall i :: 0 <= i < |loot| ==> TierRank(loot[i].tier) <= 5
       case Crate => |loot| == 6 && forall i :: 0 <= i < |loot| ==> TierRank(loot[i].tier) <= 5
  }

  /** LootChest / LootBarrel / LootCrate .generate_loot with their class constants. */
  method GenerateLoot(kind: ContainerKind, im: InventoryManager, rng: Source)
    returns (loot: seq<GearItem>, rng': Source)
    ensures IsContainerLoot(kind, loot)
  {
    match kind
    case Chest =>
      loot, rng' := RollLoot(im, MinLootItems, MaxLootItems, "B", "S", true, rng);
    case Barrel =>
      loot, rng' := RollLoot(im, 4, 4, "F", "A", false, rng);
      forall i | 0 <= i < |loot|
        ensures TierRank(loot[i].tier) <= 5
      {
        AtMostA(loot[i].tier);
      }
    case Crate =>
      loot, rng' := RollLoot(im, 6, 6, "F", "A", false, rng);
      forall i | 0 <= i < |loot|
        ensures TierRank(loot[i].tier) <= 5
      {
        AtMostA(loot[i].tier);
      }
  }

  /** A tier rolled over F..A, or the fallback F, ranks at most A. */
  lemma AtMostA(t: string)
    requires t in GearTiers
    requires t == "F" || TierRank("F") <= TierRank(t) <= TierRank("A")
    ensures TierRank(t) <= 5
  {
    RankOfTier(0);
    RankOfTier(5);
  }
}
