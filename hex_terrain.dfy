/**
 * The layered terrain lookup of the map (HexMap.tsx `getProceduralTerrain`):
 * a declared location decides its cell; otherwise the first region, in
 * declaration order, whose disk holds the cell and whose noisy edge does not
 * drop it; otherwise the world's fallback.
 */
module HexTerrain {
  import opened Wrappers
  import opened WorldTypes
  import opened HexMath
  import opened HexHash

  predicate At(l: WorldLocation, q: int, r: int) {
    l.q == q && l.r == r
  }

  /** `locations.find(l => l.q === q && l.r === r)`: the first location on the cell. */
  function FindLocation(locations: seq<WorldLocation>, q: int, r: int): (found: Option<WorldLocation>)
    ensures found.None? <==> forall i :: 0 <= i < |locations| ==> !At(locations[i], q, r)
    ensures found.Some? ==> exists i :: 0 <= i < |locations| && locations[i] == found.value &&
                                        At(found.value, q, r) &&
                                        forall j :: 0 <= j < i ==> !At(locations[j], q, r)
    decreases |locations|
  {
    if locations == [] then None
    else if At(locations[0], q, r) then Some(locations[0])
    else
      var rest := FindLocation(locations[1..], q, r);
      assert forall i :: 1 <= i < |locations| ==> locations[i] == locations[1..][i - 1];
      rest
  }

  /** The distance from a cell to a region's centre. */
  function RegionDistance(region: WorldRegion, q: int, r: int): nat {
    HexDistance(q, r, region.center.q, region.center.r)
  }

  /**
   * Whether a region claims the cell: inside its disk, and not a cell of the
   * outer ring (`dist > radius - 1`) whose hash exceeds 0.7.
   */
  predicate Claims(region: WorldRegion, q: int, r: int) {
    var dist := RegionDistance(region, q, r);
    dist <= region.radius && !(dist > region.radius - 1 && EdgeNoise(q, r))
  }

  /** The biome of the first region, in declaration order, that claims the cell. */
  function RegionBiome(regions: seq<WorldRegion>, q: int, r: int): (b: Option<TerrainType>)
    ensures b.Some? ==> exists i :: 0 <= i < |regions| && Claims(regions[i], q, r) && b.value == regions[i].biome
    decreases |regions|
  {
    if regions == [] then None
    else if Claims(regions[0], q, r) then Some(regions[0].biome)
    else
      var rest := RegionBiome(regions[1..], q, r);
      assert forall i :: 1 <= i < |regions| ==> regions[i] == regions[1..][i - 1];
      rest
  }

  /** The global fallback: deep space for the space-themed world `three_body`, ocean for every other. */
  function Fallback(worldId: string): (t: TerrainType)
    ensures t == DeepSpace <==> worldId == "three_body"
    ensures t == Ocean <==> worldId != "three_body"
  {
    if worldId == "three_body" then DeepSpace else Ocean
  }

  /**
   * The terrain of a cell: location, then region, then fallback. A cell with a
   * location on it takes the kind of such a location; any other cell takes the
   * biome of a region claiming it, or the world's fallback.
   */
  function Terrain(locations: seq<WorldLocation>, world: WorldView, q: int, r: int): (t: TerrainType)
    ensures (exists i :: 0 <= i < |locations| && At(locations[i], q, r)) ==>
              exists i :: 0 <= i < |locations| && At(locations[i], q, r) && t == locations[i].terrain
    ensures (forall i :: 0 <= i < |locations| ==> !At(locations[i], q, r)) ==>
              (exists i :: 0 <= i < |world.regions| && Claims(world.regions[i], q, r) && t == world.regions[i].biome) ||
              t == Fallback(world.id)
  {
    match FindLocation(locations, q, r)
    case Some(l) => l.terrain
    case None =>
      match RegionBiome(world.regions, q, r)
      case Some(b) => b
      case None => Fallback(world.id)
  }

  /** `getProceduralTerrain(q, r)`: the `find`, then the region loop with its `continue` and early return. */
  method GetProceduralTerrain(locations: seq<WorldLocation>, world: WorldView, q: int, r: int)
    returns (t: TerrainType)
    ensures t == Terrain(locations, world, q, r)
  {
    var existing := FindLocation(locations, q, r);
    if existing.Some? {
      return existing.value.terrain;
    }
    var regions := world.regions;
    for i := 0 to |regions|
      invariant RegionBiome(regions[i..], q, r) == RegionBiome(regions, q, r)
    {
      assert regions[i..][1..] == regions[i + 1..];
      var region := regions[i];
      var dist := HexDistance(q, r, region.center.q, region.center.r);
      if dist <= region.radius {
        var h := Hash(q, r);
        EdgeNoiseThreshold(q, r, h);
        if dist > region.radius - 1 && h > 0.7 {
          continue;
        }
        return region.biome;
      }
    }
    assert regions[|regions|..] == [];
    return Fallback(world.id);
  }

  /** A location on the cell decides its terrain, whatever the world's regions and theme. */
  lemma LocationFirst(locations: seq<WorldLocation>, world1: WorldView, world2: WorldView, i: nat, q: int, r: int)
    requires i < |locations| && At(locations[i], q, r)
    requires forall j :: 0 <= j < i ==> !At(locations[j], q, r)
    ensures Terrain(locations, world1, q, r) == locations[i].terrain == Terrain(locations, world2, q, r)
  {
  }

  /** The region lookup picks exactly the first claiming region, and finds none exactly when none claims. */
  lemma {:induction false} RegionBiomeFirstClaim(regions: seq<WorldRegion>, q: int, r: int)
    ensures RegionBiome(regions, q, r).None? <==> forall i :: 0 <= i < |regions| ==> !Claims(regions[i], q, r)
    ensures forall i :: 0 <= i < |regions| && Claims(regions[i], q, r) &&
                        (forall j :: 0 <= j < i ==> !Claims(regions[j], q, r))
                        ==> RegionBiome(regions, q, r) == Some(regions[i].biome)
    decreases |regions|
  {
    if regions != [] {
      RegionBiomeFirstClaim(regions[1..], q, r);
      assert forall i :: 1 <= i < |regions| ==> regions[i] == regions[1..][i - 1];
      forall i | 1 <= i < |regions| && Claims(regions[i], q, r) &&
                 (forall j :: 0 <= j < i ==> !Claims(regions[j], q, r))
        ensures RegionBiome(regions, q, r) == Some(regions[i].biome)
      {
        assert !Claims(regions[0], q, r);
        assert forall j :: 0 <= j < i - 1 ==> !Claims(regions[1..][j], q, r) by {
          forall j | 0 <= j < i - 1 ensures !Claims(regions[1..][j], q, r) {
            assert regions[1..][j] == regions[j + 1];
          }
        }
      }
    }
  }

  /** Noise only ever drops the outermost ring: a cell at distance at most radius - 1 is always claimed. */
  lemma InteriorClaimed(region: WorldRegion, q: int, r: int)
    requires RegionDistance(region, q, r) <= region.radius - 1
    ensures Claims(region, q, r)
  {
  }

  /** A cell of the disk is passed over only on its boundary ring, and only when its hash is above 0.7. */
  lemma EdgeSkip(region: WorldRegion, q: int, r: int)
    requires RegionDistance(region, q, r) <= region.radius && !Claims(region, q, r)
    ensures RegionDistance(region, q, r) == region.radius && EdgeNoise(q, r)
  {
  }

  /**
   * With no location on the cell, an interior cell of a region that no earlier
   * region's disk reaches gets that region's biome.
   */
  lemma InteriorTerrain(locations: seq<WorldLocation>, world: WorldView, i: nat, q: int, r: int)
    requires forall l :: l in locations ==> !At(l, q, r)
    requires i < |world.regions| && RegionDistance(world.regions[i], q, r) <= world.regions[i].radius - 1
    requires forall j :: 0 <= j < i ==> RegionDistance(world.regions[j], q, r) > world.regions[j].radius
    ensures Terrain(locations, world, q, r) == world.regions[i].biome
  {
    assert FindLocation(locations, q, r).None? by {
      assert forall k :: 0 <= k < |locations| ==> locations[k] in locations;
    }
    RegionBiomeFirstClaim(world.regions, q, r);
  }

  /** With no location on the cell and no region claiming it, the terrain is the world's fallback. */
  lemma FallbackTerrain(locations: seq<WorldLocation>, world: WorldView, q: int, r: int)
    requires forall l :: l in locations ==> !At(l, q, r)
    requires forall region :: region in world.regions ==> !Claims(region, q, r)
    ensures Terrain(locations, world, q, r) == (if world.id == "three_body" then DeepSpace else Ocean)
  {
    assert FindLocation(locations, q, r).None? by {
      assert forall k :: 0 <= k < |locations| ==> locations[k] in locations;
    }
    RegionBiomeFirstClaim(world.regions, q, r);
    assert forall k :: 0 <= k < |world.regions| ==> world.regions[k] in world.regions;
  }
}
