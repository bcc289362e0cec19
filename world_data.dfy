/**
 * The `three_body` world of the world table (data/worldViews.ts), used as a
 * concrete input to the terrain lookup.
 */
module WorldData {
  import opened WorldTypes
  import opened HexTerrain

  function ThreeBody(): WorldView {
    WorldView("three_body", "Three Body", [
      WorldRegion("SOLAR SYSTEM", Hex(-6, 2), 5, DeepSpace, "#38bdf8"),
      WorldRegion("ALPHA CENTAURI", Hex(6, -2), 4, Nebula, "#f472b6"),
      WorldRegion("DEEP SPACE", Hex(0, 0), 15, DeepSpace, "#1e293b")
    ])
  }

  function ThreeBodyLocations(): seq<WorldLocation> {
    [ WorldLocation("red_coast", "Red Coast Base", Base, "", -7, 3),
      WorldLocation("trisolaris", "Trisolaris", Planet, "", 7, -2),
      WorldLocation("judgment_day", "Judgment Day Ship", Base, "", -5, 1),
      WorldLocation("eto_meet", "ETO Assembly", Ruins, "", -4, 4),
      WorldLocation("droplet", "The Droplet", Station, "", 0, 0),
      WorldLocation("bunker_era", "Bunker World", City, "", -8, 0),
      WorldLocation("pluto_museum", "Pluto Museum", Planet, "", -9, 5),
      WorldLocation("dx3906", "Star DX3906", Planet, "", 2, -6),
      WorldLocation("4th_dim", "4D Fragment", Nebula, "", 4, 3),
      WorldLocation("australia_res", "Resettlement", Plain, "", -6, 4) ]
  }

  /** The Droplet's station overrides the deep-space region under it. */
  lemma DropletIsStation()
    ensures Terrain(ThreeBodyLocations(), ThreeBody(), 0, 0) == Station
  {
    LocationFirst(ThreeBodyLocations(), ThreeBody(), ThreeBody(), 4, 0, 0);
  }

  /** Alpha Centauri, declared before the whole-map region, wins at its centre. */
  lemma AlphaCentauriIsNebula()
    ensures Terrain(ThreeBodyLocations(), ThreeBody(), 6, -2) == Nebula
  {
    var locations := ThreeBodyLocations();
    assert forall l :: l in locations ==> !At(l, 6, -2);
    InteriorTerrain(locations, ThreeBody(), 1, 6, -2);
  }

  /** Next to the Droplet, both star systems are out of reach and the deep-space region decides. */
  lemma NearOriginIsDeepSpace()
    ensures Terrain(ThreeBodyLocations(), ThreeBody(), 0, 1) == DeepSpace
  {
    var locations := ThreeBodyLocations();
    assert forall l :: l in locations ==> !At(l, 0, 1);
    InteriorTerrain(locations, ThreeBody(), 2, 0, 1);
  }
}
