/**
 * The value types shared by the hex map: terrain kinds, declared locations,
 * regions of influence and the active world view (types.ts).
 */
module WorldTypes {
  import opened Wrappers

  /** The closed set of terrain kinds of the multiverse map (types.ts, `TerrainType`). */
  datatype TerrainType =
    // Fantasy / Earth
    | Citadel | Plain | Forest | Mountain | Swamp | Desert | Ashland | Coast | Ocean
    // Historical / Eastern
    | Palace | Temple | Village | Battlefield | River
    // Sci-Fi
    | Base | Station | Planet | Nebula | Ruins | City | DeepSpace

  /** The string each terrain kind is at run time; the legend sorts by it. */
  function TerrainName(t: TerrainType): string {
    match t
    case Citadel => "citadel"
    case Plain => "plain"
    case Forest => "forest"
    case Mountain => "mountain"
    case Swamp => "swamp"
    case Desert => "desert"
    case Ashland => "ashland"
    case Coast => "coast"
    case Ocean => "ocean"
    case Palace => "palace"
    case Temple => "temple"
    case Village => "village"
    case Battlefield => "battlefield"
    case River => "river"
    case Base => "base"
    case Station => "station"
    case Planet => "planet"
    case Nebula => "nebula"
    case Ruins => "ruins"
    case City => "city"
    case DeepSpace => "deep_space"
  }

  /** Reads a terrain name back; the partner of TerrainName. */
  function TerrainFromName(s: string): Option<TerrainType> {
    if s == "citadel" then Some(Citadel)
    else if s == "plain" then Some(Plain)
    else if s == "forest" then Some(Forest)
    else if s == "mountain" then Some(Mountain)
    else if s == "swamp" then Some(Swamp)
    else if s == "desert" then Some(Desert)
    else if s == "ashland" then Some(Ashland)
    else if s == "coast" then Some(Coast)
    else if s == "ocean" then Some(Ocean)
    else if s == "palace" then Some(Palace)
    else if s == "temple" then Some(Temple)
    else if s == "village" then Some(Village)
    else if s == "battlefield" then Some(Battlefield)
    else if s == "river" then Some(River)
    else if s == "base" then Some(Base)
    else if s == "station" then Some(Station)
    else if s == "planet" then Some(Planet)
    else if s == "nebula" then Some(Nebula)
    else if s == "ruins" then Some(Ruins)
    else if s == "city" then Some(City)
    else if s == "deep_space" then Some(DeepSpace)
    else None
  }

  /** Every terrain kind has its own name: reading the name back gives the kind. */
  lemma TerrainNameRoundTrip(t: TerrainType)
    ensures TerrainFromName(TerrainName(t)) == Some(t)
  {
    match t
    case Citadel => assert TerrainName(t) == "citadel";
    case Plain => assert TerrainName(t) == "plain";
    case Forest => assert TerrainName(t) == "forest";
    case Mountain => assert TerrainName(t) == "mountain";
    case Swamp => assert TerrainName(t) == "swamp";
    case Desert => assert TerrainName(t) == "desert";
    case Ashland => assert TerrainName(t) == "ashland";
    case Coast => assert TerrainName(t) == "coast";
    case Ocean => assert TerrainName(t) == "ocean";
    case Palace => assert TerrainName(t) == "palace";
    case Temple => assert TerrainName(t) == "temple";
    case Village => assert TerrainName(t) == "village";
    case Battlefield => assert TerrainName(t) == "battlefield";
    case River => assert TerrainName(t) == "river";
    case Base => assert TerrainName(t) == "base";
    case Station => assert TerrainName(t) == "station";
    case Planet => assert TerrainName(t) == "planet";
    case Nebula => assert TerrainName(t) == "nebula";
    case Ruins => assert TerrainName(t) == "ruins";
    case City => assert TerrainName(t) == "city";
    case DeepSpace => assert TerrainName(t) == "deep_space";
  }

  /** Distinct terrain kinds have distinct names. */
  lemma TerrainNameInjective(a: TerrainType, b: TerrainType)
    ensures TerrainName(a) == TerrainName(b) ==> a == b
  {
    TerrainNameRoundTrip(a);
    TerrainNameRoundTrip(b);
  }

  predicate IsHexDigit(c: char) {
    '0' <= c <= '9' || 'a' <= c <= 'f' || 'A' <= c <= 'F'
  }

  /** A CSS colour of the form `#rrggbb`. */
  predicate IsCssColor(c: string) {
    |c| == 7 && c[0] == '#' && forall i :: 1 <= i < 7 ==> IsHexDigit(c[i])
  }

  /** Fill colour of a terrain kind (HexMap.tsx `getTerrainColor`): always a CSS `#rrggbb` colour. */
  function TerrainColor(t: TerrainType): (c: string)
    ensures IsCssColor(c)
  {
    match t
    case Citadel => "#94a3b8"
    case Plain => "#4ADE80"
    case Forest => "#15803d"
    case Mountain => "#475569"
    case Swamp => "#365314"
    case Desert => "#FDE047"
    case Ashland => "#18181B"
    case Coast => "#38bdf8"
    case Ocean => "#1e3a8a"
    case Palace => "#ef4444"
    case Temple => "#fbbf24"
    case Village => "#bef264"
    case Battlefield => "#7f1d1d"
    case River => "#60a5fa"
    case Base => "#cbd5e1"
    case Station => "#818cf8"
    case Planet => "#a855f7"
    case Nebula => "#db2777"
    case Ruins => "#57534E"
    case City => "#2DD4BF"
    case DeepSpace => "#020617"
  }

  /** The palette tells every terrain kind apart. */
  lemma TerrainColorInjective(a: TerrainType, b: TerrainType)
    ensures TerrainColor(a) == TerrainColor(b) ==> a == b
  {
  }

  /** An axial coordinate on the pointy-top grid; the third cube coordinate is s = -q - r. */
  datatype Hex = Hex(q: int, r: int)

  /** A declared place on the map; it occupies exactly one cell. */
  datatype WorldLocation = WorldLocation(id: string, name: string, terrain: TerrainType,
                                         description: string, q: int, r: int)

  /** A disk of influence of `radius` (in hex distance) around `center`. */
  datatype WorldRegion = WorldRegion(name: string, center: Hex, radius: int,
                                     biome: TerrainType, color: string)

  /** The parts of a world view the map reads: its id (the theme) and its regions in declaration order. */
  datatype WorldView = WorldView(id: string, name: string, regions: seq<WorldRegion>)
}
