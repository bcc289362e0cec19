# Cyberspace map and universe core in Dafny

This project models the logic inside the two canvas components of the
Cyberspace multiverse explorer, and proves properties of that model.

- **The hex map** (`components/HexMap.tsx`) covers:
  - axial hex maths: distance, cube rounding, and the pixel transforms;
  - the deterministic 32-bit coordinate hash;
  - the layered terrain lookup: location, then region with a noisy edge, then the world's fallback;
  - the render loop over the radius-15 disk;
  - the camera: pan, clamped zoom, and the pointer hit-test;
  - the legend of terrain kinds.
- **The universe view** (`components/CyberUniverse.tsx`) covers:
  - the lazy seeding of each node's kinematic entry;
  - leaf selection, and the construction and appending of new nodes;
  - the nearest-node hover pick.

Modules:

- `Wrappers`: Option. `Numeric`: absolute value, maximum and minimum.
- `Text`: decimal rendering of integers and the lexicographic string order.
- `WorldTypes` and `WorldData`: types.ts, and the `three_body` world of data/worldViews.ts as a concrete input.
- Hex map:
  - `HexMath`, `HexHash`, `HexTerrain` and `HexGrid`;
  - `HexCamera` and `HexLegend`;
  - `HexView`, with the class `MapView` holding the map's mutable camera and hover state.
- Universe view:
  - `UniverseNodes` and `UniverseLayout`;
  - `UniverseView`, with the class `Universe` holding the node list, the evolving flag, the `positions` map and the hovered node.

Where the source changes state step by step, the model is imperative:

- `HexHash.Hash`, `HexTerrain.GetProceduralTerrain`, `HexGrid.RenderGrid`, `UniverseLayout.PickNode` and `Universe.SeedPositions` are methods with loops.
- Each of these is proved against a specification function. The properties the source promises are then proved about that function.

JavaScript semantics are written out explicitly:

- `Math.round(x)` is `Floor(x + 0.5)`.
- `Math.imul` and `| 0` reduce to signed 32 bits. `>>> 0` reduces modulo 2^32.
- `||` replaces the falsy values `""` and `0` with the default.

## Model

| member | source | states |
|---|---|---|
| WorldTypes.TerrainNameRoundTrip | types.ts:47-53 | reading back the run-time name of a terrain kind yields that kind |
| WorldTypes.TerrainNameInjective | types.ts:47-53 | distinct terrain kinds have distinct names, so sorting by name orders kinds |
| WorldTypes.TerrainColor | components/HexMap.tsx:63-94 | every terrain kind's fill is a CSS `#rrggbb` colour |
| WorldTypes.TerrainColorInjective | components/HexMap.tsx:63-94 | the fill palette gives every terrain kind its own colour |
| Text.NatToString | components/HexMap.tsx:98 | a natural renders as a non-empty string of decimal digits, one digit exactly below 10 |
| Text.DecimalRoundTrip | components/HexMap.tsx:98 | the rendered digits read back as the number |
| Text.IntToString | components/HexMap.tsx:98 | an integer renders as digits, with a leading minus sign exactly when it is negative |
| Text.IntToStringInjective | components/HexMap.tsx:98 | different integers render differently |
| Text.SplitAtSeparator | components/HexMap.tsx:98 | two strings joined at a separator absent from the left parts split back uniquely |
| Text.StrLessIrreflexive | components/HexMap.tsx:357 | the default sort order never puts a string before itself |
| Text.StrLessTransitive | components/HexMap.tsx:357 | the default sort order is transitive |
| Text.StrLessTotal | components/HexMap.tsx:357 | any two different strings are ordered one way or the other |
| HexMath.HexDistance | components/HexMap.tsx:58-60 | the halved three-term sum is a natural number, equals the largest cube-axis difference, and is 0 exactly on equal cells |
| HexMath.HexDistanceSymmetric | components/HexMap.tsx:58-60 | distance does not depend on argument order |
| HexMath.HexDistanceTriangle | components/HexMap.tsx:58-60 | distance obeys the triangle inequality, so it is a metric |
| HexMath.HexDistanceExamples | components/HexMap.tsx:58-60 | neighbours are at distance 1, and two steps along q give distance 2 |
| HexMath.Round | components/HexMap.tsx:42-44 | `Math.round` lands within (-0.5, 0.5] of its input |
| HexMath.HexRound | components/HexMap.tsx:41-56 | the result is the nearest cell: its three cube-axis offsets from the input differ pairwise by at most one, so none exceeds 2/3; only an axis with the largest rounding error is corrected, ties broken as the source breaks them: q only when its error is strictly largest, r only when its error strictly exceeds s's, otherwise s implicitly; at least one of q, r keeps its plain rounding; a rounding already on the plane is kept |
| HexMath.HexRoundTies | components/HexMap.tsx:50-54 | at the exact ties (1/2, 1/2) and (1/2, 0) the result is (1, 0): r is recomputed in the first, s in the second |
| HexMath.HexRoundLattice | components/HexMap.tsx:41-56 | an integer input pair rounds to itself |
| HexMath.HexToPixel | components/HexMap.tsx:29-33 | with the exact square root of 3, the inverse projection of `pixelToHex` maps a cell's pixel centre back to the cell's own coordinates before rounding |
| HexMath.PixelToHex | components/HexMap.tsx:35-39 | the pixel lies in the hexagon of the returned cell: its cube-axis offsets from the cell's centre differ pairwise by at most one |
| HexMath.PixelRoundTrip | components/HexMap.tsx:29-39 | with the exact square root of 3, the pixel centre of a cell maps back to that cell |
| HexHash.ToInt32 | components/HexMap.tsx:101 | `\| 0` yields a signed 32-bit value congruent to its input modulo 2^32, and leaves 32-bit values alone |
| HexHash.Imul | components/HexMap.tsx:101 | `Math.imul` is the product reduced to signed 32 bits |
| HexHash.HashStep | components/HexMap.tsx:101 | each step of the hash stays in signed 32-bit range |
| HexHash.HashFoldInt32 | components/HexMap.tsx:99-102 | the accumulator stays in signed 32-bit range over the whole key |
| HexHash.HashKeyInjective | components/HexMap.tsx:98 | distinct cells get distinct key strings, so the key loses no information about the cell |
| HexHash.HashBits | components/HexMap.tsx:103 | `h >>> 0` is an unsigned value below 2^32 |
| HexHash.Hash | components/HexMap.tsx:97-104 | the loop computes exactly the unsigned fold divided by 2^32, a value in [0, 1) |
| HexHash.EdgeNoiseThreshold | components/HexMap.tsx:119 | the test `h > 0.7` is the integer threshold `10 u > 7 * 2^32` on the unsigned hash |
| HexTerrain.FindLocation | components/HexMap.tsx:109 | none exactly when no location sits on the cell, else the first one that does |
| HexTerrain.Fallback | components/HexMap.tsx:125-129 | deep space exactly for world `three_body`, ocean for every other |
| HexTerrain.RegionBiome | components/HexMap.tsx:113-122 | a biome found comes from a region that claims the cell (RegionBiomeFirstClaim adds that it is the first such region) |
| HexTerrain.Terrain | components/HexMap.tsx:107-130 | a cell with a location on it takes the kind of such a location; any other cell takes the biome of a region claiming it, or the world's fallback |
| HexTerrain.GetProceduralTerrain | components/HexMap.tsx:107-130 | the search loop, with its `continue` and early returns, yields exactly the layered terrain of the cell |
| HexTerrain.LocationFirst | components/HexMap.tsx:109-110 | a location on the cell decides the terrain, whatever the world's regions or id |
| HexTerrain.RegionBiomeFirstClaim | components/HexMap.tsx:113-122 | regions are tried in declaration order: the first claiming region wins, and none is found exactly when none claims |
| HexTerrain.InteriorClaimed | components/HexMap.tsx:115-120 | a cell at distance at most radius - 1 is always claimed by the region |
| HexTerrain.EdgeSkip | components/HexMap.tsx:115-120 | a cell of the disk is passed over only on the boundary ring and only when its hash exceeds 0.7 |
| HexTerrain.InteriorTerrain | components/HexMap.tsx:107-122 | with no location, an interior cell of a region that no earlier region's disk reaches gets that region's biome |
| HexTerrain.FallbackTerrain | components/HexMap.tsx:107-129 | with no location and no claiming region, the terrain is deep space for `three_body` and ocean otherwise |
| WorldData.DropletIsStation | data/worldViews.ts:95-102 | in `three_body`, the Droplet's station overrides the deep-space region at the origin |
| WorldData.AlphaCentauriIsNebula | data/worldViews.ts:93-95 | in `three_body`, Alpha Centauri, declared first, wins at its centre over the whole-map region |
| WorldData.NearOriginIsDeepSpace | data/worldViews.ts:93-107 | in `three_body`, a cell next to the Droplet falls through both star systems to deep space |
| HexGrid.RowRangeIsMap | components/HexMap.tsx:193-196 | for each column, the loop's r bounds are exactly the cells with \|q\|, \|r\|, \|q+r\| <= 15 |
| HexGrid.CellAt | components/HexMap.tsx:204-210 | a drawn cell has the cell's terrain and the first location on the cell; it is active exactly when that location is the active one; it is highlighted exactly when it is the hovered cell; its opacity is 0.8 exactly for deep space and ocean, and 1.0 otherwise |
| HexGrid.RenderGrid | components/HexMap.tsx:193-210 | the nested loops visit only map cells, every map cell, each exactly once in (q, r) order, each with its decisions |
| HexGrid.HoverAt | components/HexMap.tsx:330-337 | the three-axis check accepts exactly the map cells, reporting the cell's first location or none, and nothing outside |
| HexGrid.HoverableIsRendered | components/HexMap.tsx:328-337 | every cell the hover accepts is in the render loop's range, with the same location on it (viewport culling aside) |
| HexCamera.Pan | components/HexMap.tsx:312-317 | a drag step adds exactly the pointer's movement to the offset |
| HexCamera.DragTelescopes | components/HexMap.tsx:312-317 | successive pans sum: the offset moves by the pointer's total displacement |
| HexCamera.Zoom | components/HexMap.tsx:344-348 | the new scale lies in [0.3, 3.0] whatever deltaY is; it is the unclamped value when that is in range, and the nearer bound otherwise |
| HexCamera.ZoomMonotone | components/HexMap.tsx:344-348 | scrolling further down never zooms in further |
| HexCamera.ScreenToWorld | components/HexMap.tsx:320-326 | the world point the hit-test computes for a pixel is one the renderer draws at exactly that pixel |
| HexCamera.WorldToScreen | components/HexMap.tsx:182-199 | the renderer's `cx + x * scale` placement; ScreenRoundTrip and ScreenToWorld prove it and the hit-test inverse to each other |
| HexCamera.ScreenRoundTrip | components/HexMap.tsx:320-326 | at any reachable scale, the hit-test reads back exactly the world point the renderer drew at that pixel |
| HexLegend.Insert | components/HexMap.tsx:357 | inserting into a name-sorted list keeps it sorted and adds exactly the one kind |
| HexLegend.InsertAll | components/HexMap.tsx:351-357 | the set union stays sorted by name and holds exactly both inputs |
| HexLegend.Biomes | components/HexMap.tsx:354 | exactly the biomes of the world's regions |
| HexLegend.LocationTerrains | components/HexMap.tsx:356 | exactly the terrain kinds of the locations |
| HexLegend.LegendItems | components/HexMap.tsx:351-358 | the legend is sorted by name and holds exactly the region biomes and the location kinds |
| HexLegend.SortedDistinct | components/HexMap.tsx:352-357 | a name-sorted legend lists no kind twice, as the Set promises |
| HexLegend.SortedUnique | components/HexMap.tsx:351-358 | two sorted lists with the same members are equal, so the legend does not depend on insertion order |
| HexView.PointerOnDrawnCell | components/HexMap.tsx:320-337 | a pointer on the pixel where a map cell's centre is drawn hovers exactly that cell, with its location |
| HexView.MapView.constructor | components/HexMap.tsx:15-21 | scale 0.8, zero offset, not dragging, nothing hovered |
| HexView.MapView.MouseDown | components/HexMap.tsx:303-306 | starts dragging from the pointer |
| HexView.MapView.MouseMove | components/HexMap.tsx:308-338 | pans by the pointer's movement when dragging; hovers the cell under the pointer under the frame's camera, reporting its location or null |
| HexView.MapView.MouseUp | components/HexMap.tsx:340-342 | stops dragging |
| HexView.MapView.MouseLeave | components/HexMap.tsx:368 | stops dragging and clears the hover |
| HexView.MapView.Wheel | components/HexMap.tsx:344-348 | the scale becomes the clamped zoom, so it stays within its bounds |
| UniverseNodes.BigBang | components/CyberUniverse.tsx:12-24 | the initial root node; the universe view's constructor starts from it and FinishNextDay keeps it first |
| UniverseNodes.OrText | components/CyberUniverse.tsx:286-289 | a present non-empty text is kept; a missing or empty one becomes the default |
| UniverseNodes.OrNumber | components/CyberUniverse.tsx:290-294 | a present non-zero number is kept; a missing one or 0 becomes the default |
| UniverseNodes.ParentIds | components/CyberUniverse.tsx:269 | exactly the parent ids some node names |
| UniverseNodes.FilterOutParents | components/CyberUniverse.tsx:270 | keeps exactly the nodes whose id is not among the parent ids, each as often as it occurs in the input |
| UniverseNodes.Leaves | components/CyberUniverse.tsx:269-271 | leaves are exactly the nodes that no node names as parent, each as often as it occurs among the nodes |
| UniverseNodes.NoDupMultiplicity | components/CyberUniverse.tsx:269-278 | a list has no repeated node exactly when every node occurs in it at most once |
| UniverseNodes.ActiveLeavesDistinct | components/CyberUniverse.tsx:269-278 | when the nodes are distinct, so are the leaves and the active leaves sent on |
| UniverseNodes.ActiveLeaves | components/CyberUniverse.tsx:278 | min(3, number of leaves) nodes, all leaves, and no leaf more often than it occurs among the leaves |
| UniverseNodes.FindNode | components/CyberUniverse.tsx:295 | none exactly when no node has the id, else the first that does |
| UniverseNodes.NodeId | components/CyberUniverse.tsx:285 | the id `node-${stamp}-${index}`; NodeIdInjective and NodeIdNotRoot state what it determines |
| UniverseNodes.NodeIdNotRoot | components/CyberUniverse.tsx:285 | no generated id equals the root's id |
| UniverseNodes.NodeIdInjective | components/CyberUniverse.tsx:285 | two generated ids are equal exactly when their clock readings and their indices are |
| UniverseNodes.NewNode | components/CyberUniverse.tsx:284-297 | a new node's level is its parent's level + 1, or 1 with no parent found; kind, title and description default to branch, Event and Unknown event; water and oxygen default to 50 (also for an explicit 0), biomass to 0 |
| UniverseNodes.NewNodes | components/CyberUniverse.tsx:284-298 | one new node per branch, in order, each built from the old list with its own clock reading, with pairwise distinct ids whatever the readings |
| UniverseNodes.RootFreshStamp | components/CyberUniverse.tsx:12-24 | the initial graph carries no id of any batch |
| UniverseNodes.AppendKeepsIdsDistinct | components/CyberUniverse.tsx:284-298 | appending a batch whose clock readings no earlier node carries keeps all ids of the graph unique |
| UniverseNodes.FreshStampAfterBatch | components/CyberUniverse.tsx:285 | a batch leaves every clock reading it did not use fresh, so batches under new readings keep ids unique for good |
| UniverseNodes.LeafExists | components/CyberUniverse.tsx:269-275 | while levels follow the parent rule, a non-empty graph has a leaf, so the no-leaves branch is reached only on inconsistent levels |
| UniverseLayout.AnchorOf | components/CyberUniverse.tsx:37 | the origin for a node without a parent, the parent's entry when it has one, else none; Spawn and SeedPlacement state the placement it leads to |
| UniverseLayout.Spawn | components/CyberUniverse.tsx:37-51 | a new entry is at rest, exactly 100 from its anchor and never on it, or at the origin with no anchor |
| UniverseLayout.SeedOne | components/CyberUniverse.tsx:34-51 | one step of the `forEach`: the keys become the old keys plus the node's id, old entries are kept, and a created entry is at rest |
| UniverseLayout.SeedAll | components/CyberUniverse.tsx:33-53 | the whole `forEach`, node by node against the updated map; SeedKeeps, SeedCovers, SeedAtRest, SeedSplit and SeedPlacement state its properties |
| UniverseLayout.SeedKeeps | components/CyberUniverse.tsx:34 | seeding never changes an existing entry |
| UniverseLayout.SeedCovers | components/CyberUniverse.tsx:33-53 | after seeding, the keys are exactly the old keys plus every node's id |
| UniverseLayout.SeedAtRest | components/CyberUniverse.tsx:46-51 | every entry seeding creates has zero velocity |
| UniverseLayout.SeedSplit | components/CyberUniverse.tsx:33 | seeding the list is seeding a prefix, then the rest, against the updated map |
| UniverseLayout.SeedPlacement | components/CyberUniverse.tsx:37-44 | a node seeded in the pass: a null-parent node lands 100 from the origin; a node whose parent already has an entry lands 100 from that parent; one whose parent has none starts at (0, 0) |
| UniverseLayout.PickNode | components/CyberUniverse.tsx:245-260 | none exactly when no node with an entry is closer than 20; else a nearest such node, the earliest on ties |
| UniverseView.Universe.constructor | components/CyberUniverse.tsx:12-29 | the graph is the Big Bang alone, with unique ids, an empty map, idle and nothing hovered |
| UniverseView.Universe.SeedPositions | components/CyberUniverse.tsx:32-54 | the map becomes the seeding of the old map, every node has an entry, and old entries are unchanged |
| UniverseView.Universe.MouseMove | components/CyberUniverse.tsx:238-261 | the hover becomes the pick at the pointer relative to the canvas centre |
| UniverseView.Universe.Click | components/CyberUniverse.tsx:314 | clears the hover |
| UniverseView.Universe.BeginNextDay | components/CyberUniverse.tsx:264-278 | does nothing while a request is in flight; resets the flag when there are no leaves; else sets the flag and sends the first min(3, leaves) of the shuffled leaves; only the flag changes |
| UniverseView.Universe.FinishNextDay | components/CyberUniverse.tsx:280-305 | new nodes are appended after all existing ones, which are unchanged, the Big Bang stays first, and the flag is always reset; an empty branch list leaves the graph as it is; ids stay unique when no clock reading of the batch is carried by an earlier node; nothing else changes |

## Left out

- Force integration (components/CyberUniverse.tsx:78-123) is left out. It is floating-point physics with `sqrt` and in-place updates, and it promises nothing that can be stated without float reasoning.
- All canvas drawing is left out: `drawHex`, labels, icons, the pulse ring, gradients and node styling. So are the `requestAnimationFrame` loops and resize listeners. They are rendering and host plumbing.
- HexGrid.RenderGrid: viewport culling (components/HexMap.tsx:202) is not modelled. The method returns every map cell's decisions rather than skipping off-screen ones, because culling compares floating-point screen positions.
- `getTerrainColor`'s `default` branch is not modelled, because the terrain type is closed.
- All numbers are exact reals or unbounded integers. Floating-point rounding is not modelled, apart from the 32-bit wrapping the hash does on purpose.
- `Math.sqrt(3)` is the parameter `sqrt3`. Only the pixel round trip assumes `sqrt3 * sqrt3 == 3`.
- Nondeterminism becomes input:
  - `Math.random` in seeding becomes a unit direction (c, s) per node.
  - The random shuffle of the leaves becomes an arbitrary permutation `shuffled`.
  - `Date.now`, read once for every new node inside the `map` callback, becomes the sequence `stamps`, one reading per node.
- UniverseLayout.PickNode: distances are compared squared against 400, not by square root against 20. The order is the same, and the float rounding of `sqrt` is not modelled.
- UniverseView.Universe.BeginNextDay and UniverseView.Universe.FinishNextDay: `handleNextDay` is split at its `await`.
  - `evolveUniverse` (services/geminiService.ts:93-95) always returns an empty list in this code base, so the graph never grows beyond the Big Bang. The model deliberately admits any branch list as the parameter `response`, with None for a thrown error or a non-array result. `FinishNextDay` also proves that the empty list leaves the graph unchanged.
  - New nodes are appended to the current list, and levels are looked up in that list. The source uses the list captured when the handler started. The two agree because only this handler changes the list, and the flag keeps it from running twice.
- UniverseNodes.FilterOutParents and UniverseNodes.Leaves: the contracts give each node's multiplicity but not the order of the kept nodes. The leaves are shuffled before use, so no later step depends on their order.
- UniverseNodes.NewNode: the level rule `(parent?.level \|\| 0) + 1` is modelled on integers. A NaN level is not considered.
- UniverseNodes.NewNode: the `x`/`y` fields of `UniverseNode` are always 0, and nothing reads them; they are not modelled. Positions live in the `positions` map.
- The map of entries is keyed by node id. A falsy parent id (`""`) is treated like null, as the `node.parentId ?` test does.
- UniverseNodes.LeafExists: the model does not prove that the running graph keeps its levels consistent. With the empty list `evolveUniverse` returns, the graph stays the Big Bang alone, whose levels are consistent. A general branch list may name any parent id, including one from the same batch, and then the level rule does not keep levels consistent.
- An absent `activeWorld.regions` is modelled as an empty region list; the `if` guard treats the two the same way.
- The `hasKey` prop, App.tsx, components/ToolsPanel.tsx and components/ChatInterface.tsx are not part of this model. They are React UI state with trivial transitions.
- The rest of services/geminiService.ts is not part of this model. It is network and foreign SDK calls. Its `evolveUniverse` is the empty stub described above.
- data/worldData.ts and the worlds of data/worldViews.ts other than `three_body` are constant tables with no logic.
