/**
 * The finite map of the renderer (HexMap.tsx `render` grid loop) and the hover
 * hit-test's bound: both are the hexagon of cells whose three cube coordinates
 * are at most MAP_RADIUS in magnitude.
 */
module HexGrid {
  import opened Wrappers
  import opened WorldTypes
  import opened Numeric
  import opened HexMath
  import opened HexTerrain

  const MAP_RADIUS: int := 15

  /** The hover test's bound: |q|, |r| and |-q-r| all at most MAP_RADIUS. */
  predicate InMap(q: int, r: int) {
    Abs(q) <= MAP_RADIUS && Abs(r) <= MAP_RADIUS && Abs(-q - r) <= MAP_RADIUS
  }

  /** For a column q of the map, the render loop's row range [r1, r2] is exactly the map's cells in that column. */
  lemma RowRangeIsMap(q: int, r: int)
    requires -MAP_RADIUS <= q <= MAP_RADIUS
    ensures Max(-MAP_RADIUS, -q - MAP_RADIUS) <= r <= Min(MAP_RADIUS, -q + MAP_RADIUS) <==> InMap(q, r)
  {
  }

  /** What the renderer decides for one visited cell before drawing it. */
  datatype Cell = Cell(q: int, r: int, terrain: TerrainType, location: Option<WorldLocation>,
                       isActive: bool, isHovered: bool, opacity: real)

  /** The hover state: the cell under the pointer and the location on it, if any. */
  datatype HoveredHex = HoveredHex(q: int, r: int, data: Option<WorldLocation>)

  /** The render decisions for cell (q, r). */
  function CellAt(locations: seq<WorldLocation>, world: WorldView, activeId: Option<string>,
                  hovered: Option<HoveredHex>, q: int, r: int): (c: Cell)
    ensures c.q == q && c.r == r && c.terrain == Terrain(locations, world, q, r)
    ensures c.location == FindLocation(locations, q, r)
    ensures c.isActive <==> exists l :: c.location == Some(l) && activeId == Some(l.id)
    ensures c.isHovered <==> hovered.Some? && hovered.value.q == q && hovered.value.r == r
    ensures c.opacity == 0.8 <==> c.terrain == DeepSpace || c.terrain == Ocean
    ensures c.opacity != 0.8 ==> c.opacity == 1.0
  {
    var existing := FindLocation(locations, q, r);
    var terrain := Terrain(locations, world, q, r);
    Cell(q, r, terrain, existing,
         existing.Some? && activeId == Some(existing.value.id),
         hovered.Some? && hovered.value.q == q && hovered.value.r == r,
         if terrain == DeepSpace || terrain == Ocean then 0.8 else 1.0)
  }

  ghost predicate Visited(cells: seq<Cell>, q: int, r: int) {
    exists i :: 0 <= i < |cells| && cells[i].q == q && cells[i].r == r
  }

  predicate Before(a: Cell, b: Cell) {
    a.q < b.q || (a.q == b.q && a.r < b.r)
  }

  /** The cells drawn so far: all on the map, in strictly increasing (q, r) order, each with its render decisions. */
  ghost predicate Drawn(cells: seq<Cell>, locations: seq<WorldLocation>, world: WorldView, activeId: Option<string>,
                  hovered: Option<HoveredHex>) {
    && (forall i :: 0 <= i < |cells| ==> InMap(cells[i].q, cells[i].r))
    && (forall i, j :: 0 <= i < j < |cells| ==> Before(cells[i], cells[j]))
    && (forall i :: 0 <= i < |cells| ==> cells[i] == CellAt(locations, world, activeId, hovered, cells[i].q, cells[i].r))
  }

  /** Every cell drawn so far comes before (q, r). */
  ghost predicate AllBefore(cells: seq<Cell>, q: int, r: int) {
    forall i :: 0 <= i < |cells| ==> cells[i].q < q || (cells[i].q == q && cells[i].r < r)
  }

  /** Every map cell before (q, r) has been drawn. */
  ghost predicate CoversUpTo(cells: seq<Cell>, q: int, r: int) {
    forall q', r' :: InMap(q', r') && (q' < q || (q' == q && r' < r)) ==> Visited(cells, q', r')
  }

  /** Drawing map cell (q, r) next keeps the drawn cells on the map, in order and with their decisions. */
  lemma DrawStep(cells: seq<Cell>, locations: seq<WorldLocation>, world: WorldView, activeId: Option<string>,
                 hovered: Option<HoveredHex>, q: int, r: int, cell: Cell)
    requires Drawn(cells, locations, world, activeId, hovered) && AllBefore(cells, q, r)
    requires InMap(q, r) && cell == CellAt(locations, world, activeId, hovered, q, r)
    ensures Drawn(cells + [cell], locations, world, activeId, hovered)
    ensures AllBefore(cells + [cell], q, r + 1)
  {
    var next := cells + [cell];
    assert next[|cells|] == cell;
    assert forall i :: 0 <= i < |cells| ==> next[i] == cells[i];
  }

  /** Drawing map cell (q, r) next moves the coverage on to (q, r + 1). */
  lemma CoverStep(cells: seq<Cell>, q: int, r: int, cell: Cell)
    requires CoversUpTo(cells, q, r) && cell.q == q && cell.r == r
    ensures CoversUpTo(cells + [cell], q, r + 1)
  {
    var next := cells + [cell];
    forall q', r' | InMap(q', r') && (q' < q || (q' == q && r' < r + 1)) ensures Visited(next, q', r') {
      if q' == q && r' == r {
        assert next[|cells|].q == q' && next[|cells|].r == r';
      } else {
        var i :| 0 <= i < |cells| && cells[i].q == q' && cells[i].r == r';
        assert next[i].q == q' && next[i].r == r';
      }
    }
  }

  /** After column q's row range, every map cell of columns up to q has been drawn. */
  lemma ColumnDone(cells: seq<Cell>, q: int, r: int)
    requires -MAP_RADIUS <= q <= MAP_RADIUS
    requires r > Min(MAP_RADIUS, -q + MAP_RADIUS)
    requires CoversUpTo(cells, q, r)
    ensures CoversUpTo(cells, q + 1, Max(-MAP_RADIUS, -(q + 1) - MAP_RADIUS))
  {
    forall q', r' | InMap(q', r') && (q' < q + 1 || (q' == q + 1 && r' < Max(-MAP_RADIUS, -(q + 1) - MAP_RADIUS)))
      ensures Visited(cells, q', r')
    {
      if q' == q {
        RowRangeIsMap(q, r');
      } else if q' == q + 1 {
        RowRangeIsMap(q + 1, r');
        assert false;
      }
    }
  }

  /**
   * The grid loop of `render` (viewport culling and drawing aside): it visits
   * every cell of the map exactly once, column by column, and decides each
   * cell's terrain, location, highlight and opacity.
   */
  method RenderGrid(locations: seq<WorldLocation>, world: WorldView, activeId: Option<string>,
                    hovered: Option<HoveredHex>) returns (cells: seq<Cell>)
    ensures forall i :: 0 <= i < |cells| ==> InMap(cells[i].q, cells[i].r)
    ensures forall q, r :: InMap(q, r) ==> Visited(cells, q, r)
    ensures forall i, j :: 0 <= i < j < |cells| ==> Before(cells[i], cells[j])
    ensures forall i :: 0 <= i < |cells| ==>
              cells[i] == CellAt(locations, world, activeId, hovered, cells[i].q, cells[i].r)
  {
    cells := [];
    var q := -MAP_RADIUS;
    while q <= MAP_RADIUS
      invariant -MAP_RADIUS <= q <= MAP_RADIUS + 1
      invariant Drawn(cells, locations, world, activeId, hovered)
      invariant AllBefore(cells, q, Max(-MAP_RADIUS, -q - MAP_RADIUS))
      invariant CoversUpTo(cells, q, Max(-MAP_RADIUS, -q - MAP_RADIUS))
    {
      var r1 := Max(-MAP_RADIUS, -q - MAP_RADIUS);
      var r2 := Min(MAP_RADIUS, -q + MAP_RADIUS);
      var r := r1;
      while r <= r2
        invariant r1 <= r <= r2 + 1
        invariant Drawn(cells, locations, world, activeId, hovered)
        invariant AllBefore(cells, q, r) && CoversUpTo(cells, q, r)
      {
        RowRangeIsMap(q, r);
        var existing := FindLocation(locations, q, r);
        var terrain := GetProceduralTerrain(locations, world, q, r);
        var isActive := existing.Some? && activeId == Some(existing.value.id);
        var isHovered := hovered.Some? && hovered.value.q == q && hovered.value.r == r;
        var opacity := if terrain == DeepSpace || terrain == Ocean then 0.8 else 1.0;
        var cell := Cell(q, r, terrain, existing, isActive, isHovered, opacity);
        DrawStep(cells, locations, world, activeId, hovered, q, r, cell);
        CoverStep(cells, q, r, cell);
        cells := cells + [cell];
        r := r + 1;
      }
      ColumnDone(cells, q, r);
      q := q + 1;
    }
    forall q', r' | InMap(q', r') ensures Visited(cells, q', r') {
      assert q' < q;
    }
  }

  /**
   * The hit-test's outcome for the cell under the pointer: inside the map, the
   * cell with the location on it (or none); outside, no hover at all.
   */
  function HoverAt(locations: seq<WorldLocation>, h: Hex): (hover: Option<HoveredHex>)
    ensures hover.Some? <==> InMap(h.q, h.r)
    ensures hover.Some? ==> hover.value.q == h.q && hover.value.r == h.r &&
                            hover.value.data == FindLocation(locations, h.q, h.r)
  {
    if InMap(h.q, h.r) then Some(HoveredHex(h.q, h.r, FindLocation(locations, h.q, h.r))) else None
  }

  /** Every cell the hit-test can hover is a cell the render loop draws, with the same location on it. */
  lemma HoverableIsRendered(locations: seq<WorldLocation>, world: WorldView, activeId: Option<string>,
                            hovered: Option<HoveredHex>, cells: seq<Cell>, h: Hex)
    requires forall q, r :: InMap(q, r) ==> Visited(cells, q, r)
    requires forall i :: 0 <= i < |cells| ==>
               cells[i] == CellAt(locations, world, activeId, hovered, cells[i].q, cells[i].r)
    requires HoverAt(locations, h).Some?
    ensures exists i :: 0 <= i < |cells| && cells[i].q == h.q && cells[i].r == h.r &&
                        cells[i].location == HoverAt(locations, h).value.data
  {
    assert Visited(cells, h.q, h.r);
  }
}
