/**
 * The map legend (HexMap.tsx `legendItems`): the set of terrain kinds used by
 * the world's regions and by its locations, listed once each and sorted by
 * name as `Array.prototype.sort` orders strings.
 */
module HexLegend {
  import opened Text
  import opened WorldTypes

  /** Strictly increasing by name: sorted, and so without repetitions. */
  predicate SortedByName(items: seq<TerrainType>) {
    forall i, j :: 0 <= i < j < |items| ==> StrLess(TerrainName(items[i]), TerrainName(items[j]))
  }

  /** Every kind of a sorted list's tail, and any kind named after its head, comes after its head. */
  lemma RestAbove(t: TerrainType, items: seq<TerrainType>, rest: seq<TerrainType>)
    requires SortedByName(items) && items != []
    requires StrLess(TerrainName(items[0]), TerrainName(t))
    requires forall u :: u in rest <==> u == t || u in items[1..]
    ensures forall u :: u in rest ==> StrLess(TerrainName(items[0]), TerrainName(u))
  {
    forall u | u in rest ensures StrLess(TerrainName(items[0]), TerrainName(u)) {
      if u != t {
        var k :| 0 <= k < |items| - 1 && items[1..][k] == u;
        assert items[k + 1] == u;
      }
    }
  }

  /** The tail of a sorted list is sorted. */
  lemma SortedTail(items: seq<TerrainType>)
    requires SortedByName(items) && items != []
    ensures SortedByName(items[1..])
  {
    forall i, j | 0 <= i < j < |items| - 1
      ensures StrLess(TerrainName(items[1..][i]), TerrainName(items[1..][j]))
    {
      assert items[1..][i] == items[i + 1] && items[1..][j] == items[j + 1];
    }
  }

  /** Adds one kind to a sorted list, unless it is already there (the `Set.add`, kept in sort order). */
  function Insert(t: TerrainType, items: seq<TerrainType>): (r: seq<TerrainType>)
    requires SortedByName(items)
    ensures SortedByName(r)
    ensures forall u :: u in r <==> u == t || u in items
    decreases |items|
  {
    if items == [] then [t]
    else if t == items[0] then items
    else if StrLess(TerrainName(t), TerrainName(items[0])) then
      InsertFrontSorted(t, items);
      [t] + items
    else
      var rest := Insert(t, items[1..]);
      TerrainNameInjective(t, items[0]);
      StrLessTotal(TerrainName(t), TerrainName(items[0]));
      RestAbove(t, items, rest);
      [items[0]] + rest
  }

  lemma InsertFrontSorted(t: TerrainType, items: seq<TerrainType>)
    requires SortedByName(items) && items != [] && StrLess(TerrainName(t), TerrainName(items[0]))
    ensures SortedByName([t] + items)
  {
    forall j | 1 <= j < |items| ensures StrLess(TerrainName(t), TerrainName(items[j])) {
      StrLessTransitive(TerrainName(t), TerrainName(items[0]), TerrainName(items[j]));
    }
  }

  /** Adds kinds one by one, in order, to a sorted list. */
  function InsertAll(ts: seq<TerrainType>, items: seq<TerrainType>): (r: seq<TerrainType>)
    requires SortedByName(items)
    ensures SortedByName(r)
    ensures forall u :: u in r <==> u in ts || u in items
    decreases |ts|
  {
    if ts == [] then items else InsertAll(ts[1..], Insert(ts[0], items))
  }

  function Biomes(regions: seq<WorldRegion>): (bs: seq<TerrainType>)
    ensures forall t :: t in bs <==> exists region :: region in regions && region.biome == t
    decreases |regions|
  {
    if regions == [] then [] else [regions[0].biome] + Biomes(regions[1..])
  }

  function LocationTerrains(locations: seq<WorldLocation>): (ts: seq<TerrainType>)
    ensures forall t :: t in ts <==> exists l :: l in locations && l.terrain == t
    decreases |locations|
  {
    if locations == [] then [] else [locations[0].terrain] + LocationTerrains(locations[1..])
  }

  /**
   * `legendItems`: exactly the kinds that some region has as biome or some
   * location has as terrain, each once, in increasing order of name.
   */
  function LegendItems(world: WorldView, locations: seq<WorldLocation>): (items: seq<TerrainType>)
    ensures SortedByName(items)
    ensures forall t :: t in items <==>
              (exists region :: region in world.regions && region.biome == t) ||
              (exists l :: l in locations && l.terrain == t)
  {
    InsertAll(Biomes(world.regions) + LocationTerrains(locations), [])
  }

  /** A name-sorted list repeats nothing. */
  lemma SortedDistinct(items: seq<TerrainType>)
    requires SortedByName(items)
    ensures forall i, j :: 0 <= i < j < |items| ==> items[i] != items[j]
  {
    forall i, j | 0 <= i < j < |items| ensures items[i] != items[j] {
      StrLessIrreflexive(TerrainName(items[i]));
    }
  }

  /** Two name-sorted lists with the same kinds start with the same kind. */
  lemma SameHead(a: seq<TerrainType>, b: seq<TerrainType>)
    requires SortedByName(a) && SortedByName(b) && a != [] && b != []
    requires forall t :: t in a <==> t in b
    ensures a[0] == b[0]
  {
    assert a[0] in a && b[0] in b;
    if a[0] != b[0] {
      var j :| 0 <= j < |b| && b[j] == a[0];
      var i :| 0 <= i < |a| && a[i] == b[0];
      assert j > 0 && i > 0;
      StrLessTransitive(TerrainName(a[0]), TerrainName(a[i]), TerrainName(b[j]));
      StrLessIrreflexive(TerrainName(a[0]));
      assert false;
    }
  }

  /** Removing a common first kind from two sorted lists with the same kinds leaves the same kinds. */
  lemma SameTails(a: seq<TerrainType>, b: seq<TerrainType>)
    requires SortedByName(a) && SortedByName(b) && a != [] && b != [] && a[0] == b[0]
    requires forall t :: t in a <==> t in b
    ensures forall t :: t in a[1..] <==> t in b[1..]
  {
    SortedDistinct(a);
    SortedDistinct(b);
    forall t ensures t in a[1..] ==> t in b[1..] {
      if t in a[1..] {
        var i :| 0 <= i < |a| - 1 && a[1..][i] == t;
        assert a[i + 1] == t && t != a[0] && t in b;
        var j :| 0 <= j < |b| && b[j] == t;
        assert b[1..][j - 1] == t;
      }
    }
    forall t ensures t in b[1..] ==> t in a[1..] {
      if t in b[1..] {
        var j :| 0 <= j < |b| - 1 && b[1..][j] == t;
        assert b[j + 1] == t && t != b[0] && t in a;
        var i :| 0 <= i < |a| && a[i] == t;
        assert a[1..][i - 1] == t;
      }
    }
  }

  /** Two name-sorted lists with the same kinds are the same list: the legend's order is fully determined. */
  lemma {:induction false} SortedUnique(a: seq<TerrainType>, b: seq<TerrainType>)
    requires SortedByName(a) && SortedByName(b)
    requires forall t :: t in a <==> t in b
    ensures a == b
    decreases |a|
  {
    assert a != [] ==> a[0] in a;
    assert b != [] ==> b[0] in b;
    if a != [] && b != [] {
      SameHead(a, b);
      SameTails(a, b);
      SortedTail(a);
      SortedTail(b);
      SortedUnique(a[1..], b[1..]);
      assert a == [a[0]] + a[1..] && b == [b[0]] + b[1..];
    }
  }
}
