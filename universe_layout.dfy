/**
 * The discrete part of the universe view's layout (CyberUniverse.tsx): lazy
 * seeding of each node's kinematic entry in the `positions` map, and the
 * nearest-node pick under the pointer.
 */
module UniverseLayout {
  import opened Wrappers
  import opened UniverseNodes

  /** A node's position and velocity. */
  datatype Kinematics = Kinematics(x: real, y: real, vx: real, vy: real)

  /** The direction of the random spawn angle: (cos a, sin a). */
  datatype Direction = Direction(c: real, s: real)

  predicate IsUnit(d: Direction) {
    d.c * d.c + d.s * d.s == 1.0
  }

  predicate AllUnit(dirs: seq<Direction>) {
    forall i :: 0 <= i < |dirs| ==> IsUnit(dirs[i])
  }

  /** `targetDist`: new nodes start near the spring's rest length from their parent. */
  const SPAWN_DISTANCE: real := 100.0

  function SqDist(x1: real, y1: real, x2: real, y2: real): real {
    (x1 - x2) * (x1 - x2) + (y1 - y2) * (y1 - y2)
  }

  /** A missing or empty parent id is falsy: the node is placed around the origin. */
  predicate RootLike(node: UniverseNode) {
    node.parentId.None? || node.parentId.value == ""
  }

  /**
   * `parentPos`: the origin for a root-like node, the parent's current entry
   * when it has one, and nothing when the parent has no entry yet.
   */
  function AnchorOf(positions: map<string, Kinematics>, node: UniverseNode): Option<(real, real)> {
    if RootLike(node) then Some((0.0, 0.0))
    else if node.parentId.value in positions then Some((positions[node.parentId.value].x, positions[node.parentId.value].y))
    else None
  }

  /**
   * The entry created for a node seen for the first time: at rest, exactly
   * SPAWN_DISTANCE from its anchor along the random direction (never on top of
   * the parent), or at the origin when there is no anchor.
   */
  function Spawn(positions: map<string, Kinematics>, node: UniverseNode, dir: Direction): (k: Kinematics)
    requires IsUnit(dir)
    ensures k.vx == 0.0 && k.vy == 0.0
    ensures AnchorOf(positions, node).Some? ==>
              var a := AnchorOf(positions, node).value;
              SqDist(k.x, k.y, a.0, a.1) == SPAWN_DISTANCE * SPAWN_DISTANCE && (k.x, k.y) != a
    ensures AnchorOf(positions, node).None? ==> k.x == 0.0 && k.y == 0.0
  {
    match AnchorOf(positions, node)
    case Some(a) =>
      var k := Kinematics(a.0 + dir.c * SPAWN_DISTANCE, a.1 + dir.s * SPAWN_DISTANCE, 0.0, 0.0);
      assert SqDist(k.x, k.y, a.0, a.1) == (dir.c * dir.c + dir.s * dir.s) * (SPAWN_DISTANCE * SPAWN_DISTANCE);
      k
    case None => Kinematics(0.0, 0.0, 0.0, 0.0)
  }

  /** One step of the seeding `forEach`: a node without an entry gets one; an existing entry is left alone. */
  function SeedOne(positions: map<string, Kinematics>, node: UniverseNode, dir: Direction): (m: map<string, Kinematics>)
    requires IsUnit(dir)
    ensures m.Keys == positions.Keys + {node.id}
    ensures forall id :: id in positions ==> m[id] == positions[id]
    ensures node.id !in positions ==> m[node.id].vx == 0.0 && m[node.id].vy == 0.0
  {
    if node.id in positions then positions else positions[node.id := Spawn(positions, node, dir)]
  }

  /** The seeding effect over the node list, in order; `dirs[i]` is the random direction drawn for node i. */
  function SeedAll(positions: map<string, Kinematics>, nodes: seq<UniverseNode>, dirs: seq<Direction>): map<string, Kinematics>
    requires |dirs| == |nodes| && AllUnit(dirs)
    decreases |nodes|
  {
    if nodes == [] then positions
    else SeedAll(SeedOne(positions, nodes[0], dirs[0]), nodes[1..], dirs[1..])
  }

  /** Seeding never changes an existing entry. */
  lemma {:induction false} SeedKeeps(positions: map<string, Kinematics>, nodes: seq<UniverseNode>, dirs: seq<Direction>)
    requires |dirs| == |nodes| && AllUnit(dirs)
    ensures forall id :: id in positions ==> id in SeedAll(positions, nodes, dirs) &&
                                             SeedAll(positions, nodes, dirs)[id] == positions[id]
    decreases |nodes|
  {
    if nodes != [] {
      SeedKeeps(SeedOne(positions, nodes[0], dirs[0]), nodes[1..], dirs[1..]);
    }
  }

  /**
   * After seeding, the map's keys are the old keys plus the ids of all nodes:
   * every node has an entry, and no other entry appears.
   */
  lemma {:induction false} SeedCovers(positions: map<string, Kinematics>, nodes: seq<UniverseNode>, dirs: seq<Direction>)
    requires |dirs| == |nodes| && AllUnit(dirs)
    ensures forall id :: id in SeedAll(positions, nodes, dirs) <==>
                         id in positions || exists n :: n in nodes && n.id == id
    decreases |nodes|
  {
    if nodes != [] {
      SeedCovers(SeedOne(positions, nodes[0], dirs[0]), nodes[1..], dirs[1..]);
      assert forall n :: n in nodes <==> n == nodes[0] || n in nodes[1..] by {
        assert nodes == [nodes[0]] + nodes[1..];
      }
    }
  }

  /** Every entry seeding creates starts at rest. */
  lemma {:induction false} SeedAtRest(positions: map<string, Kinematics>, nodes: seq<UniverseNode>, dirs: seq<Direction>)
    requires |dirs| == |nodes| && AllUnit(dirs)
    ensures forall id :: id in SeedAll(positions, nodes, dirs) && id !in positions ==>
                         SeedAll(positions, nodes, dirs)[id].vx == 0.0 && SeedAll(positions, nodes, dirs)[id].vy == 0.0
    decreases |nodes|
  {
    if nodes != [] {
      var next := SeedOne(positions, nodes[0], dirs[0]);
      SeedAtRest(next, nodes[1..], dirs[1..]);
      SeedKeeps(next, nodes[1..], dirs[1..]);
    }
  }

  /** Seeding a list is seeding its first i nodes, then the rest. */
  lemma {:induction false} SeedSplit(positions: map<string, Kinematics>, nodes: seq<UniverseNode>, dirs: seq<Direction>, i: nat)
    requires |dirs| == |nodes| && AllUnit(dirs) && i <= |nodes|
    ensures SeedAll(positions, nodes, dirs) == SeedAll(SeedAll(positions, nodes[..i], dirs[..i]), nodes[i..], dirs[i..])
    decreases i
  {
    if i > 0 {
      SeedSplit(SeedOne(positions, nodes[0], dirs[0]), nodes[1..], dirs[1..], i - 1);
      assert nodes[1..][..i - 1] == nodes[..i][1..] && dirs[1..][..i - 1] == dirs[..i][1..];
      assert nodes[1..][i - 1..] == nodes[i..] && dirs[1..][i - 1..] == dirs[i..];
    }
  }

  /**
   * Placement of a node seeded in this pass: it is spawned against the map as
   * it stands when its turn comes (parents earlier in the list already
   * placed). If its anchor exists then, the node ends exactly SPAWN_DISTANCE
   * from where that anchor still is after the pass; otherwise it starts at the origin.
   */
  lemma {:induction false} SeedPlacement(positions: map<string, Kinematics>, nodes: seq<UniverseNode>, dirs: seq<Direction>, i: nat)
    requires |dirs| == |nodes| && AllUnit(dirs) && i < |nodes|
    requires nodes[i].id !in SeedAll(positions, nodes[..i], dirs[..i])
    ensures var before := SeedAll(positions, nodes[..i], dirs[..i]);
            var after := SeedAll(positions, nodes, dirs);
            nodes[i].id in after &&
            var k := after[nodes[i].id];
            k.vx == 0.0 && k.vy == 0.0 &&
            (RootLike(nodes[i]) ==> SqDist(k.x, k.y, 0.0, 0.0) == SPAWN_DISTANCE * SPAWN_DISTANCE) &&
            (!RootLike(nodes[i]) && nodes[i].parentId.value in before ==>
               var p := nodes[i].parentId.value;
               p in after && SqDist(k.x, k.y, after[p].x, after[p].y) == SPAWN_DISTANCE * SPAWN_DISTANCE) &&
            (AnchorOf(before, nodes[i]).None? ==> k.x == 0.0 && k.y == 0.0)
  {
    var before := SeedAll(positions, nodes[..i], dirs[..i]);
    SeedSplit(positions, nodes, dirs, i);
    var placed := SeedOne(before, nodes[i], dirs[i]);
    assert nodes[i..][1..] == nodes[i + 1..] && dirs[i..][1..] == dirs[i + 1..];
    assert SeedAll(positions, nodes, dirs) == SeedAll(placed, nodes[i + 1..], dirs[i + 1..]);
    SeedKeeps(placed, nodes[i + 1..], dirs[i + 1..]);
    SeedKeeps(before, nodes[i..], dirs[i..]);
  }

  /** The pick radius, squared: 20 pixels. */
  const HIT_RADIUS_SQ: real := 400.0

  /** The pointer's squared distance to a node's entry. */
  function PointerDist(positions: map<string, Kinematics>, node: UniverseNode, mx: real, my: real): real
    requires node.id in positions
  {
    SqDist(mx, my, positions[node.id].x, positions[node.id].y)
  }

  /**
   * Node i is the pick: it has an entry closer than the pick radius, no node
   * with an entry is closer, and every earlier one is strictly farther.
   */
  ghost predicate IsPick(nodes: seq<UniverseNode>, positions: map<string, Kinematics>, mx: real, my: real, i: int) {
    && 0 <= i < |nodes| && nodes[i].id in positions
    && PointerDist(positions, nodes[i], mx, my) < HIT_RADIUS_SQ
    && forall j :: 0 <= j < |nodes| && nodes[j].id in positions ==>
         PointerDist(positions, nodes[i], mx, my) <= PointerDist(positions, nodes[j], mx, my) &&
         (j < i ==> PointerDist(positions, nodes[i], mx, my) < PointerDist(positions, nodes[j], mx, my))
  }

  /** No node with an entry lies within the pick radius. */
  ghost predicate NoneInReach(nodes: seq<UniverseNode>, positions: map<string, Kinematics>, mx: real, my: real) {
    forall j :: 0 <= j < |nodes| && nodes[j].id in positions ==> PointerDist(positions, nodes[j], mx, my) >= HIT_RADIUS_SQ
  }

  /**
   * The closest-node loop of `handleMouseMove` (distances compared squared,
   * which orders them as the square roots do): the first nearest node within
   * 20 pixels of the pointer, or none.
   */
  method PickNode(nodes: seq<UniverseNode>, positions: map<string, Kinematics>, mx: real, my: real)
    returns (closest: Option<UniverseNode>)
    ensures closest.None? <==> NoneInReach(nodes, positions, mx, my)
    ensures closest.Some? ==> exists i :: IsPick(nodes, positions, mx, my, i) && nodes[i] == closest.value
  {
    closest := None;
    var minDist := HIT_RADIUS_SQ;
    ghost var best := -1;
    for k := 0 to |nodes|
      invariant -1 <= best < k
      invariant closest.None? <==> best == -1
      invariant best == -1 ==> minDist == HIT_RADIUS_SQ
      invariant best >= 0 ==> nodes[best].id in positions && closest == Some(nodes[best]) &&
                              minDist == PointerDist(positions, nodes[best], mx, my) < HIT_RADIUS_SQ
      invariant forall j :: 0 <= j < k && nodes[j].id in positions ==>
                  minDist <= PointerDist(positions, nodes[j], mx, my) &&
                  (j < best ==> minDist < PointerDist(positions, nodes[j], mx, my))
    {
      var node := nodes[k];
      if node.id in positions {
        var pos := positions[node.id];
        var dx := mx - pos.x;
        var dy := my - pos.y;
        var dist := dx * dx + dy * dy;
        assert dist == PointerDist(positions, nodes[k], mx, my);
        if dist < minDist {
          closest := Some(node);
          minDist := dist;
          best := k;
        }
      }
    }
    if best >= 0 {
      assert IsPick(nodes, positions, mx, my, best);
    }
  }
}
