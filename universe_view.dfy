/**
 * The state of the universe view (CyberUniverse.tsx): the node list, the
 * evolving flag, the physics map of node entries and the hovered node, with
 * the handlers that update them.
 */
module UniverseView {
  import opened Wrappers
  import opened UniverseNodes
  import opened UniverseLayout

  class Universe {
    var nodes: seq<UniverseNode>
    var isEvolving: bool
    var positions: map<string, Kinematics>
    var hovered: Option<UniverseNode>

    /** The graph always starts with the Big Bang, and growth only appends. */
    ghost predicate Valid()
      reads this
    {
      |nodes| >= 1 && nodes[0] == BigBang()
    }

    /** The initial state: the root node alone, no entries, idle, nothing hovered. */
    constructor ()
      ensures Valid()
      ensures nodes == [BigBang()] && positions == map[] && !isEvolving && hovered.None?
      ensures IdsDistinct(nodes)
    {
      nodes := [BigBang()];
      isEvolving := false;
      positions := map[];
      hovered := None;
    }

    /**
     * The seeding effect run after every change of `nodes`: each node without
     * an entry gets one (`dirs[i]` is the angle drawn for node i); existing
     * entries are kept, and afterwards every node has an entry.
     */
    method SeedPositions(dirs: seq<Direction>)
      requires |dirs| == |nodes| && AllUnit(dirs)
      modifies this`positions
      ensures positions == SeedAll(old(positions), nodes, dirs)
      ensures forall n :: n in nodes ==> n.id in positions
      ensures forall id :: id in old(positions) ==> id in positions && positions[id] == old(positions)[id]
    {
      SeedCovers(positions, nodes, dirs);
      SeedKeeps(positions, nodes, dirs);
      var i := 0;
      while i < |nodes|
        invariant 0 <= i <= |nodes|
        invariant SeedAll(positions, nodes[i..], dirs[i..]) == SeedAll(old(positions), nodes, dirs)
      {
        var node := nodes[i];
        assert nodes[i..][1..] == nodes[i + 1..] && dirs[i..][1..] == dirs[i + 1..];
        if node.id !in positions {
          positions := positions[node.id := Spawn(positions, node, dirs[i])];
        }
        i := i + 1;
      }
    }

    /**
     * `handleMouseMove`: the pointer, relative to the canvas centre, picks the
     * first nearest node within the hit radius, or clears the hover.
     */
    method MouseMove(clientX: real, clientY: real, rectLeft: real, rectTop: real, width: real, height: real)
      modifies this`hovered
      ensures var mx := clientX - rectLeft - width / 2.0;
              var my := clientY - rectTop - height / 2.0;
              (hovered.None? <==> NoneInReach(nodes, positions, mx, my)) &&
              (hovered.Some? ==> exists i :: IsPick(nodes, positions, mx, my, i) && nodes[i] == hovered.value)
    {
      var mx := clientX - rectLeft - width / 2.0;
      var my := clientY - rectTop - height / 2.0;
      hovered := PickNode(nodes, positions, mx, my);
    }

    /** A click on the canvas clears the hover. */
    method Click()
      modifies this`hovered
      ensures hovered.None?
    {
      hovered := None;
    }

    /**
     * The synchronous start of `handleNextDay`. A request already in flight
     * makes it do nothing; a graph without leaves resets the flag; otherwise
     * the view is marked evolving and the first three leaves of the shuffle
     * (`shuffled`, a permutation of the leaves) are sent out.
     */
    method BeginNextDay(shuffled: seq<UniverseNode>) returns (active: Option<seq<UniverseNode>>)
      requires multiset(shuffled) == multiset(Leaves(nodes))
      modifies this`isEvolving
      ensures old(isEvolving) ==> active.None? && isEvolving
      ensures !old(isEvolving) && |Leaves(old(nodes))| == 0 ==> active.None? && !isEvolving
      ensures !old(isEvolving) && |Leaves(old(nodes))| > 0 ==>
                isEvolving && active == Some(ActiveLeaves(old(nodes), shuffled))
    {
      if isEvolving {
        return None;
      }
      var leaves := Leaves(nodes);
      var picked := ActiveLeaves(nodes, shuffled);
      isEvolving := true;
      if |leaves| == 0 {
        isEvolving := false;
        return None;
      }
      active := Some(picked);
    }

    /**
     * The end of `handleNextDay`: the branch list the generator returned (None
     * when the call failed or returned something other than an array) is
     * turned into new nodes appended after the existing ones; the flag is
     * always reset. The generator of this code base returns an empty list, so
     * the graph stays as it is; any list is admitted here. `stamps[i]` is the
     * clock reading taken for entry i. Ids stay unique when no earlier node
     * carries any of these readings.
     */
    method FinishNextDay(response: Option<seq<BranchData>>, stamps: seq<nat>)
      requires Valid()
      requires response.Some? ==> |stamps| == |response.value|
      modifies this`nodes, this`isEvolving
      ensures Valid()
      ensures response.None? ==> nodes == old(nodes)
      ensures response.Some? ==> nodes == old(nodes) + NewNodes(old(nodes), response.value, stamps)
      ensures response == Some([]) ==> nodes == old(nodes)
      ensures IdsDistinct(old(nodes)) && FreshStamps(old(nodes), stamps) ==> IdsDistinct(nodes)
      ensures !isEvolving
    {
      if response.Some? {
        var created := NewNodes(nodes, response.value, stamps);
        if IdsDistinct(nodes) && FreshStamps(nodes, stamps) {
          AppendKeepsIdsDistinct(nodes, response.value, stamps);
        }
        nodes := nodes + created;
      }
      isEvolving := false;
    }
  }
}
