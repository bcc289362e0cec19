/**
 * The graph bookkeeping of the universe view (CyberUniverse.tsx
 * `handleNextDay`): which nodes are leaves, which of them are sent on, and how
 * the entries returned for them become new nodes appended to the graph.
 */
module UniverseNodes {
  import opened Wrappers
  import opened Text
  import opened Numeric

  datatype Stats = Stats(water: int, oxygen: int, biomass: int)

  /** A node of the graph (types.ts `UniverseNode`); `kind` is its `type` field ('root', 'splitter' or 'branch'). */
  datatype UniverseNode = UniverseNode(id: string, parentId: Option<string>, kind: string, title: string,
                                       description: string, stats: Stats, level: int)

  /** The id of the root node. */
  const ROOT_ID: string := "root"

  /** The graph's initial and only root node. */
  function BigBang(): UniverseNode {
    UniverseNode(ROOT_ID, None, "root", "BIG BANG",
                 "The initialization of the Cyber Universe. Energy coalesces into digital matter.",
                 Stats(0, 0, 0), 0)
  }

  /** One entry of the generated branch data; every field may be missing. */
  datatype RawStats = RawStats(water: Option<int>, oxygen: Option<int>, biomass: Option<int>)
  datatype BranchData = BranchData(parentId: Option<string>, kind: Option<string>, title: Option<string>,
                                   description: Option<string>, stats: Option<RawStats>)

  /** `value || fallback` on a string: missing and empty strings are falsy. */
  function OrText(value: Option<string>, fallback: string): (s: string)
    ensures value.Some? && value.value != "" ==> s == value.value
    ensures value.None? || value.value == "" ==> s == fallback
  {
    if value.Some? && value.value != "" then value.value else fallback
  }

  /** `value || fallback` on a number: missing values and 0 are falsy. */
  function OrNumber(value: Option<int>, fallback: int): (n: int)
    ensures value.Some? && value.value != 0 ==> n == value.value
    ensures value.None? || value.value == 0 ==> n == fallback
  {
    if value.Some? && value.value != 0 then value.value else fallback
  }

  /** No node of the graph names n as its parent. */
  ghost predicate IsLeaf(nodes: seq<UniverseNode>, n: UniverseNode) {
    forall m :: m in nodes ==> m.parentId != Some(n.id)
  }

  /** `new Set(nodes.map(n => n.parentId))`, `null` (None) included. */
  function ParentIds(nodes: seq<UniverseNode>): (ids: set<Option<string>>)
    ensures forall p :: p in ids <==> exists m :: m in nodes && m.parentId == p
  {
    set m | m in nodes :: m.parentId
  }

  /** `ns.filter(n => !parentIds.has(n.id))`. */
  function FilterOutParents(ns: seq<UniverseNode>, parentIds: set<Option<string>>): (kept: seq<UniverseNode>)
    ensures forall n :: n in kept <==> n in ns && Some(n.id) !in parentIds
    ensures forall n :: multiset(kept)[n] == if Some(n.id) !in parentIds then multiset(ns)[n] else 0
    ensures multiset(kept) <= multiset(ns)
    decreases |ns|
  {
    if ns == [] then []
    else
      var rest := FilterOutParents(ns[1..], parentIds);
      assert ns == [ns[0]] + ns[1..];
      assert multiset(ns) == multiset{ns[0]} + multiset(ns[1..]);
      assert forall n :: n in ns <==> n == ns[0] || n in ns[1..];
      if Some(ns[0].id) !in parentIds then [ns[0]] + rest else rest
  }

  /** The leaves: exactly the nodes whose id is no node's parent id. */
  function Leaves(nodes: seq<UniverseNode>): (leaves: seq<UniverseNode>)
    ensures forall n :: n in leaves <==> n in nodes && IsLeaf(nodes, n)
    ensures forall n :: multiset(leaves)[n] == if IsLeaf(nodes, n) then multiset(nodes)[n] else 0
    ensures multiset(leaves) <= multiset(nodes)
  {
    FilterOutParents(nodes, ParentIds(nodes))
  }

  /**
   * `leaves.sort(random).slice(0, 3)`: the shuffled leaves (any reordering of
   * them) cut to at most three. Every one is a leaf, and none is sent more
   * often than it is a leaf.
   */
  function ActiveLeaves(nodes: seq<UniverseNode>, shuffled: seq<UniverseNode>): (active: seq<UniverseNode>)
    requires multiset(shuffled) == multiset(Leaves(nodes))
    ensures |active| == Min(3, |Leaves(nodes)|)
    ensures forall n :: n in active ==> n in nodes && IsLeaf(nodes, n)
    ensures multiset(active) <= multiset(Leaves(nodes))
  {
    var active := shuffled[..Min(3, |shuffled|)];
    assert shuffled == active + shuffled[Min(3, |shuffled|)..];
    assert |shuffled| == |multiset(shuffled)| == |Leaves(nodes)|;
    assert forall n :: n in active ==> n in multiset(Leaves(nodes));
    active
  }

  /** No node occurs twice in the list. */
  predicate NoDup(ns: seq<UniverseNode>) {
    forall i, j :: 0 <= i < j < |ns| ==> ns[i] != ns[j]
  }

  /** A list without repeats has multiplicity at most one for every node, and conversely. */
  lemma {:induction false} NoDupMultiplicity(ns: seq<UniverseNode>)
    ensures NoDup(ns) <==> forall n :: multiset(ns)[n] <= 1
    decreases |ns|
  {
    if ns != [] {
      var t := ns[1..];
      NoDupMultiplicity(t);
      assert ns == [ns[0]] + t;
      assert multiset(ns) == multiset{ns[0]} + multiset(t);
      assert NoDup(ns) <==> NoDup(t) && ns[0] !in t by {
        assert forall i :: 1 <= i < |ns| ==> ns[i] == t[i - 1];
        if NoDup(t) && ns[0] !in t {
          forall i, j | 0 <= i < j < |ns| ensures ns[i] != ns[j] {
            if i > 0 {
              assert ns[i] == t[i - 1] && ns[j] == t[j - 1];
            } else {
              assert ns[j] == t[j - 1] && t[j - 1] in t;
            }
          }
        }
        if NoDup(ns) {
          forall i, j | 0 <= i < j < |t| ensures t[i] != t[j] {
            assert t[i] == ns[i + 1] && t[j] == ns[j + 1];
          }
          forall k | 0 <= k < |t| ensures t[k] != ns[0] {
            assert t[k] == ns[k + 1];
          }
        }
      }
      assert (ns[0] !in t) == (multiset(t)[ns[0]] == 0);
      if forall n :: multiset(ns)[n] <= 1 {
        assert multiset(ns)[ns[0]] <= 1;
        forall n ensures multiset(t)[n] <= 1 {
          assert multiset(ns)[n] <= 1;
        }
      }
    }
  }

  /** Distinct nodes give distinct leaves, so the active leaves sent on are distinct too. */
  lemma ActiveLeavesDistinct(nodes: seq<UniverseNode>, shuffled: seq<UniverseNode>)
    requires multiset(shuffled) == multiset(Leaves(nodes))
    requires NoDup(nodes)
    ensures NoDup(Leaves(nodes)) && NoDup(ActiveLeaves(nodes, shuffled))
  {
    NoDupMultiplicity(nodes);
    NoDupMultiplicity(Leaves(nodes));
    NoDupMultiplicity(ActiveLeaves(nodes, shuffled));
  }

  /** `nodes.find(n => n.id === parentId)`: the first node with that id (none for a missing id). */
  function FindNode(nodes: seq<UniverseNode>, parentId: Option<string>): (found: Option<UniverseNode>)
    ensures found.None? <==> forall i :: 0 <= i < |nodes| ==> Some(nodes[i].id) != parentId
    ensures found.Some? ==> exists i :: 0 <= i < |nodes| && nodes[i] == found.value &&
                                        Some(found.value.id) == parentId &&
                                        forall j :: 0 <= j < i ==> Some(nodes[j].id) != parentId
    decreases |nodes|
  {
    if nodes == [] then None
    else if Some(nodes[0].id) == parentId then Some(nodes[0])
    else
      var rest := FindNode(nodes[1..], parentId);
      assert forall i :: 1 <= i < |nodes| ==> nodes[i] == nodes[1..][i - 1];
      rest
  }

  /** `node-${Date.now()}-${index}`, with the clock reading as `stamp`. */
  function NodeId(stamp: nat, index: nat): string {
    "node-" + NatToString(stamp) + "-" + NatToString(index)
  }

  /** No generated id is the root's. */
  lemma NodeIdNotRoot(stamp: nat, index: nat)
    ensures NodeId(stamp, index) != ROOT_ID
  {
    assert NodeId(stamp, index)[0] == 'n' != ROOT_ID[0];
  }

  /** `node-${stamp}-${index}` determines both its stamp and its index. */
  lemma NodeIdInjective(s1: nat, i1: nat, s2: nat, i2: nat)
    ensures NodeId(s1, i1) == NodeId(s2, i2) <==> s1 == s2 && i1 == i2
  {
    if NodeId(s1, i1) == NodeId(s2, i2) {
      var prefix := "node-";
      var t1 := NatToString(s1) + "-" + NatToString(i1);
      var t2 := NatToString(s2) + "-" + NatToString(i2);
      assert NodeId(s1, i1) == prefix + t1 && NodeId(s2, i2) == prefix + t2;
      assert t1 == NodeId(s1, i1)[|prefix|..] == NodeId(s2, i2)[|prefix|..] == t2;
      assert '-' !in NatToString(s1) && '-' !in NatToString(s2);
      SplitAtSeparator(NatToString(s1), NatToString(i1), NatToString(s2), NatToString(i2), '-');
      NatToStringInjective(s1, s2);
      NatToStringInjective(i1, i2);
    }
  }

  /**
   * The node built from entry `index` of the generated data: its parent
   * reference as given, defaults for falsy fields (type 'branch', title
   * 'Event', description 'Unknown event', water and oxygen 50, biomass 0),
   * and one level below its parent, or level 1 when the parent is not found.
   */
  function NewNode(nodes: seq<UniverseNode>, data: BranchData, stamp: nat, index: nat): (n: UniverseNode)
    ensures n.id == NodeId(stamp, index) && n.parentId == data.parentId
    ensures FindNode(nodes, data.parentId).Some? ==> n.level == FindNode(nodes, data.parentId).value.level + 1
    ensures FindNode(nodes, data.parentId).None? ==> n.level == 1
    ensures n.kind == OrText(data.kind, "branch")
    ensures n.title == OrText(data.title, "Event")
    ensures n.description == OrText(data.description, "Unknown event")
    ensures data.stats.None? ==> n.stats == Stats(50, 50, 0)
    ensures data.stats.Some? ==> n.stats == Stats(OrNumber(data.stats.value.water, 50),
                                                  OrNumber(data.stats.value.oxygen, 50),
                                                  OrNumber(data.stats.value.biomass, 0))
  {
    var raw := data.stats.GetOr(RawStats(None, None, None));
    var parentLevel := match FindNode(nodes, data.parentId)
                       case Some(p) => if p.level != 0 then p.level else 0
                       case None => 0;
    UniverseNode(NodeId(stamp, index), data.parentId,
                 OrText(data.kind, "branch"), OrText(data.title, "Event"), OrText(data.description, "Unknown event"),
                 Stats(OrNumber(raw.water, 50), OrNumber(raw.oxygen, 50), OrNumber(raw.biomass, 0)),
                 parentLevel + 1)
  }

  /** Nodes numbered in order have pairwise distinct ids, whatever clock readings they carry. */
  lemma BatchIdsDistinct(created: seq<UniverseNode>, stamps: seq<nat>)
    requires |stamps| == |created|
    requires forall i :: 0 <= i < |created| ==> created[i].id == NodeId(stamps[i], i)
    ensures forall i, j :: 0 <= i < j < |created| ==> created[i].id != created[j].id
  {
    forall i, j | 0 <= i < j < |created| ensures created[i].id != created[j].id {
      NodeIdInjective(stamps[i], i, stamps[j], j);
    }
  }

  /**
   * `newBranchData.map(...)`: one new node per entry, in order, with pairwise
   * distinct ids. `Date.now()` is read once per entry, so entry i carries its
   * own clock reading `stamps[i]`.
   */
  function NewNodes(nodes: seq<UniverseNode>, batch: seq<BranchData>, stamps: seq<nat>): (created: seq<UniverseNode>)
    requires |stamps| == |batch|
    ensures |created| == |batch|
    ensures forall i :: 0 <= i < |batch| ==> created[i] == NewNode(nodes, batch[i], stamps[i], i)
    ensures forall i, j :: 0 <= i < j < |created| ==> created[i].id != created[j].id
  {
    var created := seq(|batch|, i requires 0 <= i < |batch| => NewNode(nodes, batch[i], stamps[i], i));
    BatchIdsDistinct(created, stamps);
    created
  }

  /** No two nodes of the graph share an id. */
  predicate IdsDistinct(nodes: seq<UniverseNode>) {
    forall i, j :: 0 <= i < j < |nodes| ==> nodes[i].id != nodes[j].id
  }

  /** No node of the graph carries an id of batch `stamp`. */
  ghost predicate FreshStamp(nodes: seq<UniverseNode>, stamp: nat) {
    forall k, index :: 0 <= k < |nodes| ==> nodes[k].id != NodeId(stamp, index)
  }

  /** No node of the graph carries an id under any of the clock readings `stamps`. */
  ghost predicate FreshStamps(nodes: seq<UniverseNode>, stamps: seq<nat>) {
    forall k :: 0 <= k < |stamps| ==> FreshStamp(nodes, stamps[k])
  }

  /** The initial graph carries no batch id at all. */
  lemma RootFreshStamp(stamp: nat)
    ensures FreshStamp([BigBang()], stamp)
  {
    forall k, index | 0 <= k < 1 ensures [BigBang()][k].id != NodeId(stamp, index) {
      NodeIdNotRoot(stamp, index);
      assert [BigBang()][k].id == ROOT_ID;
    }
  }

  /**
   * Appending a batch whose clock readings no earlier node carries keeps the
   * ids unique across the whole graph.
   */
  lemma AppendKeepsIdsDistinct(nodes: seq<UniverseNode>, batch: seq<BranchData>, stamps: seq<nat>)
    requires |stamps| == |batch|
    requires IdsDistinct(nodes) && FreshStamps(nodes, stamps)
    ensures IdsDistinct(nodes + NewNodes(nodes, batch, stamps))
  {
    var created := NewNodes(nodes, batch, stamps);
    var all := nodes + created;
    forall i, j | 0 <= i < j < |all| ensures all[i].id != all[j].id {
      if j >= |nodes| {
        var k := j - |nodes|;
        assert all[j].id == NodeId(stamps[k], k);
        if i >= |nodes| {
          assert all[i] == created[i - |nodes|];
        } else {
          assert FreshStamp(nodes, stamps[k]);
        }
      }
    }
  }

  /**
   * Ids of batches under distinct stamps never meet, and none is the root's:
   * a graph grown from the Big Bang with a new stamp per batch has unique ids.
   */
  lemma FreshStampAfterBatch(nodes: seq<UniverseNode>, batch: seq<BranchData>, stamps: seq<nat>, next: nat)
    requires |stamps| == |batch|
    requires FreshStamp(nodes, next) && next !in stamps
    ensures FreshStamp(nodes + NewNodes(nodes, batch, stamps), next)
  {
    var all := nodes + NewNodes(nodes, batch, stamps);
    forall k, index | 0 <= k < |all| ensures all[k].id != NodeId(next, index) {
      if k >= |nodes| {
        var i := k - |nodes|;
        assert all[k].id == NodeId(stamps[i], i);
        assert stamps[i] in stamps;
        NodeIdInjective(stamps[i], i, next, index);
      }
    }
  }

  /** Every node is exactly one level below any node it names as parent. */
  ghost predicate LevelsConsistent(nodes: seq<UniverseNode>) {
    forall i, j :: 0 <= i < |nodes| && 0 <= j < |nodes| && nodes[j].parentId == Some(nodes[i].id) ==>
      nodes[j].level == nodes[i].level + 1
  }

  /** An index of a node of greatest level. */
  function DeepestIndex(nodes: seq<UniverseNode>): (k: nat)
    requires nodes != []
    ensures k < |nodes| && forall j :: 0 <= j < |nodes| ==> nodes[j].level <= nodes[k].level
    decreases |nodes|
  {
    if |nodes| == 1 then 0
    else
      var k := DeepestIndex(nodes[..|nodes| - 1]);
      assert forall j :: 0 <= j < |nodes| - 1 ==> nodes[..|nodes| - 1][j] == nodes[j];
      if nodes[|nodes| - 1].level > nodes[k].level then |nodes| - 1 else k
  }

  /**
   * While levels follow the parent rule, a non-empty graph always has a leaf
   * (a deepest node), so the no-leaves branch of `handleNextDay` only guards
   * against inconsistent input.
   */
  lemma LeafExists(nodes: seq<UniverseNode>)
    requires nodes != [] && LevelsConsistent(nodes)
    ensures Leaves(nodes) != []
  {
    var k := DeepestIndex(nodes);
    forall m | m in nodes ensures m.parentId != Some(nodes[k].id) {
      var j :| 0 <= j < |nodes| && nodes[j] == m;
    }
    assert nodes[k] in Leaves(nodes);
  }
}
