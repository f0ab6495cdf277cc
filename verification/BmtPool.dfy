/** Building the tree of nodes (newTree in pkg/bmt/pool.go): pointers realise the (level, idx) positions. */
module BmtPool {
  import opened Common
  import opened BmtTree

  class TreeNode {
    const isLeft: bool
    const parent: TreeNode?
    var state: int
    var left: Bytes
    var right: Bytes

    constructor (index: nat, parent: TreeNode?)
      ensures this.isLeft == (index % 2 == 0) && this.parent == parent && state == 0
    {
      this.isLeft := index % 2 == 0;
      this.parent := parent;
      this.state := 0;
      this.left := [];
      this.right := [];
    }
  }

  /** Every node object of the given levels. */
  ghost function Members(levels: seq<seq<TreeNode>>): set<TreeNode> {
    if levels == [] then {} else (set n | n in levels[0]) + Members(levels[1..])
  }

  /** `nodes` is the level below `prev`: parent of position k is position k / 2, even positions are left. */
  ghost predicate Below(nodes: seq<TreeNode>, prev: seq<TreeNode>) {
    && |nodes| == 2 * |prev|
    && (forall k :: 0 <= k < |nodes| ==> nodes[k].isLeft == (k % 2 == 0) && nodes[k].parent == prev[k / 2])
    && (forall j, k :: 0 <= j < k < |nodes| ==> nodes[j] != nodes[k])
  }

  /** levels[l][k] is the object of position Node(l, k): levels hang together up to a root without parent, all
      objects differ. */
  ghost predicate Realises(levels: seq<seq<TreeNode>>) {
    && |levels| > 0
    && if |levels| == 1 then |levels[0]| == 1 && levels[0][0].parent == null && levels[0][0].isLeft
       else
         && Below(levels[0], levels[1])
         && (forall n :: n in levels[0] ==> n !in Members(levels[1..]))
         && Realises(levels[1..])
  }

  /** One more level below `prev`. */
  method NextLevel(prev: seq<TreeNode>, count: nat) returns (nodes: seq<TreeNode>)
    requires count == 2 * |prev|
    ensures fresh(nodes) && Below(nodes, prev)
    ensures forall n :: n in nodes ==> n.state == 0
  {
    nodes := [];
    for i := 0 to count
      invariant |nodes| == i && fresh(nodes)
      invariant forall k :: 0 <= k < i ==>
                  nodes[k].isLeft == (k % 2 == 0) && nodes[k].parent == prev[k / 2] && nodes[k].state == 0
      invariant forall j, k :: 0 <= j < k < i ==> nodes[j] != nodes[k]
    {
      var n := new TreeNode(i, prev[i / 2]);
      nodes := nodes + [n];
    }
  }

  /** newTree: returns the leaves; the other nodes are reached through parent. */
  method NewTree(depth: nat) returns (leaves: seq<TreeNode>, ghost levels: seq<seq<TreeNode>>)
    requires depth >= 1
    ensures |levels| == depth && Realises(levels) && leaves == levels[0]
    ensures fresh(Members(levels)) && forall n :: n in Members(levels) ==> n.state == 0
  {
    var n := new TreeNode(0, null);
    leaves := [n];
    levels := [leaves];
    assert levels[1..] == [];
    ghost var made: set<TreeNode> := {n};
    var count := 2;
    var level := depth - 2;
    while level >= 0
      invariant -1 <= level <= depth - 2 && |levels| == depth - 1 - level
      invariant count == 2 * |leaves|
      invariant Realises(levels) && leaves == levels[0]
      invariant made == Members(levels) && fresh(made) && forall n :: n in made ==> n.state == 0
    {
      var nodes := NextLevel(leaves, count);
      assert forall n :: n in nodes ==> n !in made;
      made := made + set n | n in nodes;
      ghost var grown := [nodes] + levels;
      assert grown[1..] == levels;
      leaves := nodes;
      levels := grown;
      count := count * 2;
      level := level - 1;
    }
  }

  /** Climbing l parents from leaf t reaches the object of position On(t, l). */
  lemma {:induction false} Climb(levels: seq<seq<TreeNode>>, t: nat, l: nat)
    requires Realises(levels) && t < |levels[0]| && l < |levels|
    ensures Anc(t, l) < |levels[l]| && levels[l][Anc(t, l)].isLeft == IsLeft(On(t, l))
    ensures l + 1 < |levels| ==>
              Anc(t, l + 1) < |levels[l + 1]| && levels[l][Anc(t, l)].parent == levels[l + 1][Anc(t, l + 1)]
    ensures l + 1 == |levels| ==> levels[l][Anc(t, l)].parent == null
    decreases l
  {
    LevelAt(levels, l);
    if l > 0 {
      Climb(levels, t, l - 1);
    }
  }

  lemma {:induction false} LevelAt(levels: seq<seq<TreeNode>>, l: nat)
    requires Realises(levels) && l < |levels|
    ensures l + 1 < |levels| ==> Below(levels[l], levels[l + 1])
    ensures l + 1 == |levels| ==> |levels[l]| == 1 && levels[l][0].parent == null && levels[l][0].isLeft
    decreases l
  {
    if l > 0 { LevelAt(levels[1..], l - 1); }
  }
}
