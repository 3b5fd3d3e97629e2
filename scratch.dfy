/** The scratchpad: the list of collected nodes and the on/off toggle of the scratchpad canvas,
    which also switches player movement and the cursor. */
module Scratch {
  import opened Engine

  /** A collectible node. `handle` is the identity of the node asset (two stored entries are
      equal exactly when they name the same asset); `unique` asks that it be collected once. */
  datatype NodeData = NodeData(handle: ObjId, unique: bool)

  /** The four flags the toggle touches. */
  datatype Pad = Pad(scratchpadEnabled: bool, movementEnabled: bool, cursorVisible: bool, cursorLocked: bool)

  // ---------------------------------------------------------------------------
  // The node list

  /** The node list after AddNode(n). */
  function AddedNodes(nodes: seq<NodeData>, n: NodeData): (r: seq<NodeData>)
    ensures n in r
    ensures |r| <= |nodes| + 1
    ensures nodes <= r
    ensures r == nodes <==> n.unique && n in nodes
    ensures r != nodes ==> r[|nodes|] == n
  {
    if n.unique && n in nodes then nodes else nodes + [n]
  }

  /** Every node marked unique occurs at most once. */
  predicate UniqueAtMostOnce(nodes: seq<NodeData>)
  {
    forall i, j :: 0 <= i < j < |nodes| && nodes[i] == nodes[j] ==> !nodes[i].unique
  }

  /** The position of the first node not marked unique, or -1 when every node is unique. */
  function FirstRepeatable(nodes: seq<NodeData>): (k: int)
    ensures -1 <= k < |nodes|
    ensures k == -1 <==> forall j :: 0 <= j < |nodes| ==> nodes[j].unique
    ensures 0 <= k ==> !nodes[k].unique && forall j :: 0 <= j < k ==> nodes[j].unique
  {
    if |nodes| == 0 then -1
    else if !nodes[0].unique then 0
    else
      var k := FirstRepeatable(nodes[1..]);
      if k == -1 then -1 else k + 1
  }

  /** The node list after LoadNodes, and whether the enumeration threw: every stored node is
      added again; a unique one is already there and changes nothing, while the first node not
      marked unique is appended, and the enumerator then fails because the list changed. */
  datatype LoadOutcome = LoadOutcome(nodes: seq<NodeData>, threw: bool)

  function LoadedNodes(nodes: seq<NodeData>): (o: LoadOutcome)
    ensures o.threw <==> exists j :: 0 <= j < |nodes| && !nodes[j].unique
    ensures !o.threw ==> o.nodes == nodes
    ensures o.threw ==> |o.nodes| == |nodes| + 1 && nodes < o.nodes && !o.nodes[|nodes|].unique
    ensures o.threw ==>
              exists k :: 0 <= k < |nodes| && !nodes[k].unique && (forall j :: 0 <= j < k ==> nodes[j].unique) && o.nodes == nodes + [nodes[k]]
  {
    var k := FirstRepeatable(nodes);
    if k < 0 then LoadOutcome(nodes, false) else LoadOutcome(nodes + [nodes[k]], true)
  }

  lemma AddUniqueTwice(nodes: seq<NodeData>, n: NodeData)
    requires n.unique
    ensures AddedNodes(AddedNodes(nodes, n), n) == AddedNodes(nodes, n)
  {
  }

  /** A node not marked unique goes in each time it is added, so it can occur twice. */
  lemma AddRepeatableTwice(nodes: seq<NodeData>, n: NodeData)
    requires !n.unique
    ensures AddedNodes(AddedNodes(nodes, n), n) == nodes + [n, n]
    ensures multiset(AddedNodes(AddedNodes(nodes, n), n))[n] == multiset(nodes)[n] + 2
  {
    assert nodes + [n] + [n] == nodes + [n, n];
  }

  lemma {:induction false} AddNodeKeepsUniqueAtMostOnce(nodes: seq<NodeData>, n: NodeData)
    requires UniqueAtMostOnce(nodes)
    ensures UniqueAtMostOnce(AddedNodes(nodes, n))
  {
    var r := AddedNodes(nodes, n);
    if r != nodes {
      forall i, j | 0 <= i < j < |r| && r[i] == r[j]
        ensures !r[i].unique
      {
        if j == |nodes| {
          assert r[i] == nodes[i] && r[j] == n;
        } else {
          assert r[i] == nodes[i] && r[j] == nodes[j];
        }
      }
    }
  }

  // ---------------------------------------------------------------------------
  // The toggle

  /** Movement is on exactly when the scratchpad is off; the cursor is visible and free
      exactly when it is on. */
  predicate InLockStep(p: Pad)
  {
    p.movementEnabled == !p.scratchpadEnabled
    && p.cursorVisible == p.scratchpadEnabled
    && p.cursorLocked == !p.scratchpadEnabled
  }

  function Toggled(p: Pad): (q: Pad)
    ensures q.scratchpadEnabled == !p.scratchpadEnabled
    ensures InLockStep(q)
  {
    var on := !p.scratchpadEnabled;
    Pad(on, !on, on, !on)
  }

  /** Toggling twice restores the scratchpad flag; it restores every flag exactly when they
      started in lock-step. */
  lemma ToggleTwice(p: Pad)
    ensures Toggled(Toggled(p)).scratchpadEnabled == p.scratchpadEnabled
    ensures Toggled(Toggled(p)) == p <==> InLockStep(p)
  {
  }

  // ---------------------------------------------------------------------------
  // The component

  class ScratchManager {
    var nodes: seq<NodeData>
    var scratchpadEnabled: bool
    var playerMovementEnabled: bool
    var cursorVisible: bool
    var cursorLocked: bool

    function PadState(): Pad
      reads this
    {
      Pad(scratchpadEnabled, playerMovementEnabled, cursorVisible, cursorLocked)
    }

    /** Awake: the stored node list as serialised, the scratchpad canvas off; movement and the
        cursor are as the rest of the scene left them. */
    constructor (stored: seq<NodeData>, movementEnabled: bool, visible: bool, locked: bool)
      ensures nodes == stored
      ensures PadState() == Pad(false, movementEnabled, visible, locked)
    {
      nodes := stored;
      scratchpadEnabled := false;
      playerMovementEnabled := movementEnabled;
      cursorVisible := visible;
      cursorLocked := locked;
    }

    method AddNode(n: NodeData)
      modifies this
      ensures nodes == AddedNodes(old(nodes), n)
      ensures PadState() == old(PadState())
    {
      if n.unique && n in nodes {
        return;
      }
      nodes := nodes + [n];
    }

    /** The foreach over `nodes`: each entry is added again; the enumerator throws on the step
        after an entry was appended. */
    method LoadNodes() returns (threw: bool)
      modifies this
      ensures LoadOutcome(nodes, threw) == LoadedNodes(old(nodes))
      ensures PadState() == old(PadState())
    {
      var count := |nodes|;
      var k := 0;
      while k < |nodes|
        invariant 0 <= k <= |nodes| == count
        invariant nodes == old(nodes)
        invariant forall j :: 0 <= j < k ==> nodes[j].unique
        invariant PadState() == old(PadState())
      {
        var n := nodes[k];
        AddNode(n);
        if |nodes| != count {
          assert FirstRepeatable(old(nodes)) == k;
          return true;
        }
        k := k + 1;
      }
      threw := false;
    }

    method ToggleScratchpad()
      modifies this
      ensures PadState() == Toggled(old(PadState()))
      ensures nodes == old(nodes)
    {
      scratchpadEnabled := !scratchpadEnabled;
      playerMovementEnabled := !scratchpadEnabled;
      cursorLocked := !scratchpadEnabled;
      cursorVisible := scratchpadEnabled;
    }
  }
}
