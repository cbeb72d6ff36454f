/** Keyed diffs between two agent trees. */
module TreeDiff {
  import opened Common
  import opened AgentTree

  datatype NodeChange = NodeChange(nodeId: string, before: AgentNode, after: AgentNode)

  datatype SemanticTreeDiff = SemanticTreeDiff(
    added: seq<AgentNode>, removed: seq<AgentNode>, changed: seq<NodeChange>)

  type View = map<string, AgentNode>

  function NodeKey(node: AgentNode): string {
    match node.identityKey
    case Some(key) => key
    case None => node.id
  }

  /** The view `base` with the nodes stored under their keys, later ones winning. */
  function Stored(base: View, nodes: seq<AgentNode>): View {
    if nodes == [] then base
    else
      var last := nodes[|nodes| - 1];
      Stored(base, nodes[..|nodes| - 1])[NodeKey(last) := last]
  }

  /** The last node per key of a tree. */
  function ViewOf(nodes: seq<AgentNode>): View {
    Stored(map[], nodes)
  }

  /** Every node sits under its own key. */
  ghost predicate KeyedView(v: View) {
    forall k | k in v :: NodeKey(v[k]) == k
  }

  // ------------------------------------------------------------------ diffing

  function Nodes(v: View, keys: seq<string>): (r: seq<AgentNode>)
    requires forall k | k in keys :: k in v
    ensures |r| == |keys| && forall i | 0 <= i < |r| :: r[i] == v[keys[i]]
  {
    if keys == [] then [] else Nodes(v, keys[..|keys| - 1]) + [v[keys[|keys| - 1]]]
  }

  function Changes(left: View, right: View, keys: seq<string>): (r: seq<NodeChange>)
    requires forall k | k in keys :: k in left && k in right
    ensures |r| == |keys|
    ensures forall i | 0 <= i < |r| :: r[i] == NodeChange(right[keys[i]].id, left[keys[i]], right[keys[i]])
  {
    if keys == [] then []
    else
      var k := keys[|keys| - 1];
      Changes(left, right, keys[..|keys| - 1]) + [NodeChange(right[k].id, left[k], right[k])]
  }

  ghost function ChangedKeys(left: View, right: View): set<string> {
    set k | k in right && k in left && left[k] != right[k]
  }

  ghost function DiffTree(before: seq<AgentNode>, after: seq<AgentNode>): SemanticTreeDiff {
    var left, right := ViewOf(before), ViewOf(after);
    SemanticTreeDiff(
      Nodes(right, Enumerate(right.Keys - left.Keys)),
      Nodes(left, Enumerate(left.Keys - right.Keys)),
      Changes(left, right, Enumerate(ChangedKeys(left, right))))
  }

  // ----------------------------------------------------------------- patching

  function KeysOf(nodes: seq<AgentNode>): set<string> {
    set n | n in nodes :: NodeKey(n)
  }

  function Replacements(changed: seq<NodeChange>): seq<AgentNode> {
    seq(|changed|, i requires 0 <= i < |changed| => changed[i].after)
  }

  /** Removes, adds and replaces what a diff says, reading keys off its nodes. */
  function Patch(v: View, diff: SemanticTreeDiff): View {
    Stored(Stored(v - KeysOf(diff.removed), diff.added), Replacements(diff.changed))
  }

  // -------------------------------------------------------------------- laws

  lemma {:induction false} StoredKeyed(base: View, nodes: seq<AgentNode>)
    requires KeyedView(base)
    ensures KeyedView(Stored(base, nodes))
  {
    if nodes == [] {
    } else {
      StoredKeyed(base, nodes[..|nodes| - 1]);
    }
  }

  /** Storing the nodes of a view copies that view on the listed keys. */
  lemma {:induction false} StoredNodes(base: View, v: View, keys: seq<string>)
    requires KeyedView(v) && forall k | k in keys :: k in v
    ensures forall k :: k in Stored(base, Nodes(v, keys)) <==> k in base || k in keys
    ensures forall k | k in Stored(base, Nodes(v, keys)) ::
              Stored(base, Nodes(v, keys))[k] == if k in keys then v[k] else base[k]
  {
    if keys == [] {
    } else {
      var front, last := keys[..|keys| - 1], keys[|keys| - 1];
      assert keys == front + [last];
      StoredNodes(base, v, front);
      assert Nodes(v, keys)[..|keys| - 1] == Nodes(v, front);
    }
  }

  lemma KeysOfNodes(v: View, keys: seq<string>)
    requires KeyedView(v) && forall k | k in keys :: k in v
    ensures forall k :: k in KeysOf(Nodes(v, keys)) <==> k in keys
  {
    var nodes := Nodes(v, keys);
    forall i | 0 <= i < |keys|
      ensures keys[i] in KeysOf(nodes)
    {
      assert nodes[i] in nodes && NodeKey(nodes[i]) == keys[i];
    }
  }

  lemma ReplacementsAreNodes(left: View, right: View, keys: seq<string>)
    requires forall k | k in keys :: k in left && k in right
    ensures Replacements(Changes(left, right, keys)) == Nodes(right, keys)
  {
  }

  /** A diff is a correct patch: applied to the view of `before` it gives exactly
      the view of `after`. */
  lemma PatchIsCorrect(before: seq<AgentNode>, after: seq<AgentNode>)
    ensures Patch(ViewOf(before), DiffTree(before, after)) == ViewOf(after)
  {
    var left, right := ViewOf(before), ViewOf(after);
    StoredKeyed(map[], before);
    StoredKeyed(map[], after);
    var added, removed := Enumerate(right.Keys - left.Keys), Enumerate(left.Keys - right.Keys);
    var changed := Enumerate(ChangedKeys(left, right));
    KeysOfNodes(left, removed);
    ReplacementsAreNodes(left, right, changed);
    var kept := left - KeysOf(Nodes(left, removed));
    StoredNodes(kept, right, added);
    StoredNodes(Stored(kept, Nodes(right, added)), right, changed);
    PatchedIs(left, right, Patch(left, DiffTree(before, after)));
  }

  lemma PatchedIs(left: View, right: View, patched: View)
    requires forall k :: k in patched <==> k in right
    requires forall k | k in patched :: patched[k] == right[k]
    ensures patched == right
  {
  }

  /** Removed, added and changed nodes have disjoint keys, each node once. */
  lemma DiffKeysDisjoint(before: seq<AgentNode>, after: seq<AgentNode>)
    ensures var d := DiffTree(before, after);
            && KeysOf(d.added) !! KeysOf(d.removed)
            && KeysOf(d.added) !! KeysOf(Replacements(d.changed))
            && KeysOf(d.removed) !! KeysOf(Replacements(d.changed))
            && |d.added| == |KeysOf(d.added)| && |d.removed| == |KeysOf(d.removed)|
            && |d.changed| == |KeysOf(Replacements(d.changed))|
  {
    var left, right := ViewOf(before), ViewOf(after);
    StoredKeyed(map[], before);
    StoredKeyed(map[], after);
    ListedOnce(right, right.Keys - left.Keys);
    ListedOnce(left, left.Keys - right.Keys);
    ListedOnce(right, ChangedKeys(left, right));
    ReplacementsAreNodes(left, right, Enumerate(ChangedKeys(left, right)));
  }

  lemma ListedOnce(v: View, keys: set<string>)
    requires KeyedView(v) && keys <= v.Keys
    ensures KeysOf(Nodes(v, Enumerate(keys))) == keys
    ensures |Nodes(v, Enumerate(keys))| == |keys|
  {
    KeysOfNodes(v, Enumerate(keys));
    EnumerateLength(keys);
  }

  /** The diff is empty exactly when the two views are equal. */
  lemma {:induction false} EmptyIffSameView(before: seq<AgentNode>, after: seq<AgentNode>)
    ensures DiffTree(before, after) == SemanticTreeDiff([], [], []) <==> ViewOf(before) == ViewOf(after)
  {
    var left, right := ViewOf(before), ViewOf(after);
    var d := DiffTree(before, after);
    if d == SemanticTreeDiff([], [], []) {
      PatchIsCorrect(before, after);
      assert left - KeysOf([]) == left;
    }
  }

  // ---------------------------------------------------------- repeated keys

  ghost predicate NoChange(before: seq<AgentNode>, after: seq<AgentNode>) {
    DiffTree(before, after) == SemanticTreeDiff([], [], [])
  }

  ghost predicate DistinctKeys(nodes: seq<AgentNode>) {
    forall i, j | 0 <= i < j < |nodes| :: NodeKey(nodes[i]) != NodeKey(nodes[j])
  }

  /** A list seen without change holds every node of `before`, as often. */
  ghost predicate Pins(before: seq<AgentNode>) {
    forall after :: NoChange(before, after) ==> multiset(before) <= multiset(after)
  }

  function DropNode(nodes: seq<AgentNode>, i: nat): seq<AgentNode>
    requires i < |nodes|
  {
    nodes[..i] + nodes[i + 1..]
  }

  lemma DropBeforeLast(nodes: seq<AgentNode>, i: nat)
    requires i < |nodes| - 1
    ensures DropNode(nodes, i) == DropNode(nodes[..|nodes| - 1], i) + [nodes[|nodes| - 1]]
  {
  }

  lemma ViewOfMore(nodes: seq<AgentNode>, node: AgentNode)
    ensures ViewOf(nodes + [node]) == ViewOf(nodes)[NodeKey(node) := node]
  {
    assert (nodes + [node])[..|nodes|] == nodes;
  }

  /** A view holds only nodes of the list. */
  lemma {:induction false} ViewHolds(nodes: seq<AgentNode>, k: string)
    requires k in ViewOf(nodes)
    ensures ViewOf(nodes)[k] in nodes
  {
    var front, last := nodes[..|nodes| - 1], nodes[|nodes| - 1];
    assert nodes == front + [last];
    if k != NodeKey(last) {
      ViewHolds(front, k);
    }
  }

  /** With distinct keys the view holds every node. */
  lemma {:induction false} ViewHoldsAll(nodes: seq<AgentNode>, node: AgentNode)
    requires DistinctKeys(nodes) && node in nodes
    ensures NodeKey(node) in ViewOf(nodes) && ViewOf(nodes)[NodeKey(node)] == node
  {
    var front, last := nodes[..|nodes| - 1], nodes[|nodes| - 1];
    assert nodes == front + [last];
    if node != last {
      var i :| 0 <= i < |front| && front[i] == node;
      assert NodeKey(nodes[i]) != NodeKey(nodes[|nodes| - 1]);
      ViewHoldsAll(front, node);
    }
  }

  lemma StoreTwice(v: View, w: View, k: string, x: AgentNode, l: string, y: AgentNode)
    requires v[k := x] == w[k := x]
    ensures v[l := y][k := x] == w[l := y][k := x]
  {
    var left, right := v[l := y][k := x], w[l := y][k := x];
    assert left.Keys == v[k := x].Keys + {l} && right.Keys == w[k := x].Keys + {l};
    forall z | z in left
      ensures left[z] == right[z]
    {
      if z != k && z != l {
        assert left[z] == v[k := x][z] && right[z] == w[k := x][z];
      }
    }
  }

  /** Dropping a node changes the view under its key alone. */
  lemma {:induction false} DropElsewhere(nodes: seq<AgentNode>, i: nat, x: AgentNode)
    requires i < |nodes|
    ensures ViewOf(DropNode(nodes, i))[NodeKey(nodes[i]) := x] == ViewOf(nodes)[NodeKey(nodes[i]) := x]
  {
    var front, last := nodes[..|nodes| - 1], nodes[|nodes| - 1];
    if i == |nodes| - 1 {
      assert DropNode(nodes, i) == front;
    } else {
      DropElsewhere(front, i, x);
      DropBeforeLast(nodes, i);
      ViewOfMore(DropNode(front, i), last);
      StoreTwice(ViewOf(DropNode(front, i)), ViewOf(front), NodeKey(nodes[i]), x, NodeKey(last), last);
    }
  }

  /** Dropping a node whose key recurs later does not show. */
  lemma {:induction false} DropHidden(nodes: seq<AgentNode>, i: nat, j: nat)
    requires i < j < |nodes| && NodeKey(nodes[i]) == NodeKey(nodes[j])
    ensures ViewOf(DropNode(nodes, i)) == ViewOf(nodes)
  {
    var front, last := nodes[..|nodes| - 1], nodes[|nodes| - 1];
    DropBeforeLast(nodes, i);
    ViewOfMore(DropNode(front, i), last);
    if j == |nodes| - 1 {
      DropElsewhere(front, i, last);
    } else {
      DropHidden(front, i, j);
    }
  }

  /** Replacing a node by one with its key does not show if the key recurs later:
      the diff is empty although the lists differ. */
  lemma HiddenChange(before: seq<AgentNode>, i: nat, j: nat, node: AgentNode)
    requires i < j < |before| && NodeKey(before[i]) == NodeKey(before[j]) == NodeKey(node)
    ensures NoChange(before, before[i := node])
  {
    var after := before[i := node];
    assert DropNode(after, i) == DropNode(before, i);
    DropHidden(before, i, j);
    DropHidden(after, i, j);
    EmptyIffSameView(before, after);
  }

  lemma DistinctKeysPin(before: seq<AgentNode>, after: seq<AgentNode>)
    requires DistinctKeys(before) && NoChange(before, after)
    ensures multiset(before) <= multiset(after)
  {
    EmptyIffSameView(before, after);
    assert Distinct(before);
    DistinctIffOnce(before);
    forall node | node in before
      ensures multiset(before)[node] <= multiset(after)[node]
    {
      ViewHoldsAll(before, node);
      ViewHolds(after, NodeKey(node));
    }
  }

  lemma DropLoses(before: seq<AgentNode>, i: nat, j: nat)
    requires i < j < |before| && NodeKey(before[i]) == NodeKey(before[j])
    ensures NoChange(before, DropNode(before, i)) && !(multiset(before) <= multiset(DropNode(before, i)))
  {
    DropHidden(before, i, j);
    EmptyIffSameView(before, DropNode(before, i));
    assert before == before[..i] + [before[i]] + before[i + 1..];
    assert multiset(before)[before[i]] == multiset(DropNode(before, i))[before[i]] + 1;
  }

  /** An empty diff accounts for every node exactly when keys are distinct. */
  lemma EmptyPinsIffDistinctKeys(before: seq<AgentNode>)
    ensures Pins(before) <==> DistinctKeys(before)
  {
    if DistinctKeys(before) {
      forall after | NoChange(before, after)
        ensures multiset(before) <= multiset(after)
      {
        DistinctKeysPin(before, after);
      }
    } else {
      var i, j :| 0 <= i < j < |before| && NodeKey(before[i]) == NodeKey(before[j]);
      DropLoses(before, i, j);
    }
  }

  // --------------------------------------------------- the diff in plain terms

  /** The nodes are the same conceptual node: by identity key, or by id where that
      is missing. */
  predicate SameConcept(a: AgentNode, b: AgentNode) {
    match (a.identityKey, b.identityKey)
    case (Some(x), Some(y)) => x == y
    case (Some(x), None) => x == b.id
    case (None, Some(y)) => a.id == y
    case (None, None) => a.id == b.id
  }

  /** `node` is in the list and no later node is the same conceptual node. */
  ghost predicate LastOfConcept(nodes: seq<AgentNode>, node: AgentNode) {
    exists i :: 0 <= i < |nodes| && nodes[i] == node && forall j | i < j < |nodes| :: !SameConcept(nodes[j], node)
  }

  ghost predicate Known(nodes: seq<AgentNode>, node: AgentNode) {
    exists i :: 0 <= i < |nodes| && SameConcept(nodes[i], node)
  }

  lemma SameConceptIsKey(a: AgentNode, b: AgentNode)
    ensures SameConcept(a, b) <==> NodeKey(a) == NodeKey(b)
  {
  }

  lemma LastOfMore(front: seq<AgentNode>, last: AgentNode, node: AgentNode)
    ensures LastOfConcept(front + [last], node) <==>
            node == last || (!SameConcept(last, node) && LastOfConcept(front, node))
    ensures Known(front + [last], node) <==> SameConcept(last, node) || Known(front, node)
  {
    var nodes := front + [last];
    if node == last {
      assert nodes[|front|] == node;
    }
    if LastOfConcept(front, node) && !SameConcept(last, node) {
      var i :| 0 <= i < |front| && front[i] == node && forall j | i < j < |front| :: !SameConcept(front[j], node);
      assert nodes[i] == node;
    }
    if LastOfConcept(nodes, node) && node != last {
      var i :| 0 <= i < |nodes| && nodes[i] == node && forall j | i < j < |nodes| :: !SameConcept(nodes[j], node);
      assert front[i] == node && !SameConcept(nodes[|front|], node);
      assert forall j | i < j < |front| :: front[j] == nodes[j];
    }
    if Known(front, node) {
      var i :| 0 <= i < |front| && SameConcept(front[i], node);
      assert nodes[i] == front[i];
    }
    assert nodes[|front|] == last;
  }

  lemma {:induction false} ViewIsLast(nodes: seq<AgentNode>, node: AgentNode)
    ensures NodeKey(node) in ViewOf(nodes) <==> Known(nodes, node)
    ensures NodeKey(node) in ViewOf(nodes) && ViewOf(nodes)[NodeKey(node)] == node <==> LastOfConcept(nodes, node)
  {
    if nodes == [] {
    } else {
      var front, last := nodes[..|nodes| - 1], nodes[|nodes| - 1];
      assert nodes == front + [last];
      ViewIsLast(front, node);
      LastOfMore(front, last, node);
      SameConceptIsKey(last, node);
    }
  }

  lemma {:induction false} NodesMembers(v: View, keys: seq<string>, node: AgentNode)
    requires KeyedView(v) && forall k | k in keys :: k in v
    ensures node in Nodes(v, keys) <==> NodeKey(node) in keys && v[NodeKey(node)] == node
  {
    var nodes := Nodes(v, keys);
    if node in nodes {
      var i :| 0 <= i < |nodes| && nodes[i] == node;
      assert keys[i] in keys;
    }
    if NodeKey(node) in keys && v[NodeKey(node)] == node {
      var i :| 0 <= i < |keys| && keys[i] == NodeKey(node);
      assert nodes[i] == node;
    }
  }

  /** A node is added exactly if it is the last of its concept afterwards and its
      concept was unknown before. */
  lemma AddedIff(before: seq<AgentNode>, after: seq<AgentNode>, node: AgentNode)
    ensures node in DiffTree(before, after).added <==> LastOfConcept(after, node) && !Known(before, node)
  {
    StoredKeyed(map[], after);
    NodesMembers(ViewOf(after), Enumerate(ViewOf(after).Keys - ViewOf(before).Keys), node);
    ViewIsLast(after, node);
    ViewIsLast(before, node);
  }

  /** A node is removed exactly if it is the last of its concept before and its
      concept is unknown afterwards. */
  lemma RemovedIff(before: seq<AgentNode>, after: seq<AgentNode>, node: AgentNode)
    ensures node in DiffTree(before, after).removed <==> LastOfConcept(before, node) && !Known(after, node)
  {
    StoredKeyed(map[], before);
    NodesMembers(ViewOf(before), Enumerate(ViewOf(before).Keys - ViewOf(after).Keys), node);
    ViewIsLast(after, node);
    ViewIsLast(before, node);
  }

  /** A change pairs exactly the differing last nodes of one concept. */
  lemma ChangedIff(before: seq<AgentNode>, after: seq<AgentNode>, c: NodeChange)
    ensures c in DiffTree(before, after).changed <==>
            && LastOfConcept(before, c.before) && LastOfConcept(after, c.after)
            && SameConcept(c.before, c.after) && c.before != c.after && c.nodeId == c.after.id
  {
    var left, right := ViewOf(before), ViewOf(after);
    var keys := Enumerate(ChangedKeys(left, right));
    StoredKeyed(map[], before);
    StoredKeyed(map[], after);
    ViewIsLast(before, c.before);
    ViewIsLast(after, c.after);
    SameConceptIsKey(c.before, c.after);
    ChangesMembers(left, right, keys, c);
  }

  lemma ChangesMembers(left: View, right: View, keys: seq<string>, c: NodeChange)
    requires KeyedView(left) && KeyedView(right) && forall k | k in keys :: k in left && k in right
    ensures c in Changes(left, right, keys) <==>
            var k := NodeKey(c.after);
            k in keys && c == NodeChange(right[k].id, left[k], right[k])
  {
    var changes := Changes(left, right, keys);
    if c in changes {
      var i :| 0 <= i < |changes| && changes[i] == c;
      assert keys[i] in keys;
    }
    var k := NodeKey(c.after);
    if k in keys && c == NodeChange(right[k].id, left[k], right[k]) {
      var i :| 0 <= i < |keys| && keys[i] == k;
      assert changes[i] == c;
    }
  }
}
