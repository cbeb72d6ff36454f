/** The raw DOM observer: a document whose node map is changed in place. */
module DomObserver {
  import opened Common
  import opened TreeLinks

  datatype Lifecycle = Initial | Loading | Interactive | Complete | Destroyed

  datatype NodeKind = DocumentNode | Element | Text | Comment | ShadowRoot | FrameNode

  datatype RawNode = RawNode(
    id: Id, kind: NodeKind, name: Option<string>, attributes: map<string, string>, text: Option<string>,
    parent: Option<Id>, children: seq<Id>, eventListeners: set<string>)

  datatype Mutation =
    | Insert(node: RawNode)
    | Remove(target: Id)
    | SetAttribute(target: Id, name: string, value: string)
    | RemoveAttribute(target: Id, name: string)
    | SetText(target: Id, value: string)
    | AddEventListener(target: Id, event: string)
    | RemoveEventListener(target: Id, event: string)

  datatype Error =
    | MissingNode(id: Id)
    | DuplicateNode(id: Id)
    | MissingParent(id: Id)
    | RootAlreadySet
    | StaleReference
    | DocumentDestroyed

  datatype NodeReference = NodeReference(node: Id, generation: nat)

  /** The observable value of a document. */
  datatype Document = Document(
    url: string, generation: nat, lifecycle: Lifecycle, root: Option<Id>, nodes: map<Id, RawNode>)

  function NewDocument(url: string): Document {
    Document(url, 0, Initial, None, map[])
  }

  ghost function LinksOf(nodes: map<Id, RawNode>): Links {
    map n | n in nodes :: Link(nodes[n].parent, nodes[n].children)
  }

  /** The document's links form a rooted tree and each node knows its own id. */
  ghost predicate IsTree(d: Document) {
    RootedTree(LinksOf(d.nodes), d.root) && forall n | n in d.nodes :: d.nodes[n].id == n
  }

  // ----------------------------------------------------------- specification

  /** Whether a mutation is accepted, and why not. */
  function Verdict(d: Document, mutation: Mutation): Result<(), Error> {
    if d.lifecycle == Destroyed then Err(DocumentDestroyed)
    else match mutation
      case Insert(node) =>
        if node.id in d.nodes then Err(DuplicateNode(node.id))
        else if node.parent.Some? then
          if node.parent.value in d.nodes then Ok(()) else Err(MissingParent(node.parent.value))
        else if d.root.Some? then Err(RootAlreadySet)
        else Ok(())
      case _ =>
        if mutation.target in d.nodes then Ok(()) else Err(MissingNode(mutation.target))
  }

  /** The ids a removal of `target` deletes: what the descent along child lists
      collects, and the target. */
  ghost function Gone(nodes: map<Id, RawNode>, target: Id): set<Id>
    requires Ends(LinksOf(nodes), target)
  {
    (set x | x in Collected(LinksOf(nodes), target)) + {target}
  }

  /** `parent`, if it is still there, loses the child `n`. */
  function DropChild(nodes: map<Id, RawNode>, parent: Option<Id>, n: Id): map<Id, RawNode> {
    if parent.Some? && parent.value in nodes then
      nodes[parent.value := nodes[parent.value].(children := Without(nodes[parent.value].children, {n}))]
    else nodes
  }

  /** The nodes after a removal, whatever the links look like. */
  ghost function NodesWithoutSubtree(nodes: map<Id, RawNode>, target: Id): map<Id, RawNode>
    requires target in nodes && Ends(LinksOf(nodes), target)
  {
    DropChild(nodes - Gone(nodes, target), nodes[target].parent, target)
  }

  /** The mutation comes back at all: the descent of an accepted removal ends. */
  ghost predicate Returns(d: Document, mutation: Mutation) {
    mutation.Remove? && Verdict(d, mutation).Ok? ==> Ends(LinksOf(d.nodes), mutation.target)
  }

  /** The nodes after an accepted mutation. */
  ghost function NodesAfter(d: Document, mutation: Mutation): map<Id, RawNode>
    requires Verdict(d, mutation).Ok? && Returns(d, mutation)
  {
    match mutation
    case Insert(node) =>
      (match node.parent
       case None => d.nodes[node.id := node]
       case Some(p) => d.nodes[p := d.nodes[p].(children := d.nodes[p].children + [node.id])][node.id := node])
    case Remove(n) => NodesWithoutSubtree(d.nodes, n)
    case _ => d.nodes[mutation.target := Edited(d.nodes[mutation.target], mutation)]
  }

  /** A node after an edit of its attributes, text or listeners. */
  function Edited(node: RawNode, mutation: Mutation): RawNode
    requires !mutation.Insert? && !mutation.Remove?
  {
    match mutation
    case SetAttribute(_, name, value) => node.(attributes := node.attributes[name := value])
    case RemoveAttribute(_, name) => node.(attributes := node.attributes - {name})
    case SetText(_, value) => node.(text := Some(value))
    case AddEventListener(_, event) => node.(eventListeners := node.eventListeners + {event})
    case RemoveEventListener(_, event) => node.(eventListeners := node.eventListeners - {event})
  }

  function RootAfter(d: Document, mutation: Mutation): Option<Id> {
    match mutation
    case Insert(node) => if node.parent.None? then Some(node.id) else d.root
    case Remove(n) => if d.root == Some(n) then None else d.root
    case _ => d.root
  }

  /** One step of a document's life. */
  datatype Step = Mutate(mutation: Mutation) | AdvanceLifecycle(lifecycle: Lifecycle) | BeginNavigation(url: string)

  function Accepted(d: Document, step: Step): bool {
    step.Mutate? ==> Verdict(d, step.mutation).Ok?
  }

  ghost predicate StepReturns(d: Document, step: Step) {
    step.Mutate? ==> Returns(d, step.mutation)
  }

  ghost function After(d: Document, step: Step): Document
    requires StepReturns(d, step)
  {
    if !Accepted(d, step) then d
    else match step
      case Mutate(mutation) =>
        d.(nodes := NodesAfter(d, mutation), root := RootAfter(d, mutation), generation := d.generation + 1)
      case AdvanceLifecycle(lifecycle) => d.(lifecycle := lifecycle, generation := d.generation + 1)
      case BeginNavigation(url) => Document(url, d.generation + 1, Loading, None, map[])
  }

  /** Every step of the run comes back. */
  ghost predicate RunReturns(d: Document, steps: seq<Step>)
    decreases steps
  {
    steps != [] ==> StepReturns(d, steps[0]) && RunReturns(After(d, steps[0]), steps[1..])
  }

  ghost function Run(d: Document, steps: seq<Step>): Document
    requires RunReturns(d, steps)
    decreases steps
  {
    if steps == [] then d else Run(After(d, steps[0]), steps[1..])
  }

  ghost function AcceptedCount(d: Document, steps: seq<Step>): nat
    requires RunReturns(d, steps)
    decreases steps
  {
    if steps == [] then 0
    else (if Accepted(d, steps[0]) then 1 else 0) + AcceptedCount(After(d, steps[0]), steps[1..])
  }

  function Reference(d: Document, node: Id): Option<NodeReference> {
    if node in d.nodes then Some(NodeReference(node, d.generation)) else None
  }

  function Resolve(d: Document, reference: NodeReference): Result<RawNode, Error> {
    if reference.generation != d.generation then Err(StaleReference)
    else if reference.node in d.nodes then Ok(d.nodes[reference.node])
    else Err(MissingNode(reference.node))
  }

  // -------------------------------------------------------------- tree laws

  /** Inserted nodes arrive as the node constructors build them. */
  predicate InsertsLeaf(step: Step) {
    step.Mutate? && step.mutation.Insert? ==> step.mutation.node.children == []
  }

  /** A node that stays when `n` is removed. */
  ghost function Orphaned(d: Document, n: Id, x: Id): RawNode
    requires n in d.nodes && x in d.nodes
  {
    if d.nodes[n].parent == Some(x) then d.nodes[x].(children := Without(d.nodes[x].children, {n})) else d.nodes[x]
  }

  /** In a tree a removal deletes the target and its descendants. */
  lemma GoneInTree(d: Document, n: Id)
    requires IsTree(d) && n in d.nodes
    ensures Ends(LinksOf(d.nodes), n)
    ensures Gone(d.nodes, n) == Descendants(LinksOf(d.nodes), n) + {n}
  {
    CollectedInTree(LinksOf(d.nodes), d.root, n);
  }

  /** In a tree the target loses its parent's entry and no other list changes, so
      every list is restricted to the nodes that stay. */
  lemma {:induction false} DropPrunes(d: Document, n: Id, gone: set<Id>, kept: map<Id, RawNode>)
    requires IsTree(d) && n in d.nodes && gone == Descendants(LinksOf(d.nodes), n) + {n}
    requires kept == DropChild(d.nodes - gone, d.nodes[n].parent, n)
    ensures LinksOf(kept) == Prune(LinksOf(d.nodes), gone)
  {
    var m := LinksOf(d.nodes);
    assert kept.Keys == d.nodes.Keys - gone;
    forall x | x in kept
      ensures Link(kept[x].parent, kept[x].children) == Link(m[x].parent, Without(m[x].children, gone))
    {
      PruneSubtreeLists(m, d.root, n, x);
    }
  }

  lemma {:induction false} RemovalPrunes(d: Document, n: Id)
    requires IsTree(d) && n in d.nodes
    ensures Ends(LinksOf(d.nodes), n)
    ensures var m := LinksOf(d.nodes);
            LinksOf(NodesWithoutSubtree(d.nodes, n)) == Prune(m, Descendants(m, n) + {n})
    ensures RootedTree(LinksOf(NodesWithoutSubtree(d.nodes, n)), if d.root == Some(n) then None else d.root)
  {
    var m := LinksOf(d.nodes);
    GoneInTree(d, n);
    DropPrunes(d, n, Descendants(m, n) + {n}, NodesWithoutSubtree(d.nodes, n));
    SubtreeDownClosed(m, d.root, n);
    PruneKeepsTree(m, d.root, Descendants(m, n) + {n});
    if d.root.Some? {
      RootBelowNothing(m, d.root, n);
    }
  }

  lemma RootBelowNothing(m: Links, root: Option<Id>, n: Id)
    requires RootedTree(m, root) && root.Some?
    ensures !Below(m, n, root.value)
  {
    assert Linked(m, root, root.value);
    forall k: nat | k > 0
      ensures Climb(m, root.value, k) == None
    {
    }
  }

  lemma InsertGrafts(d: Document, node: RawNode)
    requires Verdict(d, Insert(node)).Ok?
    ensures LinksOf(NodesAfter(d, Insert(node))) ==
            Graft(LinksOf(d.nodes), node.id, Link(node.parent, node.children))
  {
  }

  lemma InsertKeepsTreeIffLeaf(d: Document, node: RawNode)
    requires IsTree(d) && Verdict(d, Insert(node)).Ok?
    ensures IsTree(After(d, Mutate(Insert(node)))) <==> node.children == []
  {
    InsertGrafts(d, node);
    GraftKeepsTreeIffLeaf(LinksOf(d.nodes), d.root, node.id, Link(node.parent, node.children));
  }

  lemma StepKeepsTree(d: Document, step: Step)
    requires IsTree(d) && InsertsLeaf(step)
    ensures StepReturns(d, step) && IsTree(After(d, step))
  {
    if Accepted(d, step) {
      match step
      case AdvanceLifecycle(_) =>
      case BeginNavigation(_) =>
        assert LinksOf(map[]) == map[];
      case Mutate(mutation) =>
        match mutation
        case Insert(node) => InsertKeepsTreeIffLeaf(d, node);
        case Remove(n) => RemovalPrunes(d, n);
        case _ => EditKeepsLinks(d, mutation);
    }
  }

  lemma SameLinksIfEdited(nodes: map<Id, RawNode>, n: Id, edited: map<Id, RawNode>)
    requires n in nodes && n in edited && edited == nodes[n := edited[n]]
    requires edited[n].id == nodes[n].id
    requires edited[n].parent == nodes[n].parent && edited[n].children == nodes[n].children
    ensures LinksOf(edited) == LinksOf(nodes)
    ensures forall x | x in edited :: x in nodes && edited[x].id == nodes[x].id
  {
  }

  /** Edits of attributes, text and listeners touch no link. */
  lemma EditKeepsLinks(d: Document, mutation: Mutation)
    requires !mutation.Insert? && !mutation.Remove? && Verdict(d, mutation).Ok?
    ensures LinksOf(NodesAfter(d, mutation)) == LinksOf(d.nodes)
    ensures forall n | n in NodesAfter(d, mutation) :: n in d.nodes && NodesAfter(d, mutation)[n].id == d.nodes[n].id
  {
    SameLinksIfEdited(d.nodes, mutation.target, NodesAfter(d, mutation));
  }

  /** Every document reached from a new one by leaf inserts, removals, edits,
      lifecycle changes and navigations is a rooted tree, and every step of such a
      run comes back. */
  lemma {:induction false} RunKeepsTree(d: Document, steps: seq<Step>)
    requires IsTree(d) && forall i | 0 <= i < |steps| :: InsertsLeaf(steps[i])
    ensures RunReturns(d, steps) && IsTree(Run(d, steps))
    decreases steps
  {
    if steps == [] {
    } else {
      StepKeepsTree(d, steps[0]);
      RunKeepsTree(After(d, steps[0]), steps[1..]);
    }
  }

  lemma ReachableIsTree(url: string, steps: seq<Step>)
    requires forall i | 0 <= i < |steps| :: InsertsLeaf(steps[i])
    ensures RunReturns(NewDocument(url), steps) && IsTree(Run(NewDocument(url), steps))
  {
    assert LinksOf(map[]) == map[];
    RunKeepsTree(NewDocument(url), steps);
  }

  /** A removal deletes exactly the subtree; of the nodes that stay, only the
      parent of the target changes, by losing the target from its child list. */
  lemma RemovalIsExact(d: Document, n: Id)
    requires IsTree(d) && Verdict(d, Remove(n)).Ok?
    ensures Returns(d, Remove(n))
    ensures var m, d' := LinksOf(d.nodes), After(d, Mutate(Remove(n)));
            && d'.nodes.Keys == d.nodes.Keys - Descendants(m, n) - {n}
            && (forall x | x in d'.nodes :: d'.nodes[x] == Orphaned(d, n, x))
            && (d'.nodes == map[] <==> d.root == Some(n))
  {
    GoneInTree(d, n);
    DropIsLocal(d, n, Gone(d.nodes, n), NodesWithoutSubtree(d.nodes, n));
    RemovalEmptiesRoot(d, n, NodesWithoutSubtree(d.nodes, n));
  }

  /** Whatever is deleted, of the rest only the parent of the target changes. */
  lemma DropIsLocal(d: Document, n: Id, gone: set<Id>, kept: map<Id, RawNode>)
    requires n in d.nodes && kept == DropChild(d.nodes - gone, d.nodes[n].parent, n)
    ensures kept.Keys == d.nodes.Keys - gone
    ensures forall x | x in kept :: kept[x] == Orphaned(d, n, x)
  {
  }

  lemma RemovalEmptiesRoot(d: Document, n: Id, kept: map<Id, RawNode>)
    requires IsTree(d) && n in d.nodes
    requires Ends(LinksOf(d.nodes), n) && kept == NodesWithoutSubtree(d.nodes, n)
    ensures kept == map[] <==> d.root == Some(n)
  {
    RemovalPrunes(d, n);
    assert n in LinksOf(d.nodes);
    assert LinksOf(kept).Keys == kept.Keys;
  }

  /** On any document an accepted removal comes back exactly when no walk along
      child lists from the target loops. */
  lemma RemovalReturnsIffNoLoop(d: Document, n: Id)
    requires Verdict(d, Remove(n)).Ok?
    ensures Returns(d, Remove(n)) <==> !Loops(LinksOf(d.nodes), n)
  {
    EndsIffNoLoop(LinksOf(d.nodes), n);
  }

  /** On any document a removal that comes back deletes exactly the target and
      what child lists reach from it. */
  lemma RemovalDeletesReached(d: Document, n: Id, x: Id)
    requires Verdict(d, Remove(n)).Ok? && Returns(d, Remove(n))
    ensures x in After(d, Mutate(Remove(n))).nodes <==>
            x in d.nodes && x != n && !Reached(LinksOf(d.nodes), n, x)
  {
    var m := LinksOf(d.nodes);
    var depth: nat :| Descend(m, n, depth).Some?;
    CollectedAt(m, n, depth);
    DescentIsReached(m, n, depth, x);
  }

  function Bare(id: Id, parent: Option<Id>, children: seq<Id>): RawNode {
    RawNode(id, Element, None, map[], None, parent, children, {})
  }

  lemma RunOfTwo(d: Document, first: Step, second: Step, steps: seq<Step>)
    requires steps == [first, second]
    requires StepReturns(d, first) && StepReturns(After(d, first), second)
    ensures RunReturns(d, steps)
    ensures Run(d, steps) == After(After(d, first), second)
    ensures Accepted(d, first) && Accepted(After(d, first), second) ==> AcceptedCount(d, steps) == 2
  {
    var d1, rest := After(d, first), steps[1..];
    var d2, none := After(d1, second), rest[1..];
    assert rest == [second] && none == [];
    assert RunReturns(d2, none) && Run(d2, none) == d2 && AcceptedCount(d2, none) == 0;
    assert RunReturns(d1, rest) && Run(d1, rest) == d2;
  }

  /** Two accepted inserts, the second listing its own parent as its child, after
      which removing the root is accepted and never comes back. */
  lemma AcceptedRemovalNeedNotReturn(url: string, steps: seq<Step>)
    requires steps == [Mutate(Insert(Bare(0, None, []))), Mutate(Insert(Bare(1, Some(0), [0])))]
    ensures RunReturns(NewDocument(url), steps) && AcceptedCount(NewDocument(url), steps) == 2
    ensures Verdict(Run(NewDocument(url), steps), Remove(0)).Ok?
    ensures !Returns(Run(NewDocument(url), steps), Remove(0))
  {
    var d := NewDocument(url);
    RunOfTwo(d, steps[0], steps[1], steps);
    var d2 := After(After(d, steps[0]), steps[1]);
    var m := LinksOf(d2.nodes);
    assert m[0].children == [1] && m[1].children == [0];
    var around: seq<Id> := [0, 1, 0];
    assert IsWalk(m, around) && around[0] == around[2];
    RemovalReturnsIffNoLoop(d2, 0);
  }

  ghost predicate BuiltByThree(url: string, d: Document) {
    var d1 := After(NewDocument(url), Mutate(Insert(Bare(0, None, []))));
    var d2 := After(d1, Mutate(Insert(Bare(1, Some(0), []))));
    d == After(d2, Mutate(Insert(Bare(2, Some(0), [1]))))
  }

  lemma ThreeInserts(url: string, d: Document)
    requires BuiltByThree(url, d)
    ensures d.lifecycle != Destroyed && d.generation == 3
    ensures d.nodes == map[0 := Bare(0, None, [1, 2]), 1 := Bare(1, Some(0), []), 2 := Bare(2, Some(0), [1])]
  {
    var d1 := After(NewDocument(url), Mutate(Insert(Bare(0, None, []))));
    var d2 := After(d1, Mutate(Insert(Bare(1, Some(0), []))));
    assert d1.nodes == map[0 := Bare(0, None, [])];
    assert d2.nodes[0].children == [1];
    assert d2.nodes == map[0 := Bare(0, None, [1]), 1 := Bare(1, Some(0), [])];
    assert d.nodes[0].children == [1, 2];
    assert d.nodes.Keys == {0, 1, 2};
  }

  /** A removal follows child lists, not parent links: the third node inserted
      lists the second, a child of the first, and takes it along when removed,
      while the first goes on listing it. */
  lemma RemovalFollowsChildLists(url: string, d: Document)
    requires BuiltByThree(url, d)
    ensures Verdict(d, Remove(2)).Ok? && Returns(d, Remove(2))
    ensures After(d, Mutate(Remove(2))).nodes == map[0 := Bare(0, None, [1])]
  {
    ThreeInserts(url, d);
    DescendOverLeaf(LinksOf(d.nodes), 2, 1);
    RemovalOfTwo(d.nodes);
  }

  /** The descent from a node whose only child is a leaf. */
  lemma DescendOverLeaf(m: Links, a: Id, leaf: Id)
    requires a in m && leaf in m && m[a].children == [leaf] && m[leaf].children == []
    ensures Ends(m, a) && Collected(m, a) == [leaf]
  {
    var depth: nat := 2;
    var none: seq<Id> := [];
    assert DescendFirst(m, leaf, 0, depth - 2) == Some(none);
    assert Descend(m, leaf, depth - 1) == Some(none);
    assert DescendFirst(m, a, 0, depth - 1) == Some(none);
    assert DescendFirst(m, a, 1, depth - 1) == Some(none + none + [leaf]);
    assert none + none + [leaf] == [leaf];
    CollectedAt(m, a, depth);
  }

  lemma RemovalOfTwo(nodes: map<Id, RawNode>)
    requires nodes == map[0 := Bare(0, None, [1, 2]), 1 := Bare(1, Some(0), []), 2 := Bare(2, Some(0), [1])]
    requires Ends(LinksOf(nodes), 2) && Collected(LinksOf(nodes), 2) == [1]
    ensures NodesWithoutSubtree(nodes, 2) == map[0 := Bare(0, None, [1])]
  {
    assert Gone(nodes, 2) == {1, 2};
    assert nodes - {1, 2} == map[0 := Bare(0, None, [1, 2])];
    assert Without([1, 2], {2}) == [1] by {
      assert [1, 2][1..] == [2] && [2][1..] == [];
    }
  }

  // --------------------------------------------------------- reference laws

  lemma {:induction false} GenerationCountsAccepted(d: Document, steps: seq<Step>)
    requires RunReturns(d, steps)
    ensures Run(d, steps).generation == d.generation + AcceptedCount(d, steps)
    ensures AcceptedCount(d, steps) == 0 ==> Run(d, steps) == d
    decreases steps
  {
    if steps == [] {
    } else {
      GenerationCountsAccepted(After(d, steps[0]), steps[1..]);
    }
  }

  /** A reference resolves after a run exactly when the run changed nothing, and
      then to the very node it was taken from. */
  lemma ReferenceResolvesIffUnchanged(d: Document, steps: seq<Step>, node: Id)
    requires RunReturns(d, steps) && Reference(d, node).Some?
    ensures var r := Resolve(Run(d, steps), Reference(d, node).value);
            if AcceptedCount(d, steps) == 0 then r == Ok(d.nodes[node]) else r == Err(StaleReference)
  {
    GenerationCountsAccepted(d, steps);
  }

  // ----------------------------------------------------- effects in plain terms

  /** How an insert into a living document is answered. */
  ghost predicate InsertAnswer(d: Document, node: RawNode, r: Result<(), Error>) {
    && (node.id in d.nodes ==> r == Err(DuplicateNode(node.id)))
    && (node.id !in d.nodes && node.parent.Some? ==>
          r == if node.parent.value in d.nodes then Ok(()) else Err(MissingParent(node.parent.value)))
    && (node.id !in d.nodes && node.parent.None? ==> r == if d.root.Some? then Err(RootAlreadySet) else Ok(()))
  }

  /** After an insert the node is there as given, its parent lists it last, and
      everything else is as before. */
  ghost predicate Inserted(d: Document, node: RawNode, d': Document) {
    && d'.nodes.Keys == d.nodes.Keys + {node.id} && d'.nodes[node.id] == node
    && d'.root == (if node.parent.Some? then d.root else Some(node.id))
    && forall x | x in d.nodes ::
         d'.nodes[x] == if node.parent == Some(x) then d.nodes[x].(children := d.nodes[x].children + [node.id])
                        else d.nodes[x]
  }

  /** What an edit does to its node: one entry changes, all others stay. */
  ghost predicate EditShows(mutation: Mutation, before: RawNode, after: RawNode)
    requires !mutation.Insert? && !mutation.Remove?
  {
    && after.id == before.id && after.kind == before.kind && after.name == before.name
    && after.parent == before.parent && after.children == before.children
    && (match mutation
        case SetAttribute(_, name, value) =>
          && name in after.attributes && after.attributes[name] == value
          && after.attributes - {name} == before.attributes - {name}
          && after.text == before.text && after.eventListeners == before.eventListeners
        case RemoveAttribute(_, name) =>
          && name !in after.attributes && after.attributes == before.attributes - {name}
          && after.text == before.text && after.eventListeners == before.eventListeners
        case SetText(_, value) =>
          && after.text == Some(value)
          && after.attributes == before.attributes && after.eventListeners == before.eventListeners
        case AddEventListener(_, event) =>
          && (forall e :: e in after.eventListeners <==> e in before.eventListeners || e == event)
          && after.attributes == before.attributes && after.text == before.text
        case RemoveEventListener(_, event) =>
          && (forall e :: e in after.eventListeners <==> e in before.eventListeners && e != event)
          && after.attributes == before.attributes && after.text == before.text)
  }

  /** How a mutation is answered. */
  ghost predicate Answered(d: Document, mutation: Mutation, r: Result<(), Error>) {
    if d.lifecycle == Destroyed then r == Err(DocumentDestroyed)
    else if mutation.Insert? then InsertAnswer(d, mutation.node, r)
    else r == if mutation.target in d.nodes then Ok(()) else Err(MissingNode(mutation.target))
  }

  /** What an answered mutation leaves: a refused one leaves everything, an accepted
      one counts as a new generation and does what it says. */
  ghost predicate Effect(d: Document, mutation: Mutation, r: Result<(), Error>, d': Document) {
    if r.Err? then d' == d
    else
      && d'.generation == d.generation + 1 && d'.url == d.url && d'.lifecycle == d.lifecycle
      && (match mutation
          case Insert(node) => Inserted(d, node, d')
          case Remove(n) => n in d.nodes && Removed(d, n, d')
          case _ =>
            && mutation.target in d.nodes && mutation.target in d'.nodes && d'.root == d.root
            && d'.nodes == d.nodes[mutation.target := d'.nodes[mutation.target]]
            && EditShows(mutation, d.nodes[mutation.target], d'.nodes[mutation.target]))
  }

  /** After a removal the target and what child lists reach from it are gone, and
      its parent, if still there, no longer lists it. */
  ghost predicate Removed(d: Document, n: Id, d': Document)
    requires n in d.nodes
  {
    && (forall x :: x in d'.nodes <==> x in d.nodes && x != n && !Reached(LinksOf(d.nodes), n, x))
    && (forall x | x in d'.nodes :: d'.nodes[x] == Orphaned(d, n, x))
    && d'.root == if d.root == Some(n) then None else d.root
  }

  lemma VerdictIsPlain(d: Document, mutation: Mutation)
    ensures Answered(d, mutation, Verdict(d, mutation))
  {
  }

  lemma EffectIsPlain(d: Document, mutation: Mutation)
    requires Returns(d, mutation)
    ensures Effect(d, mutation, Verdict(d, mutation), After(d, Mutate(mutation)))
  {
    if Verdict(d, mutation).Ok? {
      match mutation
      case Insert(node) => InsertIsPlain(d, node);
      case Remove(n) => RemovalIsPlain(d, n);
      case _ => EditIsPlain(d, mutation);
    }
  }

  lemma InsertIsPlain(d: Document, node: RawNode)
    requires Verdict(d, Insert(node)).Ok?
    ensures Inserted(d, node, After(d, Mutate(Insert(node))))
  {
  }

  lemma RemovalIsPlain(d: Document, n: Id)
    requires Verdict(d, Remove(n)).Ok? && Returns(d, Remove(n))
    ensures Removed(d, n, After(d, Mutate(Remove(n))))
  {
    forall x
      ensures x in Gone(d.nodes, n) <==> x == n || Reached(LinksOf(d.nodes), n, x)
    {
      CollectedIsReached(LinksOf(d.nodes), n, x);
    }
    DropIsLocal(d, n, Gone(d.nodes, n), NodesWithoutSubtree(d.nodes, n));
  }

  lemma EditIsPlain(d: Document, mutation: Mutation)
    requires !mutation.Insert? && !mutation.Remove? && Verdict(d, mutation).Ok?
    ensures var nodes := NodesAfter(d, mutation);
            && mutation.target in nodes && nodes == d.nodes[mutation.target := nodes[mutation.target]]
            && EditShows(mutation, d.nodes[mutation.target], nodes[mutation.target])
  {
  }

  // ---------------------------------------------------------- implementation

  class RawDocument {
    var url: string
    var generation: nat
    var lifecycle: Lifecycle
    var root: Option<Id>
    var nodes: map<Id, RawNode>

    ghost function View(): Document
      reads this
    {
      Document(url, generation, lifecycle, root, nodes)
    }

    constructor (url: string)
      ensures View() == NewDocument(url) && View() == Document(url, 0, Initial, None, map[])
    {
      this.url, generation, lifecycle, root, nodes := url, 0, Initial, None, map[];
    }

    /** Applies one mutation.  Only a removal, which descends along child lists,
        may fail to come back. */
    method Apply(mutation: Mutation) returns (r: Result<(), Error>)
      requires Returns(View(), mutation)
      modifies this
      ensures r == Verdict(old(View()), mutation)
      ensures View() == After(old(View()), Mutate(mutation))
      ensures old(IsTree(View())) && InsertsLeaf(Mutate(mutation)) ==> IsTree(View())
      ensures Answered(old(View()), mutation, r) && Effect(old(View()), mutation, r, View())
    {
      r := Change(mutation);
      VerdictIsPlain(old(View()), mutation);
      EffectIsPlain(old(View()), mutation);
      if old(IsTree(View())) && InsertsLeaf(Mutate(mutation)) {
        StepKeepsTree(old(View()), Mutate(mutation));
      }
    }

    method Change(mutation: Mutation) returns (r: Result<(), Error>)
      requires Returns(View(), mutation)
      modifies this
      ensures r == Verdict(old(View()), mutation)
      ensures View() == After(old(View()), Mutate(mutation))
    {
      if lifecycle == Destroyed {
        return Err(DocumentDestroyed);
      }
      match mutation {
        case Insert(node) =>
          r := InsertNode(node);
          if r.Err? {
            return;
          }
        case Remove(n) =>
          if n !in nodes {
            return Err(MissingNode(n));
          }
          RemoveSubtree(n);
        case _ =>
          var n := mutation.target;
          if n !in nodes {
            return Err(MissingNode(n));
          }
          nodes := nodes[n := Edited(nodes[n], mutation)];
      }
      generation := generation + 1;
      r := Ok(());
    }

    /** The insert of a living document. */
    method InsertNode(node: RawNode) returns (r: Result<(), Error>)
      requires lifecycle != Destroyed
      modifies this`nodes, this`root
      ensures r == Verdict(old(View()), Insert(node))
      ensures r.Err? ==> nodes == old(nodes) && root == old(root)
      ensures r.Ok? ==> nodes == NodesAfter(old(View()), Insert(node)) && root == RootAfter(old(View()), Insert(node))
    {
      if node.id in nodes {
        return Err(DuplicateNode(node.id));
      }
      if node.parent.Some? {
        var p := node.parent.value;
        if p !in nodes {
          return Err(MissingParent(p));
        }
        nodes := nodes[p := nodes[p].(children := nodes[p].children + [node.id])];
      } else if root.Some? {
        return Err(RootAlreadySet);
      } else {
        root := Some(node.id);
      }
      nodes := nodes[node.id := node];
      r := Ok(());
    }

    method RemoveSubtree(n: Id)
      requires n in nodes && Ends(LinksOf(nodes), n)
      modifies this`nodes, this`root
      ensures nodes == NodesWithoutSubtree(old(nodes), n)
      ensures root == if old(root) == Some(n) then None else old(root)
    {
      var parent := nodes[n].parent;
      ghost var bound: nat :| Descend(LinksOf(nodes), n, bound).Some?;
      var removedIds := CollectDescendants(n, [], bound);
      CollectedAt(LinksOf(nodes), n, bound);
      removedIds := removedIds + [n];
      DeleteNodes(removedIds, Gone(nodes, n));
      nodes := DropChild(nodes, parent, n);
      if root == Some(n) {
        root := None;
      }
    }

    method DeleteNodes(ids: seq<Id>, ghost gone: set<Id>)
      requires gone == set x | x in ids
      modifies this`nodes
      ensures nodes == old(nodes) - gone
    {
      for i := 0 to |ids|
        invariant nodes == old(nodes) - (set x | x in ids[..i])
      {
        assert ids[..i + 1] == ids[..i] + [ids[i]];
        nodes := nodes - {ids[i]};
      }
      assert ids[..|ids|] == ids;
    }

    /** Appends what the descent along child lists collects, each node after what
        is below it.  `bound` is a depth within which the descent ends. */
    method CollectDescendants(id: Id, found: seq<Id>, ghost bound: nat) returns (descendants: seq<Id>)
      requires Descend(LinksOf(nodes), id, bound).Some?
      ensures descendants == found + Descend(LinksOf(nodes), id, bound).value
      decreases bound
    {
      descendants := found;
      if id in nodes {
        var children := nodes[id].children;
        FirstNeedsEach(LinksOf(nodes), id, |children|, bound - 1);
        for i := 0 to |children|
          invariant DescendFirst(LinksOf(nodes), id, i, bound - 1).Some?
          invariant descendants == found + DescendFirst(LinksOf(nodes), id, i, bound - 1).value
        {
          descendants := CollectDescendants(children[i], descendants, bound - 1);
          descendants := descendants + [children[i]];
        }
      }
    }

    method TakeReference(node: Id) returns (r: Option<NodeReference>)
      ensures r == Reference(View(), node)
      ensures r == if node in nodes then Some(NodeReference(node, generation)) else None
    {
      r := if node in nodes then Some(NodeReference(node, generation)) else None;
    }

    method ResolveReference(reference: NodeReference) returns (r: Result<RawNode, Error>)
      ensures r == Resolve(View(), reference)
      ensures reference.generation != generation ==> r == Err(StaleReference)
      ensures reference.generation == generation ==>
                r == if reference.node in nodes then Ok(nodes[reference.node]) else Err(MissingNode(reference.node))
    {
      if reference.generation != generation {
        return Err(StaleReference);
      }
      if reference.node in nodes {
        return Ok(nodes[reference.node]);
      }
      r := Err(MissingNode(reference.node));
    }

    method Advance(lifecycle: Lifecycle)
      modifies this
      ensures View() == After(old(View()), AdvanceLifecycle(lifecycle))
      ensures View() == Document(old(url), old(generation) + 1, lifecycle, old(root), old(nodes))
    {
      this.lifecycle := lifecycle;
      generation := generation + 1;
    }

    method Navigate(url: string)
      modifies this
      ensures View() == After(old(View()), BeginNavigation(url))
      ensures View() == Document(url, old(generation) + 1, Loading, None, map[])
    {
      this.url, root, nodes, this.lifecycle := url, None, map[], Loading;
      generation := generation + 1;
    }
  }
}
