/** Flattening of a nested DOM projection into the agent's flat node list. */
module AgentTree {
  import opened Common
  import opened Decimal
  import opened Json
  import opened NodeContent

  datatype Geometry = Geometry(x: real, y: real, width: real, height: real)

  /** What an agent node shows of its element. */
  datatype Look = Look(
    origin: Option<string>, content: Content, visible: bool, enabled: bool, focused: bool, geometry: Option<Geometry>)

  datatype AgentNode = AgentNode(
    id: string, identityKey: Option<string>, look: Look, children: seq<string>, generation: nat)

  /** How nodes are read off elements.  The laws of flattening hold for any
      reading; the engine uses `LiveReading`. */
  datatype Reading = Reading(generation: nat, look: Value -> Look, ownKey: Value -> Option<string>)

  datatype RenderTree = RenderTree(root: string, nodes: seq<AgentNode>, generation: nat, truncated: bool)

  datatype EngineError = NotAnObject | OmittedChildren

  // -------------------------------------------------------- field extraction

  function GeometryField(v: Value): Option<Geometry> {
    match Field(v, "rect")
    case None => None
    case Some(rect) =>
      match (Field(rect, "x"), Field(rect, "y"), Field(rect, "width"), Field(rect, "height"))
      case (Some(Number(x)), Some(Number(y)), Some(Number(w)), Some(Number(h))) => Some(Geometry(x, y, w, h))
      case _ => None
  }

  /** The child projections; meaningful when the value has a `children` array. */
  function Kids(v: Value): (kids: seq<Value>)
    ensures forall i | 0 <= i < |kids| :: kids[i] < v
  {
    match Field(v, "children")
    case Some(Array(items)) => items
    case _ => []
  }

  function ChildId(id: string, index: nat): string {
    id + "/" + Numeral(index)
  }

  function LookOf(v: Value): Look {
    Look(StringField(v, "origin"), ContentOf(v), BoolField(v, "visible", true), !BoolField(v, "disabled", false),
         BoolField(v, "focused", false), GeometryField(v))
  }

  /** The element's own id attribute, if it has one. */
  function OwnKey(v: Value): Option<string> {
    if TextField(v, "id") == "" then None else Some(TextField(v, "id"))
  }

  function LiveReading(generation: nat): Reading {
    Reading(generation, LookOf, OwnKey)
  }

  function NodeWith(v: Value, id: string, reading: Reading, children: seq<string>): AgentNode {
    var key := if reading.ownKey(v).Some? then reading.ownKey(v) else Some(id);
    AgentNode(id, key, reading.look(v), children, reading.generation)
  }

  // ----------------------------------------------------------- specification

  /** The first fault met when the projection is walked, if any. */
  function Fault(v: Value): Option<EngineError>
    decreases v
  {
    if !v.Object? then Some(NotAnObject)
    else if !(Field(v, "children").Some? && Field(v, "children").value.Array?) then Some(OmittedChildren)
    else FaultAmong(v, |Kids(v)|)
  }

  /** The first fault among the first `n` children. */
  function FaultAmong(v: Value, n: nat): Option<EngineError>
    requires n <= |Kids(v)|
    decreases v, n
  {
    if n == 0 then None
    else match FaultAmong(v, n - 1)
      case Some(e) => Some(e)
      case None => Fault(Kids(v)[n - 1])
  }

  function ChildIds(id: string, n: nat): seq<string> {
    seq(n, i requires 0 <= i => ChildId(id, i))
  }

  function NodeFor(v: Value, id: string, reading: Reading): AgentNode {
    NodeWith(v, id, reading, ChildIds(id, |Kids(v)|))
  }

  /** The nodes of the first `n` child subtrees in post-order. */
  function Below(v: Value, id: string, reading: Reading, n: nat): seq<AgentNode>
    requires n <= |Kids(v)|
    decreases v, n
  {
    if n == 0 then []
    else Below(v, id, reading, n - 1) + PostOrder(Kids(v)[n - 1], ChildId(id, n - 1), reading)
  }

  /** The nodes of a projection, each after its descendants. */
  function PostOrder(v: Value, id: string, reading: Reading): seq<AgentNode>
    decreases v, |Kids(v)| + 1
  {
    Below(v, id, reading, |Kids(v)|) + [NodeFor(v, id, reading)]
  }

  /** The first bad child among the first `n`, or `n`. */
  function FirstBad(v: Value, n: nat): (i: nat)
    requires n <= |Kids(v)|
    ensures i <= n
  {
    if n == 0 then 0
    else if FirstBad(v, n - 1) < n - 1 then FirstBad(v, n - 1)
    else if Fault(Kids(v)[n - 1]).Some? then n - 1
    else n
  }

  /** The nodes appended before the fault of a faulty projection is met. */
  function Partial(v: Value, id: string, reading: Reading): seq<AgentNode>
    decreases v
  {
    var i := FirstBad(v, |Kids(v)|);
    Below(v, id, reading, i) + if i < |Kids(v)| then Partial(Kids(v)[i], ChildId(id, i), reading) else []
  }

  const DOM_ROOT := "dom:0"

  function PageLook(url: string): Look {
    Look(None, Content(Page, Some(url), None, []), true, true, false, None)
  }

  function PageNode(rootId: string, url: string, generation: nat): AgentNode {
    AgentNode(rootId, Some("page"), PageLook(url), [DOM_ROOT], generation)
  }

  function ProjectionRoot(value: Value): Value {
    match Field(value, "root")
    case Some(root) => root
    case None => value
  }

  // ---------------------------------------------------------- implementation

  /** Returns the node of `v` and appends the nodes below it to `nodes`. */
  method BuildAgentNode(v: Value, id: string, reading: Reading, nodes: seq<AgentNode>)
    returns (r: Result<AgentNode, EngineError>, extended: seq<AgentNode>)
    ensures Fault(v).None? ==>
              r == Ok(NodeFor(v, id, reading)) && extended == nodes + Below(v, id, reading, |Kids(v)|)
    ensures Fault(v).Some? ==> r == Err(Fault(v).value) && extended == nodes + Partial(v, id, reading)
    decreases v
  {
    extended := nodes;
    if !v.Object? {
      return Err(NotAnObject), extended;
    }
    if !("children" in v.fields && v.fields["children"].Array?) {
      return Err(OmittedChildren), extended;
    }
    var childIds := [];
    for index := 0 to |Kids(v)|
      invariant FaultAmong(v, index).None? && FirstBad(v, index) == index
      invariant childIds == ChildIds(id, index)
      invariant extended == nodes + Below(v, id, reading, index)
    {
      var child;
      child, extended := BuildAgentNode(Kids(v)[index], ChildId(id, index), reading, extended);
      if child.Err? {
        FaultSpreads(v, index, |Kids(v)|);
        FirstBadIs(v, index, |Kids(v)|);
        PartialAt(v, id, reading, index);
        JoinThree(nodes, Below(v, id, reading, index), Partial(Kids(v)[index], ChildId(id, index), reading));
        return Err(child.error), extended;
      }
      ChildIdsGrow(id, index);
      NodesGrow(v, id, reading, index, nodes);
      childIds := childIds + [child.value.id];
      extended := extended + [child.value];
    }
    r := Ok(NodeWith(v, id, reading, childIds));
  }

  lemma {:induction false} NodesGrow(v: Value, id: string, reading: Reading, i: nat, nodes: seq<AgentNode>)
    requires i < |Kids(v)|
    ensures var kid, kidId := Kids(v)[i], ChildId(id, i);
            nodes + Below(v, id, reading, i) + Below(kid, kidId, reading, |Kids(kid)|)
            + [NodeFor(kid, kidId, reading)] == nodes + Below(v, id, reading, i + 1)
  {
  }

  lemma ChildIdsGrow(id: string, i: nat)
    ensures ChildIds(id, i + 1) == ChildIds(id, i) + [ChildId(id, i)]
  {
  }

  lemma {:induction false} FirstBadIs(v: Value, i: nat, n: nat)
    requires i < n <= |Kids(v)| && FirstBad(v, i) == i && Fault(Kids(v)[i]).Some?
    ensures FirstBad(v, n) == i
  {
    if i + 1 == n {
    } else {
      FirstBadIs(v, i, n - 1);
    }
  }

  /** A fault in child `i` leaves what is below the children before it and the
      part of that child. */
  lemma PartialAt(v: Value, id: string, reading: Reading, i: nat)
    requires i < |Kids(v)| && FirstBad(v, |Kids(v)|) == i
    ensures Partial(v, id, reading) == Below(v, id, reading, i) + Partial(Kids(v)[i], ChildId(id, i), reading)
  {
  }

  lemma JoinThree(a: seq<AgentNode>, b: seq<AgentNode>, c: seq<AgentNode>)
    ensures a + b + c == a + (b + c)
  {
  }

  /** The fault of the first bad child is the fault of the whole list. */
  lemma {:induction false} FaultSpreads(v: Value, i: nat, n: nat)
    requires i < n <= |Kids(v)| && FaultAmong(v, i).None? && Fault(Kids(v)[i]).Some?
    ensures FaultAmong(v, n) == Fault(Kids(v)[i])
  {
    if i + 1 == n {
    } else {
      FaultSpreads(v, i, n - 1);
    }
  }

  lemma PageFirst(nodes: seq<AgentNode>, page: AgentNode, below: seq<AgentNode>, last: AgentNode)
    requires |nodes| == |below| + 2 && nodes[0] == page && nodes[1..|nodes| - 1] == below && nodes[|nodes| - 1] == last
    ensures nodes == [page] + (below + [last])
  {
    assert nodes == [nodes[0]] + nodes[1..|nodes| - 1] + [nodes[|nodes| - 1]];
  }

  /** The end of `agent_tree`: the page node, then the flattened projection. */
  method Assemble(value: Value, url: string, rootId: string, generation: nat)
    returns (r: Result<RenderTree, EngineError>)
    ensures var v := if value.Object? && "root" in value.fields then value.fields["root"] else value;
            var reading := LiveReading(generation);
            if Fault(v).Some? then r == Err(Fault(v).value)
            else r == Ok(RenderTree(rootId, [PageNode(rootId, url, generation)] + PostOrder(v, DOM_ROOT, reading),
                                    generation, BoolField(value, "truncated", false)))
    ensures r.Ok? ==> ShowsFlag(value, "truncated", false, r.value.truncated)
  {
    var v := ProjectionRoot(value);
    var page := AgentNode(rootId, Some("page"), PageLook(url), [], 0);
    var nodes := [page];
    var domRoot;
    var reading := LiveReading(generation);
    domRoot, nodes := BuildAgentNode(v, DOM_ROOT, reading, nodes);
    if domRoot.Err? {
      return Err(domRoot.error);
    }
    nodes := nodes[0 := nodes[0].(children := nodes[0].children + [domRoot.value.id])];
    nodes := nodes + [domRoot.value];
    nodes := nodes[0 := nodes[0].(generation := generation)];
    assert nodes[0].children == [DOM_ROOT];
    PageFirst(nodes, nodes[0], Below(v, DOM_ROOT, reading, |Kids(v)|), domRoot.value);
    r := Ok(RenderTree(rootId, nodes, generation, BoolField(value, "truncated", false)));
  }

  // ------------------------------------------------------------- id encoding

  /** `s` is the path id `id` or lies under it. */
  ghost predicate Under(s: string, id: string) {
    id <= s && (|s| == |id| || s[|id|] == '/')
  }

  lemma UnderChild(s: string, id: string, i: nat)
    requires Under(s, ChildId(id, i))
    ensures Under(s, id) && s != id
  {
    assert ChildId(id, i)[|id|] == '/';
  }

  /** The path encoding is injective: an id lies under one sibling only. */
  lemma UnderOneChild(s: string, id: string, i: nat, j: nat)
    requires Under(s, ChildId(id, i)) && Under(s, ChildId(id, j))
    ensures i == j
  {
    var tail := s[|id| + 1..];
    NumeralPrefix(s, id, i);
    NumeralPrefix(s, id, j);
    SamePrefix(tail, Numeral(i), Numeral(j));
    NumeralRoundTrip(i);
    NumeralRoundTrip(j);
  }

  lemma NumeralPrefix(s: string, id: string, i: nat)
    requires Under(s, ChildId(id, i))
    ensures |s| > |id| && Under(s[|id| + 1..], Numeral(i))
  {
    var c, tail := ChildId(id, i), s[|id| + 1..];
    assert c[|id| + 1..] == Numeral(i);
    assert s[..|c|] == c;
    assert tail[..|Numeral(i)|] == Numeral(i);
  }

  /** Two digit strings that end at the first non-digit of `t` are the same. */
  lemma SamePrefix(t: string, a: string, b: string)
    requires Under(t, a) && Under(t, b)
    requires forall k | 0 <= k < |a| :: IsDigit(a[k])
    requires forall k | 0 <= k < |b| :: IsDigit(b[k])
    ensures a == b
  {
    assert t[..|a|] == a && t[..|b|] == b;
  }

  // ------------------------------------------------------------ unique ids

  ghost predicate UniqueIds(nodes: seq<AgentNode>) {
    forall i, j | 0 <= i < j < |nodes| :: nodes[i].id != nodes[j].id
  }

  lemma UniqueJoin(a: seq<AgentNode>, b: seq<AgentNode>)
    requires UniqueIds(a) && UniqueIds(b)
    requires forall i, j | 0 <= i < |a| && 0 <= j < |b| :: a[i].id != b[j].id
    ensures UniqueIds(a + b)
  {
  }

  lemma {:induction false} BelowIds(v: Value, id: string, reading: Reading, n: nat)
    requires n <= |Kids(v)|
    ensures UniqueIds(Below(v, id, reading, n))
    ensures forall k | 0 <= k < |Below(v, id, reading, n)| ::
              exists i: nat :: i < n && Under(Below(v, id, reading, n)[k].id, ChildId(id, i))
    decreases v, n
  {
    if n == 0 {
    } else {
      var front := Below(v, id, reading, n - 1);
      var last := PostOrder(Kids(v)[n - 1], ChildId(id, n - 1), reading);
      BelowIds(v, id, reading, n - 1);
      PostOrderIds(Kids(v)[n - 1], ChildId(id, n - 1), reading);
      forall i, j | 0 <= i < |front| && 0 <= j < |last|
        ensures front[i].id != last[j].id
      {
        var k: nat :| k < n - 1 && Under(front[i].id, ChildId(id, k));
        if front[i].id == last[j].id {
          UnderOneChild(front[i].id, id, k, n - 1);
        }
      }
      UniqueJoin(front, last);
    }
  }

  /** All ids of a flattened projection differ and lie under its path id. */
  lemma {:induction false} PostOrderIds(v: Value, id: string, reading: Reading)
    ensures UniqueIds(PostOrder(v, id, reading))
    ensures forall k | 0 <= k < |PostOrder(v, id, reading)| :: Under(PostOrder(v, id, reading)[k].id, id)
    decreases v, |Kids(v)| + 1
  {
    var below, self := Below(v, id, reading, |Kids(v)|), NodeFor(v, id, reading);
    BelowIds(v, id, reading, |Kids(v)|);
    forall k | 0 <= k < |below|
      ensures Under(below[k].id, id) && below[k].id != id
    {
      var i: nat :| i < |Kids(v)| && Under(below[k].id, ChildId(id, i));
      UnderChild(below[k].id, id, i);
    }
    UniqueJoin(below, [self]);
  }

  /** In the assembled list all ids differ exactly when the page id is not itself
      one of the path ids, as with the engine's `page:` ids. */
  lemma AssembledIdsUnique(v: Value, url: string, rootId: string, reading: Reading)
    ensures var dom := PostOrder(v, DOM_ROOT, reading);
            UniqueIds([PageNode(rootId, url, reading.generation)] + dom) <==>
            forall k | 0 <= k < |dom| :: dom[k].id != rootId
    ensures !Under(rootId, DOM_ROOT) ==>
              UniqueIds([PageNode(rootId, url, reading.generation)] + PostOrder(v, DOM_ROOT, reading))
  {
    var page, dom := PageNode(rootId, url, reading.generation), PostOrder(v, DOM_ROOT, reading);
    var all := [page] + dom;
    PostOrderIds(v, DOM_ROOT, reading);
    if forall k | 0 <= k < |dom| :: dom[k].id != rootId {
      UniqueJoin([page], dom);
    } else {
      var k :| 0 <= k < |dom| && dom[k].id == rootId;
      assert all[0].id == all[k + 1].id;
    }
  }

  // ----------------------------------------------------------------- contents

  lemma {:induction false} BelowClean(v: Value, id: string, reading: Reading, n: nat)
    requires n <= |Kids(v)| && reading.look == LookOf
    ensures forall node | node in Below(v, id, reading, n) :: Clean(node.look.content)
    decreases v, n
  {
    if n == 0 {
    } else {
      BelowClean(v, id, reading, n - 1);
      FlatteningIsClean(Kids(v)[n - 1], ChildId(id, n - 1), reading);
    }
  }

  /** No node of a flattened projection, at any depth, mentions a secret in its
      name or value. */
  lemma {:induction false} FlatteningIsClean(v: Value, id: string, reading: Reading)
    requires reading.look == LookOf
    ensures forall node | node in PostOrder(v, id, reading) :: Clean(node.look.content)
    decreases v, |Kids(v)| + 1
  {
    BelowClean(v, id, reading, |Kids(v)|);
    ContentIsClean(v);
  }

  /** The assembled list mentions no secret exactly when the address, which the
      page node carries unredacted as its name, mentions none. */
  lemma AssembledIsCleanIff(v: Value, url: string, rootId: string, generation: nat)
    ensures var nodes := [PageNode(rootId, url, generation)] + PostOrder(v, DOM_ROOT, LiveReading(generation));
            (forall node | node in nodes :: Clean(node.look.content)) <==> url != "" && !Tells(url)
  {
    FlatteningIsClean(v, DOM_ROOT, LiveReading(generation));
    var page, dom := PageNode(rootId, url, generation), PostOrder(v, DOM_ROOT, LiveReading(generation));
    assert page in [page] + dom;
    assert Clean(page.look.content) <==> url != "" && !Tells(url);
  }

  // --------------------------------------------------------------- rebuilding

  /** A nested tree of agent nodes. */
  datatype Nested = Nested(node: AgentNode, children: seq<Nested>)

  /** The nested form of a projection: every node over its own children. */
  function Nest(v: Value, id: string, reading: Reading): Nested
    decreases v, |Kids(v)| + 1
  {
    Nested(NodeFor(v, id, reading), NestKids(v, id, reading, |Kids(v)|))
  }

  function NestKids(v: Value, id: string, reading: Reading, n: nat): seq<Nested>
    requires n <= |Kids(v)|
    decreases v, n
  {
    if n == 0 then []
    else NestKids(v, id, reading, n - 1) + [Nest(Kids(v)[n - 1], ChildId(id, n - 1), reading)]
  }

  /** The first position holding `id`, or the length of the list. */
  function Position(nodes: seq<AgentNode>, id: string): nat {
    if nodes == [] || nodes[0].id == id then 0 else 1 + Position(nodes[1..], id)
  }

  /** Nesting recovered from the flat list alone, by looking up child ids. */
  function Rebuild(nodes: seq<AgentNode>, k: nat): Nested
    requires k < |nodes|
    decreases k, |nodes[k].children| + 1
  {
    Nested(nodes[k], RebuildKids(nodes, k, |nodes[k].children|))
  }

  function RebuildKids(nodes: seq<AgentNode>, k: nat, n: nat): seq<Nested>
    requires k < |nodes| && n <= |nodes[k].children|
    decreases k, n
  {
    if n == 0 then []
    else
      var j := Position(nodes, nodes[k].children[n - 1]);
      RebuildKids(nodes, k, n - 1) + (if j < k then [Rebuild(nodes, j)] else [])
  }

  /** `part` occupies the positions of `s` from `at` on. */
  ghost predicate HoldsAt(s: seq<AgentNode>, at: nat, part: seq<AgentNode>) {
    at + |part| <= |s| && s[at..at + |part|] == part
  }

  lemma HoldsParts(s: seq<AgentNode>, at: nat, a: seq<AgentNode>, b: seq<AgentNode>)
    requires HoldsAt(s, at, a + b)
    ensures HoldsAt(s, at, a) && HoldsAt(s, at + |a|, b)
  {
    var both := s[at..at + |a + b|];
    assert both[..|a|] == a && both[|a|..] == b;
    assert both[..|a|] == s[at..at + |a|] && both[|a|..] == s[at + |a|..at + |a| + |b|];
  }

  lemma HoldsLast(s: seq<AgentNode>, at: nat, front: seq<AgentNode>, last: AgentNode)
    requires HoldsAt(s, at, front + [last])
    ensures HoldsAt(s, at, front) && at + |front| < |s| && s[at + |front|] == last
  {
    HoldsParts(s, at, front, [last]);
    assert s[at + |front|..at + |front| + 1][0] == last;
  }

  /** With unique ids the first position of a node's id is its own. */
  lemma {:induction false} PositionIs(nodes: seq<AgentNode>, k: nat)
    requires UniqueIds(nodes) && k < |nodes|
    ensures Position(nodes, nodes[k].id) == k
  {
    if k == 0 {
    } else {
      assert nodes[1..][k - 1] == nodes[k];
      PositionIs(nodes[1..], k - 1);
    }
  }

  ghost predicate FoundAt(nodes: seq<AgentNode>, k: nat) {
    k < |nodes| ==> Position(nodes, nodes[k].id) == k
  }

  /** Looking up the id of a node finds that node. */
  ghost predicate AllFound(nodes: seq<AgentNode>) {
    forall k: nat :: FoundAt(nodes, k)
  }

  /** Wherever a flattened projection sits in a list with unique ids, looking up
      child ids rebuilds exactly that projection. */
  lemma RebuildPart(all: seq<AgentNode>, at: nat, v: Value, id: string, reading: Reading)
    requires UniqueIds(all) && HoldsAt(all, at, PostOrder(v, id, reading))
    ensures var k := at + |Below(v, id, reading, |Kids(v)|)|;
            k < |all| && Rebuild(all, k) == Nest(v, id, reading) && Position(all, id) == k
  {
    forall k: nat
      ensures FoundAt(all, k)
    {
      if k < |all| {
        PositionIs(all, k);
      }
    }
    RebuildFound(all, at, v, id, reading);
  }

  lemma {:induction false} RebuildFound(all: seq<AgentNode>, at: nat, v: Value, id: string, reading: Reading)
    requires AllFound(all) && HoldsAt(all, at, PostOrder(v, id, reading))
    ensures var k := at + |Below(v, id, reading, |Kids(v)|)|;
            k < |all| && Rebuild(all, k) == Nest(v, id, reading) && Position(all, id) == k
    decreases v, |Kids(v)| + 1
  {
    var below := Below(v, id, reading, |Kids(v)|);
    var k := at + |below|;
    HoldsLast(all, at, below, NodeFor(v, id, reading));
    assert FoundAt(all, k);
    RebuildFoundKids(all, at, k, v, id, reading, |Kids(v)|);
    RebuildIs(all, k, NodeFor(v, id, reading), |Kids(v)|, NestKids(v, id, reading, |Kids(v)|));
  }

  lemma RebuildIs(nodes: seq<AgentNode>, k: nat, node: AgentNode, n: nat, kids: seq<Nested>)
    requires k < |nodes| && nodes[k] == node && n == |node.children| && RebuildKids(nodes, k, n) == kids
    ensures Rebuild(nodes, k) == Nested(node, kids)
  {
  }

  lemma ChildIdAt(id: string, n: nat, i: nat)
    requires i < n
    ensures ChildIds(id, n)[i] == ChildId(id, i)
  {
  }

  /** One more child: what lookup finds is what nesting adds. */
  lemma NestKidsStep(v: Value, id: string, reading: Reading, n: nat)
    requires 0 < n <= |Kids(v)|
    ensures NestKids(v, id, reading, n) ==
            NestKids(v, id, reading, n - 1) + [Nest(Kids(v)[n - 1], ChildId(id, n - 1), reading)]
    ensures Below(v, id, reading, n) ==
            Below(v, id, reading, n - 1) + PostOrder(Kids(v)[n - 1], ChildId(id, n - 1), reading)
  {
  }

  lemma RebuildKidsStep(nodes: seq<AgentNode>, k: nat, n: nat, j: nat, front: seq<Nested>, kid: Nested)
    requires j < k < |nodes| && 0 < n <= |nodes[k].children| && Position(nodes, nodes[k].children[n - 1]) == j
    requires Rebuild(nodes, j) == kid && RebuildKids(nodes, k, n - 1) == front
    ensures RebuildKids(nodes, k, n) == front + [kid]
  {
  }

  lemma {:induction false} RebuildFoundKids(
      all: seq<AgentNode>, at: nat, k: nat, v: Value, id: string, reading: Reading, n: nat)
    requires AllFound(all) && n <= |Kids(v)| && HoldsAt(all, at, Below(v, id, reading, n))
    requires at + |Below(v, id, reading, n)| <= k < |all| && all[k].children == ChildIds(id, |Kids(v)|)
    ensures RebuildKids(all, k, n) == NestKids(v, id, reading, n)
    decreases v, n
  {
    if n == 0 {
    } else {
      var front, kid, kidId := Below(v, id, reading, n - 1), Kids(v)[n - 1], ChildId(id, n - 1);
      NestKidsStep(v, id, reading, n);
      HoldsParts(all, at, front, PostOrder(kid, kidId, reading));
      RebuildFoundKids(all, at, k, v, id, reading, n - 1);
      ChildIdAt(id, |Kids(v)|, n - 1);
      PostOrderSize(kid, kidId, reading);
      RebuildOneMore(all, at + |front|, k, kid, kidId, reading, n, NestKids(v, id, reading, n - 1));
    }
  }

  lemma {:induction false} RebuildOneMore(
      all: seq<AgentNode>, at: nat, k: nat, kid: Value, kidId: string, reading: Reading, n: nat, front: seq<Nested>)
    requires AllFound(all) && HoldsAt(all, at, PostOrder(kid, kidId, reading))
    requires at + |Below(kid, kidId, reading, |Kids(kid)|)| < k < |all|
    requires 0 < n <= |all[k].children| && all[k].children[n - 1] == kidId && RebuildKids(all, k, n - 1) == front
    ensures RebuildKids(all, k, n) == front + [Nest(kid, kidId, reading)]
    decreases kid, |Kids(kid)| + 2
  {
    RebuildFound(all, at, kid, kidId, reading);
    var j := at + |Below(kid, kidId, reading, |Kids(kid)|)|;
    RebuildKidsStep(all, k, n, j, front, Nest(kid, kidId, reading));
  }

  lemma PostOrderSize(v: Value, id: string, reading: Reading)
    ensures |PostOrder(v, id, reading)| == |Below(v, id, reading, |Kids(v)|)| + 1
  {
  }

  /** A bare tree. */
  datatype Shape = Shape(children: seq<Shape>)

  function ShapeOf(v: Value): Shape {
    Shape(seq(|Kids(v)|, i requires 0 <= i < |Kids(v)| => ShapeOf(Kids(v)[i])))
  }

  function NestedShape(t: Nested): Shape {
    Shape(seq(|t.children|, i requires 0 <= i < |t.children| => NestedShape(t.children[i])))
  }

  lemma {:induction false} NestKidsCount(v: Value, id: string, reading: Reading, n: nat)
    requires n <= |Kids(v)|
    ensures |NestKids(v, id, reading, n)| == n
  {
    if n == 0 {
    } else {
      NestKidsCount(v, id, reading, n - 1);
    }
  }

  lemma {:induction false} NestKidAt(v: Value, id: string, reading: Reading, n: nat, i: nat)
    requires i < n <= |Kids(v)| && |NestKids(v, id, reading, n)| == n
    ensures NestKids(v, id, reading, n)[i] == Nest(Kids(v)[i], ChildId(id, i), reading)
  {
    NestKidsStep(v, id, reading, n);
    if i == n - 1 {
    } else {
      NestKidAt(v, id, reading, n - 1, i);
    }
  }

  /** Nesting keeps the shape of the projection. */
  lemma {:induction false} NestKeepsShape(v: Value, id: string, reading: Reading)
    ensures NestedShape(Nest(v, id, reading)) == ShapeOf(v)
    decreases v
  {
    NestKidsCount(v, id, reading, |Kids(v)|);
    var kids := NestKids(v, id, reading, |Kids(v)|);
    forall i | 0 <= i < |Kids(v)|
      ensures NestedShape(kids[i]) == ShapeOf(Kids(v)[i])
    {
      NestKidAt(v, id, reading, |Kids(v)|, i);
      NestKeepsShape(Kids(v)[i], ChildId(id, i), reading);
    }
  }

  /** Flattening loses nothing: from the assembled list, following the page
      node's only child id rebuilds the whole projection. */
  lemma FlatteningIsLossless(v: Value, url: string, rootId: string, reading: Reading)
    requires !Under(rootId, DOM_ROOT)
    ensures var nodes := [PageNode(rootId, url, reading.generation)] + PostOrder(v, DOM_ROOT, reading);
            && nodes[0].children == [DOM_ROOT]
            && Position(nodes, DOM_ROOT) == |nodes| - 1
            && Rebuild(nodes, |nodes| - 1) == Nest(v, DOM_ROOT, reading)
            && NestedShape(Rebuild(nodes, |nodes| - 1)) == ShapeOf(v)
  {
    var dom := PostOrder(v, DOM_ROOT, reading);
    var nodes := [PageNode(rootId, url, reading.generation)] + dom;
    AssembledIdsUnique(v, url, rootId, reading);
    assert nodes[1..1 + |dom|] == dom;
    RebuildPart(nodes, 1, v, DOM_ROOT, reading);
    NestKeepsShape(v, DOM_ROOT, reading);
  }

  // ------------------------------------------------------- what the nodes show

  predicate ShowsFlag(v: Value, field: string, default: bool, shown: bool) {
    if v.Object? && field in v.fields && v.fields[field].Bool? then shown == v.fields[field].b else shown == default
  }

  predicate HasNumber(v: Value, field: string, n: real) {
    v.Object? && field in v.fields && v.fields[field] == Number(n)
  }

  /** The element carries a rectangle with these four numbers. */
  predicate HasRect(v: Value, g: Geometry) {
    v.Object? && "rect" in v.fields &&
    var rect := v.fields["rect"];
    HasNumber(rect, "x", g.x) && HasNumber(rect, "y", g.y) && HasNumber(rect, "width", g.width)
    && HasNumber(rect, "height", g.height)
  }

  ghost predicate ShowsLook(v: Value, look: Look) {
    && ShowsContent(v, look.content)
    && ShowsFlag(v, "visible", true, look.visible) && ShowsFlag(v, "disabled", false, !look.enabled)
    && ShowsFlag(v, "focused", false, look.focused)
    && (forall g :: look.geometry == Some(g) <==> HasRect(v, g))
    && (forall s :: look.origin == Some(s) <==> v.Object? && "origin" in v.fields && v.fields["origin"] == Str(s))
  }

  /** The node `node` with path id `id` shows the element `v`. */
  ghost predicate Shows(node: AgentNode, v: Value, id: string, generation: nat) {
    && node.id == id && node.generation == generation && ShowsLook(v, node.look)
    && (forall s | Holds(v, "id", s) :: node.identityKey == Some(s))
    && (Lacks(v, "id") ==> node.identityKey == Some(id))
  }

  lemma GeometryIsShown(v: Value)
    ensures forall g :: GeometryField(v) == Some(g) <==> HasRect(v, g)
  {
  }

  lemma LookIsShown(v: Value)
    ensures ShowsLook(v, LookOf(v))
  {
    ContentIsShown(v);
    GeometryIsShown(v);
  }

  lemma NodeIsShown(v: Value, id: string, generation: nat, children: seq<string>)
    ensures Shows(NodeWith(v, id, LiveReading(generation), children), v, id, generation)
  {
    LookIsShown(v);
    TextFieldIs(v, "id");
  }

  /** The child elements of an element. */
  predicate HasChildren(v: Value, kids: seq<Value>) {
    v.Object? && "children" in v.fields && v.fields["children"] == Array(kids)
  }

  /** A nested tree shows an element tree: node over element, child over child in
      order, with path ids made of the child's index. */
  ghost predicate ShowsTree(t: Nested, v: Value, id: string, generation: nat)
    decreases v
  {
    && Shows(t.node, v, id, generation)
    && |t.children| == |Kids(v)| == |t.node.children|
    && forall i | 0 <= i < |t.children| ::
         && t.node.children[i] == id + "/" + Numeral(i)
         && ShowsTree(t.children[i], Kids(v)[i], id + "/" + Numeral(i), generation)
  }

  lemma {:induction false} NestShows(v: Value, id: string, generation: nat)
    ensures ShowsTree(Nest(v, id, LiveReading(generation)), v, id, generation)
    decreases v
  {
    var reading := LiveReading(generation);
    var t := Nest(v, id, reading);
    NodeIsShown(v, id, generation, ChildIds(id, |Kids(v)|));
    NestKidsCount(v, id, reading, |Kids(v)|);
    forall i | 0 <= i < |t.children|
      ensures t.node.children[i] == id + "/" + Numeral(i)
      ensures ShowsTree(t.children[i], Kids(v)[i], id + "/" + Numeral(i), generation)
    {
      ChildIdAt(id, |Kids(v)|, i);
      NestKidAt(v, id, reading, |Kids(v)|, i);
      NestShows(Kids(v)[i], id + "/" + Numeral(i), generation);
    }
  }

  /** What an agent rebuilds from the assembled list shows the whole projection:
      at every depth each node has the role, name, value, state, geometry and key
      of its element. */
  lemma RebuiltShowsProjection(v: Value, url: string, rootId: string, generation: nat)
    requires !Under(rootId, DOM_ROOT)
    ensures var nodes := [PageNode(rootId, url, generation)] + PostOrder(v, DOM_ROOT, LiveReading(generation));
            && Position(nodes, nodes[0].children[0]) == |nodes| - 1
            && ShowsTree(Rebuild(nodes, |nodes| - 1), v, "dom:0", generation)
  {
    FlatteningIsLossless(v, url, rootId, LiveReading(generation));
    NestShows(v, DOM_ROOT, generation);
  }

  /** The page node in front shows the page. */
  lemma PageIsShown(rootId: string, url: string, generation: nat)
    ensures var page := PageNode(rootId, url, generation);
            && page.id == rootId && page.generation == generation && page.identityKey == Some("page")
            && page.children == ["dom:0"]
            && page.look.content.role == Page && page.look.content.name == Some(url)
            && page.look.content.value.None? && page.look.content.actions == []
            && page.look.visible && page.look.enabled && !page.look.focused
            && page.look.origin.None? && page.look.geometry.None?
  {
  }

  // -------------------------------------------------------------------- faults

  /** Every element is an object with a list of children. */
  ghost predicate WellFormed(v: Value) {
    exists kids :: HasChildren(v, kids) && forall i | 0 <= i < |kids| :: kids[i] < v && WellFormed(kids[i])
  }

  lemma KidsAre(v: Value, kids: seq<Value>)
    requires HasChildren(v, kids)
    ensures Kids(v) == kids
  {
  }

  lemma {:induction false} FaultAmongIff(v: Value, n: nat)
    requires n <= |Kids(v)|
    ensures FaultAmong(v, n).None? <==> forall i | 0 <= i < n :: Fault(Kids(v)[i]).None?
  {
    if n == 0 {
    } else {
      FaultAmongIff(v, n - 1);
    }
  }

  /** A projection is refused exactly if some element is malformed. */
  lemma {:induction false} FaultIffMalformed(v: Value)
    ensures Fault(v).None? <==> WellFormed(v)
    decreases v
  {
    if v.Object? && Field(v, "children").Some? && Field(v, "children").value.Array? {
      assert HasChildren(v, Kids(v));
      FaultAmongIff(v, |Kids(v)|);
      forall i | 0 <= i < |Kids(v)|
        ensures Fault(Kids(v)[i]).None? <==> WellFormed(Kids(v)[i])
      {
        FaultIffMalformed(Kids(v)[i]);
      }
    }
  }

  /** The refusal names the first malformed element in document order: not an
      object, or without children. */
  lemma FirstFaultIsReported(v: Value)
    ensures !v.Object? ==> Fault(v) == Some(NotAnObject)
    ensures v.Object? && (forall kids :: !HasChildren(v, kids)) ==> Fault(v) == Some(OmittedChildren)
    ensures forall kids, i: nat |
              && HasChildren(v, kids) && i < |kids| && Fault(kids[i]).Some?
              && (forall j | 0 <= j < i :: Fault(kids[j]).None?) ::
                Fault(v) == Fault(kids[i])
  {
    if v.Object? && forall kids :: !HasChildren(v, kids) {
      if Field(v, "children").Some? && Field(v, "children").value.Array? {
        assert HasChildren(v, Field(v, "children").value.items);
      }
    }
    forall kids, i: nat |
      && HasChildren(v, kids) && i < |kids| && Fault(kids[i]).Some?
      && (forall j | 0 <= j < i :: Fault(kids[j]).None?)
      ensures Fault(v) == Fault(kids[i])
    {
      KidsAre(v, kids);
      FaultAmongIff(v, i);
      FaultSpreads(v, i, |kids|);
    }
  }
}
