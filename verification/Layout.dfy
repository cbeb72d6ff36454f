/** Layout snapshots: hit testing, dirty regions and the compositor's paint order. */
module Layout {
  import opened Common
  import opened Sorting

  datatype Rect = Rect(x: real, y: real, width: real, height: real)

  predicate Contains(r: Rect, x: real, y: real) {
    x >= r.x && y >= r.y && x < r.x + r.width && y < r.y + r.height
  }

  /** One of the regions holds the point. */
  predicate Covered(regions: seq<Rect>, x: real, y: real) {
    exists i :: 0 <= i < |regions| && Contains(regions[i], x, y)
  }

  datatype LayoutBox = LayoutBox(
    nodeId: nat, rect: Rect, visible: bool, clipped: bool, zIndex: int, pointerEvents: bool, disabled: bool)

  datatype Snapshot = Snapshot(
    generation: nat, viewport: Rect, boxes: map<nat, LayoutBox>, dirty: seq<Rect>, hitRegions: map<nat, seq<Rect>>)

  function NewSnapshot(viewport: Rect): Snapshot {
    Snapshot(0, viewport, map[], [], map[])
  }

  /** Boxes are stored under their own node id. */
  predicate Keyed(s: Snapshot) {
    forall n | n in s.boxes :: s.boxes[n].nodeId == n
  }

  /** The stored boxes, in the order the map lists them. */
  ghost function BoxesAt(s: Snapshot, keys: seq<nat>): (r: seq<LayoutBox>)
    requires forall i | 0 <= i < |keys| :: keys[i] in s.boxes
    ensures |r| == |keys| && forall i | 0 <= i < |r| :: r[i] == s.boxes[keys[i]]
  {
    if keys == [] then [] else BoxesAt(s, keys[..|keys| - 1]) + [s.boxes[keys[|keys| - 1]]]
  }

  ghost function AllBoxes(s: Snapshot): seq<LayoutBox> {
    BoxesAt(s, Enumerate(s.boxes.Keys))
  }

  /** Every box is listed, and listed once. */
  lemma AllBoxesKeyed(s: Snapshot)
    requires Keyed(s)
    ensures forall box :: box in AllBoxes(s) <==> box.nodeId in s.boxes && s.boxes[box.nodeId] == box
    ensures Distinct(AllBoxes(s))
  {
    EnumerateDistinct(s.boxes.Keys);
    BoxesDistinct(s, Enumerate(s.boxes.Keys), AllBoxes(s));
    forall box: LayoutBox | box.nodeId in s.boxes && s.boxes[box.nodeId] == box
      ensures box in AllBoxes(s)
    {
      BoxListed(s, Enumerate(s.boxes.Keys), AllBoxes(s), box.nodeId);
    }
  }

  lemma BoxesDistinct(s: Snapshot, keys: seq<nat>, boxes: seq<LayoutBox>)
    requires Keyed(s) && Distinct(keys) && |boxes| == |keys|
    requires forall i | 0 <= i < |keys| :: keys[i] in s.boxes && boxes[i] == s.boxes[keys[i]]
    ensures Distinct(boxes)
  {
    assert forall i | 0 <= i < |boxes| :: boxes[i].nodeId == keys[i];
  }

  lemma BoxListed(s: Snapshot, keys: seq<nat>, boxes: seq<LayoutBox>, n: nat)
    requires n in keys && |boxes| == |keys|
    requires forall i | 0 <= i < |keys| :: keys[i] in s.boxes && boxes[i] == s.boxes[keys[i]]
    ensures s.boxes[n] in boxes
  {
    var i :| 0 <= i < |keys| && keys[i] == n;
    assert boxes[i] == s.boxes[n];
  }

  // ------------------------------------------------------------- hit testing

  /** The box takes a hit at the point. */
  predicate TakesHit(s: Snapshot, box: LayoutBox, x: real, y: real) {
    && box.visible && !box.clipped && box.pointerEvents && !box.disabled
    && Contains(box.rect, x, y)
    && (box.nodeId in s.hitRegions ==> s.hitRegions[box.nodeId] == [] || Covered(s.hitRegions[box.nodeId], x, y))
  }

  predicate Accepts(s: Snapshot, n: nat, x: real, y: real) {
    n in s.boxes && TakesHit(s, s.boxes[n], x, y)
  }

  /** The point is not cut off by the viewport. */
  predicate InView(s: Snapshot, x: real, y: real) {
    s.viewport.width > 0.0 && s.viewport.height > 0.0 ==> Contains(s.viewport, x, y)
  }

  /** Paint and hit order: by z-index, then by node id. */
  predicate Under(za: int, a: nat, zb: int, b: nat) {
    za < zb || (za == zb && a <= b)
  }

  /** The topmost box taking the hit among the listed ones; on equal keys the
      later one is kept, as `max_by_key` does. */
  ghost function Topmost(s: Snapshot, boxes: seq<LayoutBox>, x: real, y: real): (r: Option<LayoutBox>)
    ensures r.None? <==> forall box | box in boxes :: !TakesHit(s, box, x, y)
    ensures r.Some? ==> r.value in boxes && TakesHit(s, r.value, x, y)
    ensures r.Some? ==> forall box | box in boxes && TakesHit(s, box, x, y) ::
                          Under(box.zIndex, box.nodeId, r.value.zIndex, r.value.nodeId)
  {
    if boxes == [] then None
    else
      var front, last := boxes[..|boxes| - 1], boxes[|boxes| - 1];
      assert boxes == front + [last];
      var best := Topmost(s, front, x, y);
      if !TakesHit(s, last, x, y) then best
      else if best.None? || Under(best.value.zIndex, best.value.nodeId, last.zIndex, last.nodeId) then Some(last)
      else best
  }

  /** The node hit at a point. */
  ghost function HitTest(s: Snapshot, x: real, y: real): Option<nat> {
    if !InView(s, x, y) then None
    else match Topmost(s, AllBoxes(s), x, y)
      case None => None
      case Some(box) => Some(box.nodeId)
  }

  /** `n` accepts the point and lies above every other accepting box. */
  ghost predicate IsTop(s: Snapshot, n: nat, x: real, y: real) {
    && Accepts(s, n, x, y)
    && forall m | Accepts(s, m, x, y) :: Under(s.boxes[m].zIndex, m, s.boxes[n].zIndex, n)
  }

  /** Hit testing returns the one topmost accepting box, and none only when no
      box accepts the point. */
  lemma {:induction false} HitTestIsTop(s: Snapshot, x: real, y: real)
    requires Keyed(s) && InView(s, x, y)
    ensures HitTest(s, x, y).None? <==> forall m :: !Accepts(s, m, x, y)
    ensures forall n: nat :: HitTest(s, x, y) == Some(n) <==> IsTop(s, n, x, y)
  {
    AllBoxesKeyed(s);
    TopmostIsTop(s, AllBoxes(s), x, y);
    if HitTest(s, x, y).Some? {
      forall n | IsTop(s, n, x, y)
        ensures n == HitTest(s, x, y).value
      {
        OneTop(s, n, HitTest(s, x, y).value, x, y);
      }
    }
  }

  lemma TopmostIsTop(s: Snapshot, boxes: seq<LayoutBox>, x: real, y: real)
    requires Keyed(s)
    requires forall box :: box in boxes <==> box.nodeId in s.boxes && s.boxes[box.nodeId] == box
    ensures var top := Topmost(s, boxes, x, y);
            if top.None? then forall m :: !Accepts(s, m, x, y) else IsTop(s, top.value.nodeId, x, y)
  {
    forall m | Accepts(s, m, x, y)
      ensures s.boxes[m] in boxes
    {
    }
  }

  lemma OneTop(s: Snapshot, n: nat, m: nat, x: real, y: real)
    requires IsTop(s, n, x, y) && IsTop(s, m, x, y)
    ensures n == m
  {
    assert Accepts(s, n, x, y) && Accepts(s, m, x, y);
  }

  /** The hit in plain terms: an enabled, visible box that holds the point in its
      rectangle and, if it has hit regions, in one of them; and no such box has a
      higher z-index, or the same one and a greater id. */
  lemma HitExplained(s: Snapshot, x: real, y: real)
    requires Keyed(s)
    ensures !InSight(s, x, y) ==> HitTest(s, x, y).None?
    ensures InSight(s, x, y) ==>
              (HitTest(s, x, y).None? <==> forall m | m in s.boxes :: !Reacts(s.boxes[m], RegionsOf(s, m), x, y))
    ensures HitTest(s, x, y).Some? ==>
              var n := HitTest(s, x, y).value;
              && n in s.boxes && Reacts(s.boxes[n], RegionsOf(s, n), x, y)
              && forall m | m in s.boxes && m != n && Reacts(s.boxes[m], RegionsOf(s, m), x, y) ::
                   || s.boxes[m].zIndex < s.boxes[n].zIndex
                   || (s.boxes[m].zIndex == s.boxes[n].zIndex && m < n)
  {
    forall m | m in s.boxes
      ensures Accepts(s, m, x, y) <==> Reacts(s.boxes[m], RegionsOf(s, m), x, y)
    {
      AcceptsIsReacts(s, m, x, y);
    }
    if InView(s, x, y) {
      HitTestIsTop(s, x, y);
    }
  }

  lemma AcceptsIsReacts(s: Snapshot, n: nat, x: real, y: real)
    requires Keyed(s) && n in s.boxes
    ensures Accepts(s, n, x, y) <==> Reacts(s.boxes[n], RegionsOf(s, n), x, y)
  {
    if n in s.hitRegions {
      var regions := s.hitRegions[n];
      assert regions == [] <==> RegionsOf(s, n) == {} by {
        if regions != [] {
          assert regions[0] in RegionsOf(s, n);
        }
      }
      if Covered(regions, x, y) {
        var i :| 0 <= i < |regions| && Contains(regions[i], x, y);
        assert regions[i] in RegionsOf(s, n) && Inside(regions[i], x, y);
      }
    }
  }

  /** The viewport has no area or holds the point. */
  predicate InSight(s: Snapshot, x: real, y: real) {
    || s.viewport.width <= 0.0 || s.viewport.height <= 0.0
    || (s.viewport.x <= x < s.viewport.x + s.viewport.width && s.viewport.y <= y < s.viewport.y + s.viewport.height)
  }

  /** The hit regions set for a node; none restrict nothing. */
  function RegionsOf(s: Snapshot, n: nat): set<Rect> {
    if n in s.hitRegions then set r | r in s.hitRegions[n] else {}
  }

  predicate Inside(r: Rect, x: real, y: real) {
    r.x <= x < r.x + r.width && r.y <= y < r.y + r.height
  }

  predicate Reacts(box: LayoutBox, regions: set<Rect>, x: real, y: real) {
    && box.visible && box.pointerEvents && !(box.clipped || box.disabled) && Inside(box.rect, x, y)
    && (regions == {} || exists r :: r in regions && Inside(r, x, y))
  }

  /** If the same boxes accept the point with the same order, the hit is the same. */
  lemma SameHit(s: Snapshot, t: Snapshot, x: real, y: real)
    requires Keyed(s) && Keyed(t) && s.viewport == t.viewport
    requires forall n :: Accepts(s, n, x, y) <==> Accepts(t, n, x, y)
    requires forall n | Accepts(s, n, x, y) :: n in t.boxes && s.boxes[n].zIndex == t.boxes[n].zIndex
    ensures HitTest(s, x, y) == HitTest(t, x, y)
  {
    if InView(s, x, y) {
      HitTestIsTop(s, x, y);
      HitTestIsTop(t, x, y);
      forall n
        ensures IsTop(s, n, x, y) <==> IsTop(t, n, x, y)
      {
      }
    }
  }

  // ----------------------------------------------------------- dirty regions

  datatype Op =
    | Insert(box: LayoutBox)
    | Remove(node: nat)
    | Invalidate(node: nat)
    | SetFacts(node: nat, regions: seq<Rect>)
    | Drain

  /** The regions one operation records. */
  function Records(s: Snapshot, op: Op): seq<Rect> {
    match op
    case Insert(box) => (if box.nodeId in s.boxes then [s.boxes[box.nodeId].rect] else []) + [box.rect]
    case Remove(n) => if n in s.boxes then [s.boxes[n].rect] else []
    case Invalidate(n) => if n in s.boxes then [s.boxes[n].rect] else []
    case SetFacts(_, _) => []
    case Drain => []
  }

  function After(s: Snapshot, op: Op): Snapshot {
    match op
    case Insert(box) =>
      s.(boxes := s.boxes[box.nodeId := box], dirty := s.dirty + Records(s, op), generation := s.generation + 1)
    case Remove(n) =>
      if n !in s.boxes then s
      else s.(boxes := s.boxes - {n}, dirty := s.dirty + Records(s, op), generation := s.generation + 1)
    case Invalidate(n) => s.(dirty := s.dirty + Records(s, op))
    case SetFacts(n, regions) => s.(hitRegions := s.hitRegions[n := regions], generation := s.generation + 1)
    case Drain => s.(dirty := [])
  }

  function Run(s: Snapshot, ops: seq<Op>): Snapshot {
    if ops == [] then s else After(Run(s, ops[..|ops| - 1]), ops[|ops| - 1])
  }

  /** The regions recorded along a run, drained or not. */
  function Recorded(s: Snapshot, ops: seq<Op>): seq<Rect> {
    if ops == [] then []
    else Recorded(s, ops[..|ops| - 1]) + Records(Run(s, ops[..|ops| - 1]), ops[|ops| - 1])
  }

  /** The regions handed out by the drains of a run. */
  function Handed(s: Snapshot, ops: seq<Op>): seq<Rect> {
    if ops == [] then []
    else
      var t := Run(s, ops[..|ops| - 1]);
      Handed(s, ops[..|ops| - 1]) + if ops[|ops| - 1].Drain? then t.dirty else []
  }

  /** Drains lose nothing: what was handed out and what is left is what was there
      and what was recorded, in order. */
  lemma {:induction false} DrainsLoseNothing(s: Snapshot, ops: seq<Op>)
    ensures Handed(s, ops) + Run(s, ops).dirty == s.dirty + Recorded(s, ops)
  {
    if ops == [] {
    } else {
      var front, op := ops[..|ops| - 1], ops[|ops| - 1];
      var t := Run(s, front);
      DrainsLoseNothing(s, front);
      JoinMore(Handed(s, front), t.dirty, s.dirty, Recorded(s, front), Records(t, op));
      assert After(t, op).dirty == if op.Drain? then [] else t.dirty + Records(t, op);
    }
  }

  lemma JoinMore(handed: seq<Rect>, dirty: seq<Rect>, base: seq<Rect>, recorded: seq<Rect>, more: seq<Rect>)
    requires handed + dirty == base + recorded
    ensures handed + [] + (dirty + more) == base + (recorded + more)
    ensures handed + dirty + [] == base + (recorded + [])
  {
    assert handed + [] + (dirty + more) == handed + dirty + more;
    assert base + (recorded + more) == base + recorded + more;
  }

  /** The nodes whose facts were set and which were not inserted, removed or
      invalidated afterwards. */
  function Unsettled(ops: seq<Op>): set<nat> {
    if ops == [] then {}
    else
      var rest := Unsettled(ops[..|ops| - 1]);
      match ops[|ops| - 1]
      case Insert(box) => rest - {box.nodeId}
      case Remove(n) => rest - {n}
      case Invalidate(n) => rest - {n}
      case SetFacts(n, _) => rest + {n}
      case Drain => rest
  }

  lemma {:induction false} RunKeepsKeyed(s: Snapshot, ops: seq<Op>)
    requires Keyed(s)
    ensures Keyed(Run(s, ops)) && Run(s, ops).viewport == s.viewport
  {
    if ops == [] {
    } else {
      RunKeepsKeyed(s, ops[..|ops| - 1]);
    }
  }

  // ------------------------------------------------------- what a run leaves

  /** The operation inserts or removes box `n`. */
  predicate Touches(op: Op, n: nat) {
    (op.Insert? && op.box.nodeId == n) || (op.Remove? && op.node == n)
  }

  predicate SetsFacts(op: Op, n: nat) {
    op.SetFacts? && op.node == n
  }

  /** Operation `i` is the last one that inserts or removes box `n`. */
  ghost predicate LastTouch(ops: seq<Op>, i: nat, n: nat) {
    i < |ops| && Touches(ops[i], n) && forall j | i < j < |ops| :: !Touches(ops[j], n)
  }

  ghost predicate LastFacts(ops: seq<Op>, i: nat, n: nat) {
    i < |ops| && SetsFacts(ops[i], n) && forall j | i < j < |ops| :: !SetsFacts(ops[j], n)
  }

  lemma StepBox(s: Snapshot, op: Op, n: nat)
    ensures !Touches(op, n) ==> SameBox(s, After(s, op), n)
    ensures op.Insert? && op.box.nodeId == n ==> n in After(s, op).boxes && After(s, op).boxes[n] == op.box
    ensures op.Remove? && op.node == n ==> n !in After(s, op).boxes
    ensures !SetsFacts(op, n) ==> SameFacts(s, After(s, op), n)
    ensures SetsFacts(op, n) ==> n in After(s, op).hitRegions && After(s, op).hitRegions[n] == op.regions
  {
  }

  lemma {:induction false} UntouchedStays(s: Snapshot, ops: seq<Op>, n: nat)
    ensures (forall j | 0 <= j < |ops| :: !Touches(ops[j], n)) ==> SameBox(s, Run(s, ops), n)
    ensures (forall j | 0 <= j < |ops| :: !SetsFacts(ops[j], n)) ==> SameFacts(s, Run(s, ops), n)
  {
    if ops == [] {
    } else {
      UntouchedStays(s, ops[..|ops| - 1], n);
      StepBox(Run(s, ops[..|ops| - 1]), ops[|ops| - 1], n);
    }
  }

  /** After any run a box is there exactly if its last insert or removal was an
      insert, and is then the inserted one. */
  lemma {:induction false} LastTouchDecides(s: Snapshot, ops: seq<Op>, i: nat, n: nat)
    requires LastTouch(ops, i, n)
    ensures n in Run(s, ops).boxes <==> ops[i].Insert?
    ensures ops[i].Insert? ==> Run(s, ops).boxes[n] == ops[i].box
  {
    StepBox(Run(s, ops[..|ops| - 1]), ops[|ops| - 1], n);
    if i == |ops| - 1 {
    } else {
      assert !Touches(ops[|ops| - 1], n) && LastTouch(ops[..|ops| - 1], i, n);
      LastTouchDecides(s, ops[..|ops| - 1], i, n);
    }
  }

  /** After any run a node has the hit regions of its last facts change. */
  lemma {:induction false} LastFactsDecide(s: Snapshot, ops: seq<Op>, i: nat, n: nat)
    requires LastFacts(ops, i, n)
    ensures n in Run(s, ops).hitRegions && Run(s, ops).hitRegions[n] == ops[i].regions
  {
    StepBox(Run(s, ops[..|ops| - 1]), ops[|ops| - 1], n);
    if i == |ops| - 1 {
    } else {
      assert !SetsFacts(ops[|ops| - 1], n) && LastFacts(ops[..|ops| - 1], i, n);
      LastFactsDecide(s, ops[..|ops| - 1], i, n);
    }
  }

  /** A removed node is not hit anywhere until it is inserted again. */
  lemma RemovedIsNeverHit(s: Snapshot, ops: seq<Op>, i: nat, n: nat, x: real, y: real)
    requires Keyed(s) && LastTouch(ops, i, n) && ops[i].Remove?
    ensures HitTest(Run(s, ops), x, y) != Some(n)
  {
    RunKeepsKeyed(s, ops);
    LastTouchDecides(s, ops, i, n);
    if InView(Run(s, ops), x, y) {
      HitTestIsTop(Run(s, ops), x, y);
    }
  }

  // ------------------------------------------------------------- soundness

  /** Box `m` does not hold the point. */
  predicate Misses(s: Snapshot, m: nat, x: real, y: real) {
    m in s.boxes ==> !Contains(s.boxes[m].rect, x, y)
  }

  predicate SameBox(s: Snapshot, t: Snapshot, m: nat) {
    (m in s.boxes <==> m in t.boxes) && (m in s.boxes ==> s.boxes[m] == t.boxes[m])
  }

  predicate SameFacts(s: Snapshot, t: Snapshot, m: nat) {
    (m in s.hitRegions <==> m in t.hitRegions) && (m in s.hitRegions ==> s.hitRegions[m] == t.hitRegions[m])
  }

  /** What a run that recorded nothing at the point has done to box `m`. */
  predicate Tracked(s: Snapshot, t: Snapshot, unsettled: set<nat>, m: nat, x: real, y: real) {
    || (Misses(s, m, x, y) && Misses(t, m, x, y))
    || (SameBox(s, t, m) && (m in unsettled || SameFacts(s, t, m)))
  }

  lemma UncoveredJoin(a: seq<Rect>, b: seq<Rect>, x: real, y: real)
    requires !Covered(a + b, x, y)
    ensures !Covered(a, x, y) && !Covered(b, x, y)
  {
    forall i | 0 <= i < |a|
      ensures !Contains(a[i], x, y)
    {
      assert (a + b)[i] == a[i];
    }
    forall i | 0 <= i < |b|
      ensures !Contains(b[i], x, y)
    {
      assert (a + b)[|a| + i] == b[i];
    }
  }

  /** An operation that records nothing at the point leaves the boxes it replaces,
      removes or invalidates away from the point. */
  lemma UncoveredStep(t: Snapshot, op: Op, x: real, y: real)
    requires (op.Insert? || op.Remove? || op.Invalidate?) && !Covered(Records(t, op), x, y)
    ensures var n := if op.Insert? then op.box.nodeId else op.node;
            Misses(t, n, x, y) && Misses(After(t, op), n, x, y)
  {
    var n, regions := if op.Insert? then op.box.nodeId else op.node, Records(t, op);
    if n in t.boxes {
      assert regions[0] == t.boxes[n].rect;
    }
    if op.Insert? {
      assert regions[|regions| - 1] == op.box.rect;
    }
  }

  lemma {:induction false} RunTracks(s: Snapshot, ops: seq<Op>, m: nat, x: real, y: real)
    requires !Covered(Recorded(s, ops), x, y)
    ensures Tracked(s, Run(s, ops), Unsettled(ops), m, x, y)
  {
    if ops == [] {
    } else {
      var front, op := ops[..|ops| - 1], ops[|ops| - 1];
      UncoveredJoin(Recorded(s, front), Records(Run(s, front), op), x, y);
      RunTracks(s, front, m, x, y);
      if op.Insert? || op.Remove? || op.Invalidate? {
        UncoveredStep(Run(s, front), op, x, y);
      }
    }
  }

  /** Over any run, every point whose hit changed lies in a region recorded during
      the run, or in the box of a node whose facts were set and which was neither
      replaced nor invalidated afterwards. */
  lemma {:induction false} DirtyRegionsSound(s: Snapshot, ops: seq<Op>, x: real, y: real)
    requires Keyed(s)
    ensures var t := Run(s, ops);
            HitTest(t, x, y) != HitTest(s, x, y) ==>
              || Covered(Recorded(s, ops), x, y)
              || exists n :: n in Unsettled(ops) && n in t.boxes && Contains(t.boxes[n].rect, x, y)
  {
    var t := Run(s, ops);
    RunKeepsKeyed(s, ops);
    if !Covered(Recorded(s, ops), x, y) && forall n | n in Unsettled(ops) :: Misses(t, n, x, y) {
      forall m
        ensures Accepts(s, m, x, y) <==> Accepts(t, m, x, y)
        ensures Accepts(s, m, x, y) ==> m in t.boxes && s.boxes[m].zIndex == t.boxes[m].zIndex
      {
        RunTracks(s, ops, m, x, y);
      }
      SameHit(s, t, x, y);
    }
  }

  /** In particular the recorded regions suffice once every facts change has been
      followed up, and always for runs without facts changes. */
  lemma {:induction false} SettledRunsAreCovered(s: Snapshot, ops: seq<Op>, x: real, y: real)
    requires Keyed(s) && Unsettled(ops) == {}
    ensures HitTest(Run(s, ops), x, y) != HitTest(s, x, y) ==> Covered(Recorded(s, ops), x, y)
  {
    DirtyRegionsSound(s, ops, x, y);
  }

  lemma NoFactsRunsAreCovered(s: Snapshot, ops: seq<Op>, x: real, y: real)
    requires Keyed(s) && forall i | 0 <= i < |ops| :: !ops[i].SetFacts?
    ensures HitTest(Run(s, ops), x, y) != HitTest(s, x, y) ==> Covered(Recorded(s, ops), x, y)
  {
    NoFactsNothingUnsettled(ops);
    SettledRunsAreCovered(s, ops, x, y);
  }

  lemma {:induction false} NoFactsNothingUnsettled(ops: seq<Op>)
    requires forall i | 0 <= i < |ops| :: !ops[i].SetFacts?
    ensures Unsettled(ops) == {}
  {
    if ops == [] {
    } else {
      NoFactsNothingUnsettled(ops[..|ops| - 1]);
    }
  }

  /** A facts change moves the hit at a point exactly when the node starts or
      stops accepting it while lying above every other accepting box. */
  lemma FactsMoveHitIff(s: Snapshot, n: nat, regions: seq<Rect>, x: real, y: real)
    requires Keyed(s)
    ensures var u := After(s, SetFacts(n, regions));
            HitTest(u, x, y) != HitTest(s, x, y) <==>
              && InView(s, x, y) && n in s.boxes
              && Accepts(s, n, x, y) != Accepts(u, n, x, y)
              && AboveOthers(s, n, x, y)
  {
    var u := After(s, SetFacts(n, regions));
    assert forall m | m != n :: Accepts(s, m, x, y) <==> Accepts(u, m, x, y);
    if Accepts(s, n, x, y) == Accepts(u, n, x, y) {
      SameHit(s, u, x, y);
    } else if InView(s, x, y) {
      if Accepts(s, n, x, y) {
        BoxMovesHitIff(s, u, n, x, y);
      } else {
        BoxMovesHitIff(u, s, n, x, y);
      }
    }
  }

  /** Every other box accepting the point lies under box `n`. */
  ghost predicate AboveOthers(s: Snapshot, n: nat, x: real, y: real)
    requires n in s.boxes
  {
    forall m | m != n && Accepts(s, m, x, y) :: Under(s.boxes[m].zIndex, m, s.boxes[n].zIndex, n)
  }

  /** Two snapshots that differ in one accepting box hit the same unless that box
      lies above the others. */
  lemma BoxMovesHitIff(with: Snapshot, bare: Snapshot, n: nat, x: real, y: real)
    requires Keyed(with) && Keyed(bare) && InView(with, x, y) && with.viewport == bare.viewport
    requires with.boxes == bare.boxes && Accepts(with, n, x, y) && !Accepts(bare, n, x, y)
    requires forall m | m != n :: Accepts(with, m, x, y) <==> Accepts(bare, m, x, y)
    ensures HitTest(with, x, y) != HitTest(bare, x, y) <==> AboveOthers(bare, n, x, y)
    ensures AboveOthers(with, n, x, y) <==> AboveOthers(bare, n, x, y)
  {
    if AboveOthers(with, n, x, y) {
      assert IsTop(with, n, x, y);
      HitTestIsTop(with, x, y);
      HitTestIsTop(bare, x, y);
    } else {
      SameTopBeside(with, bare, n, x, y);
    }
  }

  /** Dropping an accepting box that is not on top leaves the top where it is. */
  lemma SameTopBeside(with: Snapshot, bare: Snapshot, n: nat, x: real, y: real)
    requires Keyed(with) && Keyed(bare) && InView(with, x, y) && with.viewport == bare.viewport
    requires with.boxes == bare.boxes && Accepts(with, n, x, y) && !Accepts(bare, n, x, y)
    requires forall m | m != n :: Accepts(with, m, x, y) <==> Accepts(bare, m, x, y)
    requires !IsTop(with, n, x, y)
    ensures HitTest(with, x, y) == HitTest(bare, x, y)
  {
    HitTestIsTop(with, x, y);
    HitTestIsTop(bare, x, y);
    var top := HitTest(with, x, y);
    assert IsTop(with, top.value, x, y);
    assert IsTop(bare, top.value, x, y);
  }

  /** An inserted and drained snapshot on which a facts change moves a hit while
      nothing is recorded. */
  lemma FactsAloneAreNotRecorded(viewport: Rect, ops: seq<Op>)
    requires viewport == Rect(0.0, 0.0, 0.0, 0.0)
    requires ops == [Insert(LayoutBox(1, Rect(0.0, 0.0, 10.0, 10.0), true, false, 0, true, false)), Drain]
    ensures var s := Run(NewSnapshot(viewport), ops);
            var facts := SetFacts(1, [Rect(5.0, 5.0, 1.0, 1.0)]);
            && HitTest(After(s, facts), 0.0, 0.0) != HitTest(s, 0.0, 0.0)
            && After(s, facts).dirty == s.dirty == []
  {
    assert ops[..1] == [ops[0]] && ops[..1][..0] == [];
    assert Run(NewSnapshot(viewport), ops[..1]) == After(NewSnapshot(viewport), ops[0]);
    var s, corner := Run(NewSnapshot(viewport), ops), [Rect(5.0, 5.0, 1.0, 1.0)];
    assert s == After(After(NewSnapshot(viewport), ops[0]), Drain);
    assert s.boxes == map[1 := ops[0].box];
    assert Accepts(s, 1, 0.0, 0.0);
    assert !Accepts(After(s, SetFacts(1, corner)), 1, 0.0, 0.0);
    FactsMoveHitIff(s, 1, corner, 0.0, 0.0);
  }

  // --------------------------------------------------------------- compositor

  datatype PaintCommand = PaintCommand(nodeId: nat, rect: Rect, zIndex: int)

  predicate PaintedBefore(a: PaintCommand, b: PaintCommand) {
    Under(a.zIndex, a.nodeId, b.zIndex, b.nodeId)
  }

  function CommandOf(box: LayoutBox): PaintCommand {
    PaintCommand(box.nodeId, box.rect, box.zIndex)
  }

  /** The visible, unclipped boxes as commands. */
  function Commands(boxes: seq<LayoutBox>): (r: seq<PaintCommand>)
    ensures forall c :: c in r <==> exists box :: box in boxes && box.visible && !box.clipped && CommandOf(box) == c
  {
    if boxes == [] then []
    else
      var front, last := boxes[..|boxes| - 1], boxes[|boxes| - 1];
      assert boxes == front + [last];
      Commands(front) + if last.visible && !last.clipped then [CommandOf(last)] else []
  }

  predicate IsCommand(s: Snapshot, c: PaintCommand) {
    && c.nodeId in s.boxes && s.boxes[c.nodeId].visible && !s.boxes[c.nodeId].clipped
    && c.rect == s.boxes[c.nodeId].rect && c.zIndex == s.boxes[c.nodeId].zIndex
  }

  /** Boxes of different nodes give different commands. */
  lemma {:induction false} CommandsDistinct(s: Snapshot, boxes: seq<LayoutBox>)
    requires Keyed(s) && Distinct(boxes)
    requires forall box | box in boxes :: box.nodeId in s.boxes && s.boxes[box.nodeId] == box
    ensures Distinct(Commands(boxes))
  {
    if boxes == [] {
    } else {
      var front, last := boxes[..|boxes| - 1], boxes[|boxes| - 1];
      assert boxes == front + [last];
      CommandsDistinct(s, front);
      assert last !in front;
      if last.visible && !last.clipped {
        DistinctJoin(Commands(front), [CommandOf(last)]);
      }
    }
  }

  /** No node is painted twice. */
  ghost predicate OncePerNode(commands: seq<PaintCommand>) {
    forall i, j | 0 <= i < j < |commands| :: commands[i].nodeId != commands[j].nodeId
  }

  lemma {:induction false} CommandsOfAll(s: Snapshot)
    requires Keyed(s)
    ensures Distinct(Commands(AllBoxes(s)))
    ensures forall c :: c in Commands(AllBoxes(s)) <==> IsCommand(s, c)
  {
    AllBoxesKeyed(s);
    CommandsDistinct(s, AllBoxes(s));
    forall c
      ensures c in Commands(AllBoxes(s)) <==> IsCommand(s, c)
    {
      if IsCommand(s, c) {
        assert s.boxes[c.nodeId] in AllBoxes(s);
      }
    }
  }

  /** Any order of the commands paints each box once. */
  lemma {:induction false} PaintedOnce(s: Snapshot, frame: seq<PaintCommand>)
    requires Keyed(s) && multiset(frame) == multiset(Commands(AllBoxes(s)))
    ensures OncePerNode(frame)
    ensures forall c :: c in frame <==> IsCommand(s, c)
  {
    CommandsOfAll(s);
    ReorderedDistinct(Commands(AllBoxes(s)), frame);
    forall i, j | 0 <= i < j < |frame|
      ensures frame[i].nodeId != frame[j].nodeId
    {
      assert IsCommand(s, frame[i]) && IsCommand(s, frame[j]);
    }
  }

  /** The commands of a frame in paint order: each visible, unclipped box once. */
  ghost function Compose(s: Snapshot): (r: seq<PaintCommand>)
    ensures Sorted(r, PaintedBefore)
    ensures Keyed(s) ==> OncePerNode(r) && forall c :: c in r <==> IsCommand(s, c)
  {
    assert Total(PaintedBefore);
    var frame := Sort(Commands(AllBoxes(s)), PaintedBefore);
    assert Keyed(s) ==> OncePerNode(frame) && forall c :: c in frame <==> IsCommand(s, c) by {
      if Keyed(s) {
        PaintedOnce(s, frame);
      }
    }
    frame
  }

  /** The node of the last command whose box accepts the point. */
  ghost function LastAccepting(s: Snapshot, commands: seq<PaintCommand>, x: real, y: real): Option<nat> {
    if commands == [] then None
    else
      var last := commands[|commands| - 1];
      if Accepts(s, last.nodeId, x, y) then Some(last.nodeId)
      else LastAccepting(s, commands[..|commands| - 1], x, y)
  }

  lemma {:induction false} LastAcceptingIsLast(s: Snapshot, commands: seq<PaintCommand>, x: real, y: real)
    ensures var r := LastAccepting(s, commands, x, y);
            if r.None? then forall i | 0 <= i < |commands| :: !Accepts(s, commands[i].nodeId, x, y)
            else exists k :: 0 <= k < |commands| && commands[k].nodeId == r.value && Accepts(s, r.value, x, y) &&
                             forall i | k < i < |commands| :: !Accepts(s, commands[i].nodeId, x, y)
  {
    if commands == [] {
    } else {
      LastAcceptingIsLast(s, commands[..|commands| - 1], x, y);
    }
  }

  /** What is hit is what was painted last: hit testing and the compositor agree
      at every point in view. */
  lemma {:induction false} HitIsLastPainted(s: Snapshot, x: real, y: real)
    requires Keyed(s) && InView(s, x, y)
    ensures HitTest(s, x, y) == LastAccepting(s, Compose(s), x, y)
  {
    var commands, r := Compose(s), LastAccepting(s, Compose(s), x, y);
    LastAcceptingIsLast(s, commands, x, y);
    if r.Some? {
      var k: nat :| k < |commands| && commands[k].nodeId == r.value &&
                    forall i | k < i < |commands| :: !Accepts(s, commands[i].nodeId, x, y);
      forall m | Accepts(s, m, x, y)
        ensures Under(s.boxes[m].zIndex, m, s.boxes[r.value].zIndex, r.value)
      {
        LastPaintedIsAbove(s, k, m, x, y);
      }
      assert IsTop(s, r.value, x, y);
    } else {
      forall m
        ensures !Accepts(s, m, x, y)
      {
        if Accepts(s, m, x, y) {
          var i := FrameIndex(s, m);
        }
      }
    }
    HitTestIsTop(s, x, y);
  }

  /** A visible, unclipped box has its place in the frame. */
  lemma FrameIndex(s: Snapshot, n: nat) returns (i: nat)
    requires Keyed(s) && n in s.boxes && s.boxes[n].visible && !s.boxes[n].clipped
    ensures i < |Compose(s)| && Compose(s)[i] == CommandOf(s.boxes[n])
  {
    var c := CommandOf(s.boxes[n]);
    assert IsCommand(s, c);
    assert c in Compose(s);
    i :| i < |Compose(s)| && Compose(s)[i] == c;
  }

  lemma LastPaintedIsAbove(s: Snapshot, k: nat, m: nat, x: real, y: real)
    requires Keyed(s) && k < |Compose(s)| && Accepts(s, m, x, y)
    requires forall i | k < i < |Compose(s)| :: !Accepts(s, Compose(s)[i].nodeId, x, y)
    ensures var c := Compose(s)[k];
            c.nodeId in s.boxes && Under(s.boxes[m].zIndex, m, s.boxes[c.nodeId].zIndex, c.nodeId)
  {
    var c := Compose(s)[k];
    assert IsCommand(s, c);
    var i := FrameIndex(s, m);
    assert i <= k;
    assert i == k || PaintedBefore(Compose(s)[i], c);
  }

  // ---------------------------------------------------------- implementation

  class LayoutSnapshot {
    var generation: nat
    var viewport: Rect
    var boxes: map<nat, LayoutBox>
    var dirty: seq<Rect>
    var hitRegions: map<nat, seq<Rect>>

    ghost function View(): Snapshot
      reads this
    {
      Snapshot(generation, viewport, boxes, dirty, hitRegions)
    }

    constructor (viewport: Rect)
      ensures Keyed(View()) && View() == NewSnapshot(viewport)
    {
      generation, this.viewport, boxes, dirty, hitRegions := 0, viewport, map[], [], map[];
    }

    method InsertBox(box: LayoutBox)
      modifies this
      ensures View() == After(old(View()), Insert(box))
      ensures old(Keyed(View())) ==> Keyed(View())
      ensures boxes == old(boxes)[box.nodeId := box] && hitRegions == old(hitRegions) && viewport == old(viewport)
      ensures generation == old(generation) + 1
      ensures var replaced := if box.nodeId in old(boxes) then [old(boxes)[box.nodeId].rect] else [];
              dirty == old(dirty) + replaced + [box.rect]
    {
      if box.nodeId in boxes {
        dirty := dirty + [boxes[box.nodeId].rect];
      }
      dirty := dirty + [box.rect];
      boxes := boxes[box.nodeId := box];
      generation := generation + 1;
    }

    method RemoveBox(n: nat) returns (r: Option<LayoutBox>)
      modifies this
      ensures View() == After(old(View()), Remove(n))
      ensures old(Keyed(View())) ==> Keyed(View())
      ensures r == if n in old(boxes) then Some(old(boxes)[n]) else None
      ensures boxes == old(boxes) - {n} && hitRegions == old(hitRegions) && viewport == old(viewport)
      ensures r.None? ==> View() == old(View())
      ensures r.Some? ==> generation == old(generation) + 1 && dirty == old(dirty) + [old(boxes)[n].rect]
    {
      if n !in boxes {
        return None;
      }
      r := Some(boxes[n]);
      dirty := dirty + [boxes[n].rect];
      boxes := boxes - {n};
      generation := generation + 1;
    }

    method InvalidateBox(n: nat) returns (known: bool)
      modifies this`dirty
      ensures known == (n in boxes) && View() == After(old(View()), Invalidate(n))
      ensures dirty == old(dirty) + if known then [boxes[n].rect] else []
    {
      known := n in boxes;
      if known {
        dirty := dirty + [boxes[n].rect];
      }
    }

    method SetHitRegions(n: nat, regions: seq<Rect>)
      modifies this
      ensures View() == After(old(View()), SetFacts(n, regions))
      ensures hitRegions == old(hitRegions)[n := regions] && generation == old(generation) + 1
      ensures boxes == old(boxes) && dirty == old(dirty) && viewport == old(viewport)
    {
      hitRegions := hitRegions[n := regions];
      generation := generation + 1;
    }

    method DrainDirtyRegions() returns (regions: seq<Rect>)
      modifies this`dirty
      ensures regions == old(dirty) && dirty == [] && View() == After(old(View()), Drain)
    {
      regions, dirty := dirty, [];
    }
  }
}
