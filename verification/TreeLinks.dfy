/**
 * Trees stored as a map from id to parent and child links, as the DOM observer
 * and the frame registry store them.  The laws here are about the links alone;
 * RawDocument and FrameTree apply them to their own records.
 */
module TreeLinks {
  import opened Common

  /** Engine node ids and frame ids are plain numbers here. */
  type Id = nat

  datatype Link = Link(parent: Option<Id>, children: seq<Id>)

  type Links = map<Id, Link>

  /** The node `k` parent links above `x`, if the links lead that far. */
  ghost function Climb(m: Links, x: Id, k: nat): Option<Id>
    decreases k
  {
    if x !in m then None
    else if k == 0 then Some(x)
    else match m[x].parent
      case None => None
      case Some(p) => Climb(m, p, k - 1)
  }

  /** `a` is a proper ancestor of `x`. */
  ghost predicate Below(m: Links, a: Id, x: Id) {
    exists k: nat :: k > 0 && Climb(m, x, k) == Some(a)
  }

  /** `x` is `a` or one of its descendants. */
  ghost predicate Within(m: Links, a: Id, x: Id) {
    x == a || Below(m, a, x)
  }

  ghost function Descendants(m: Links, a: Id): set<Id> {
    set x | x in m && Below(m, a, x)
  }

  /** The links of `x` agree with those of its neighbours. */
  ghost predicate Linked(m: Links, root: Option<Id>, x: Id)
    requires x in m
  {
    && (m[x].parent.None? <==> root == Some(x))
    && (m[x].parent.Some? ==> m[x].parent.value in m && x in m[m[x].parent.value].children)
    && (forall i | 0 <= i < |m[x].children| ::
          m[x].children[i] in m && m[m[x].children[i]].parent == Some(x))
    && Distinct(m[x].children)
  }

  ghost predicate ReachesRoot(m: Links, root: Option<Id>, x: Id) {
    root.Some? && exists k: nat :: Climb(m, x, k) == root
  }

  /** Parent and child links are inverse, children are listed once, and every
      node reaches the only parentless node, the root. */
  ghost predicate RootedTree(m: Links, root: Option<Id>) {
    && (root.None? <==> m == map[])
    && (root.Some? ==> root.value in m)
    && (forall x {:trigger Linked(m, root, x)} | x in m :: Linked(m, root, x))
    && (forall x {:trigger ReachesRoot(m, root, x)} | x in m :: ReachesRoot(m, root, x))
  }

  // ---------------------------------------------------------------- ancestry

  lemma {:induction false} ClimbTwice(m: Links, x: Id, j: nat, k: nat)
    requires Climb(m, x, j).Some?
    ensures Climb(m, x, j).value in m
    ensures Climb(m, x, j + k) == Climb(m, Climb(m, x, j).value, k)
    decreases j
  {
    if j == 0 {
    } else {
      ClimbTwice(m, m[x].parent.value, j - 1, k);
    }
  }

  /** The number of links between a node and one at or above it. */
  lemma Height(m: Links, a: Id, x: Id) returns (k: nat)
    requires x in m && Within(m, a, x)
    ensures Climb(m, x, k) == Some(a)
    ensures x != a ==> k > 0
  {
    if x == a {
      k := 0;
    } else {
      k :| k > 0 && Climb(m, x, k) == Some(a);
    }
  }

  /** A rooted tree has no cycle: no node is its own proper ancestor. */
  lemma NotBelowItself(m: Links, root: Option<Id>, x: Id)
    requires RootedTree(m, root) && x in m
    ensures !Below(m, x, x)
  {
    if Below(m, x, x) {
      var k: nat :| k > 0 && Climb(m, x, k) == Some(x);
      assert ReachesRoot(m, root, x);
      var d: nat :| Climb(m, x, d) == root;
      assert Linked(m, root, root.value);
      ClimbTwice(m, x, k, d);
      ClimbTwice(m, x, d, k);
    }
  }

  lemma ChildStep(m: Links, root: Option<Id>, a: Id, i: nat)
    requires RootedTree(m, root) && a in m && i < |m[a].children|
    ensures var c := m[a].children[i]; c in m && Climb(m, c, 1) == Some(a)
  {
    assert Linked(m, root, a);
    assert Climb(m, a, 0) == Some(a);
  }

  /** A node within a child is below the parent. */
  lemma BelowFromChild(m: Links, root: Option<Id>, a: Id, i: nat, x: Id)
    requires RootedTree(m, root) && a in m && i < |m[a].children|
    requires x in m && Within(m, m[a].children[i], x)
    ensures Below(m, a, x)
  {
    var j := Height(m, m[a].children[i], x);
    ChildStep(m, root, a, i);
    ClimbTwice(m, x, j, 1);
    assert Climb(m, x, j + 1) == Some(a);
  }

  /** A node below the parent is within one of the children. */
  lemma BelowToChild(m: Links, root: Option<Id>, a: Id, x: Id) returns (i: nat)
    requires RootedTree(m, root) && a in m && x in m && Below(m, a, x)
    ensures i < |m[a].children| && Within(m, m[a].children[i], x)
  {
    var k: nat :| k > 0 && Climb(m, x, k) == Some(a);
    var y := ClimbBefore(m, x, k);
    ClimbTwice(m, x, k - 1, 1);
    assert Climb(m, y, 1) == Some(a);
    assert Linked(m, root, y);
    i :| 0 <= i < |m[a].children| && m[a].children[i] == y;
    if k == 1 {
      assert x == y;
    } else {
      assert Below(m, y, x);
    }
  }

  lemma {:induction false} ClimbBefore(m: Links, x: Id, k: nat) returns (y: Id)
    requires k > 0 && Climb(m, x, k).Some?
    ensures Climb(m, x, k - 1) == Some(y) && y in m
    decreases k
  {
    if k == 1 {
      y := x;
    } else {
      y := ClimbBefore(m, m[x].parent.value, k - 1);
    }
  }

  /** Different children have disjoint subtrees. */
  lemma SiblingsDisjoint(m: Links, root: Option<Id>, a: Id, i: nat, j: nat, x: Id)
    requires RootedTree(m, root) && a in m && i < |m[a].children| && j < |m[a].children|
    requires x in m && Within(m, m[a].children[i], x) && Within(m, m[a].children[j], x)
    ensures i == j
  {
    var h := Height(m, m[a].children[i], x);
    var k := Height(m, m[a].children[j], x);
    ChildStep(m, root, a, i);
    ChildStep(m, root, a, j);
    ClimbTwice(m, x, h, 1);
    ClimbTwice(m, x, k, 1);
    SameHeight(m, root, a, x, h + 1, k + 1);
    assert Linked(m, root, a);
  }

  lemma {:induction false} SameHeight(m: Links, root: Option<Id>, a: Id, x: Id, h: nat, k: nat)
    requires RootedTree(m, root) && a in m
    requires Climb(m, x, h) == Some(a) && Climb(m, x, k) == Some(a)
    ensures h == k
  {
    if h < k {
      ClimbTwice(m, x, h, k - h);
      assert Below(m, a, a);
      NotBelowItself(m, root, a);
    } else if k < h {
      ClimbTwice(m, x, k, h - k);
      assert Below(m, a, a);
      NotBelowItself(m, root, a);
    }
  }

  // ----------------------------------------------------------------- descent

  /** The ids `collect_descendants` appends for `a`, following child lists to a
      depth of at most `depth`; nothing if the descent goes deeper. */
  ghost function Descend(m: Links, a: Id, depth: nat): Option<seq<Id>>
    decreases depth, 0
  {
    if a !in m then Some([])
    else if depth == 0 then None
    else DescendFirst(m, a, |m[a].children|, depth - 1)
  }

  /** The same for the first `n` children of `a`: each child after what is below
      it. */
  ghost function DescendFirst(m: Links, a: Id, n: nat, depth: nat): Option<seq<Id>>
    requires a in m && n <= |m[a].children|
    decreases depth, n + 1
  {
    if n == 0 then Some([])
    else
      var c := m[a].children[n - 1];
      match (DescendFirst(m, a, n - 1, depth), Descend(m, c, depth))
      case (Some(front), Some(sub)) => Some(front + sub + [c])
      case _ => None
  }

  /** The unbounded descent from `a` ends. */
  ghost predicate Ends(m: Links, a: Id) {
    exists depth: nat :: Descend(m, a, depth).Some?
  }

  /** Consecutive ids are linked by child lists. */
  ghost predicate IsWalk(m: Links, p: seq<Id>) {
    && p != []
    && (forall i | 0 <= i < |p| :: p[i] in m)
    && (forall i | 0 < i < |p| :: p[i] in m[p[i - 1]].children)
  }

  /** Some walk along child lists from `a` meets a node twice. */
  ghost predicate Loops(m: Links, a: Id) {
    exists p: seq<Id> :: IsWalk(m, p) && p[0] == a && !Distinct(p)
  }

  lemma {:induction false} DeeperIsSame(m: Links, a: Id, d: nat, e: nat)
    requires Descend(m, a, d).Some? && d <= e
    ensures Descend(m, a, e) == Descend(m, a, d)
    decreases d, 0
  {
    if a in m {
      DeeperFirstIsSame(m, a, |m[a].children|, d - 1, e - 1);
    }
  }

  lemma {:induction false} DeeperFirstIsSame(m: Links, a: Id, n: nat, d: nat, e: nat)
    requires a in m && n <= |m[a].children| && DescendFirst(m, a, n, d).Some? && d <= e
    ensures DescendFirst(m, a, n, e) == DescendFirst(m, a, n, d)
    decreases d, n + 1
  {
    if n == 0 {
    } else {
      DeeperFirstIsSame(m, a, n - 1, d, e);
      DeeperIsSame(m, m[a].children[n - 1], d, e);
    }
  }

  /** What an ending descent collects. */
  ghost function Collected(m: Links, a: Id): seq<Id>
    requires Ends(m, a)
  {
    var depth: nat :| Descend(m, a, depth).Some?;
    Descend(m, a, depth).value
  }

  lemma CollectedAt(m: Links, a: Id, depth: nat)
    requires Descend(m, a, depth).Some?
    ensures Ends(m, a) && Collected(m, a) == Descend(m, a, depth).value
  {
    var d: nat :| Descend(m, a, d).Some? && Collected(m, a) == Descend(m, a, d).value;
    if d <= depth {
      DeeperIsSame(m, a, d, depth);
    } else {
      DeeperIsSame(m, a, depth, d);
    }
  }

  lemma {:induction false} FirstNeedsEach(m: Links, a: Id, n: nat, depth: nat)
    requires a in m && n <= |m[a].children|
    ensures DescendFirst(m, a, n, depth).Some? <==>
            forall i | 0 <= i < n :: Descend(m, m[a].children[i], depth).Some?
  {
    if n == 0 {
    } else {
      FirstNeedsEach(m, a, n - 1, depth);
    }
  }

  /** A descent within a depth admits only walks of that many nodes. */
  lemma {:induction false} WalkIsShallow(m: Links, p: seq<Id>, depth: nat)
    requires IsWalk(m, p) && Descend(m, p[0], depth).Some?
    ensures |p| <= depth
    decreases |p|
  {
    if |p| == 1 {
    } else {
      var i :| 0 <= i < |m[p[0]].children| && m[p[0]].children[i] == p[1];
      FirstNeedsEach(m, p[0], |m[p[0]].children|, depth - 1);
      WalkIsShallow(m, p[1..], depth - 1);
    }
  }

  /** A descent that goes too deep leaves a walk of that depth. */
  lemma {:induction false} DeepWalk(m: Links, a: Id, depth: nat) returns (p: seq<Id>)
    requires Descend(m, a, depth).None?
    ensures IsWalk(m, p) && p[0] == a && |p| == depth + 1
    decreases depth
  {
    if depth == 0 {
      p := [a];
    } else {
      FirstNeedsEach(m, a, |m[a].children|, depth - 1);
      var i :| 0 <= i < |m[a].children| && Descend(m, m[a].children[i], depth - 1).None?;
      var rest := DeepWalk(m, m[a].children[i], depth - 1);
      p := [a] + rest;
    }
  }

  /** A walk with more nodes than the map repeats one. */
  lemma {:induction false} DistinctFits(m: Links, p: seq<Id>)
    requires Distinct(p) && forall i | 0 <= i < |p| :: p[i] in m
    ensures |p| <= |m.Keys|
  {
    var ids := set i | 0 <= i < |p| :: p[i];
    DistinctCount(p);
    assert ids <= m.Keys;
    SubsetSize(ids, m.Keys);
  }

  lemma {:induction false} DistinctCount(p: seq<Id>)
    requires Distinct(p)
    ensures |(set i | 0 <= i < |p| :: p[i])| == |p|
  {
    if p == [] {
    } else {
      var front, last := p[..|p| - 1], p[|p| - 1];
      DistinctCount(front);
      assert (set i | 0 <= i < |p| :: p[i]) == (set i | 0 <= i < |front| :: front[i]) + {last};
    }
  }

  lemma {:induction false} SubsetSize(a: set<Id>, b: set<Id>)
    requires a <= b
    ensures |a| <= |b|
  {
    if a == {} {
    } else {
      var x :| x in a;
      SubsetSize(a - {x}, b - {x});
    }
  }

  /** A walk continued `times` times around the loop between positions `i` and
      `j`. */
  ghost function Pumped(p: seq<Id>, i: nat, j: nat, times: nat): seq<Id>
    requires i < j < |p|
  {
    if times == 0 then p[..j + 1] else Pumped(p, i, j, times - 1) + p[i + 1..j + 1]
  }

  /** A walk may be continued by one that starts at a child of its end. */
  lemma WalkJoin(m: Links, q: seq<Id>, r: seq<Id>)
    requires IsWalk(m, q) && IsWalk(m, r) && r[0] in m[q[|q| - 1]].children
    ensures IsWalk(m, q + r)
  {
    var w := q + r;
    forall k | 0 <= k < |w|
      ensures w[k] in m
    {
    }
    forall k | 0 < k < |w|
      ensures w[k] in m[w[k - 1]].children
    {
      if k > |q| {
        assert w[k] == r[k - |q|] && w[k - 1] == r[k - |q| - 1];
      }
    }
  }

  lemma WalkPart(m: Links, p: seq<Id>, i: nat, j: nat)
    requires IsWalk(m, p) && i < j <= |p|
    ensures IsWalk(m, p[i..j])
  {
    var part := p[i..j];
    forall k | 0 < k < |part|
      ensures part[k] in m[part[k - 1]].children
    {
      assert part[k] == p[i + k] && part[k - 1] == p[i + k - 1];
    }
  }

  lemma {:induction false} PumpedWalk(m: Links, p: seq<Id>, i: nat, j: nat, times: nat)
    requires IsWalk(m, p) && i < j < |p| && p[i] == p[j]
    ensures var q := Pumped(p, i, j, times);
            IsWalk(m, q) && q[0] == p[0] && q[|q| - 1] == p[j] && |q| > times
  {
    if times == 0 {
      WalkPart(m, p, 0, j + 1);
      assert p[0..j + 1] == p[..j + 1];
    } else {
      PumpedWalk(m, p, i, j, times - 1);
      OnceMoreAround(m, p, i, j, Pumped(p, i, j, times - 1));
    }
  }

  lemma OnceMoreAround(m: Links, p: seq<Id>, i: nat, j: nat, q: seq<Id>)
    requires IsWalk(m, p) && i < j < |p| && p[i] == p[j] && IsWalk(m, q) && q[|q| - 1] == p[j]
    ensures var w := q + p[i + 1..j + 1];
            IsWalk(m, w) && w[0] == q[0] && w[|w| - 1] == p[j] && |w| > |q|
  {
    var round := p[i + 1..j + 1];
    WalkPart(m, p, i + 1, j + 1);
    assert round[0] in m[p[i + 1 - 1]].children;
    WalkJoin(m, q, round);
    assert round[|round| - 1] == p[j];
  }

  /** The descent ends exactly when no walk along child lists loops. */
  lemma EndsIffNoLoop(m: Links, a: Id)
    ensures Ends(m, a) <==> !Loops(m, a)
  {
    if Ends(m, a) {
      var depth: nat :| Descend(m, a, depth).Some?;
      forall p: seq<Id> | IsWalk(m, p) && p[0] == a
        ensures Distinct(p)
      {
        forall i, j | 0 <= i < j < |p|
          ensures p[i] != p[j]
        {
          if p[i] == p[j] {
            PumpedWalk(m, p, i, j, depth);
            WalkIsShallow(m, Pumped(p, i, j, depth), depth);
          }
        }
      }
    } else {
      var p := DeepWalk(m, a, |m.Keys|);
      if Distinct(p) {
        DistinctFits(m, p);
      }
    }
  }

  /** `x` is listed as a child somewhere on a walk from `a`. */
  ghost predicate Reached(m: Links, a: Id, x: Id) {
    exists p: seq<Id> :: IsWalk(m, p) && p[0] == a && x in m[p[|p| - 1]].children
  }

  /** An ending descent collects exactly what child lists reach. */
  lemma {:induction false} DescentIsReached(m: Links, a: Id, depth: nat, x: Id)
    requires Descend(m, a, depth).Some?
    ensures x in Descend(m, a, depth).value <==> Reached(m, a, x)
    decreases depth
  {
    if a !in m {
    } else {
      var kids := m[a].children;
      FirstNeedsEach(m, a, |kids|, depth - 1);
      FirstMembers(m, a, |kids|, depth - 1, x);
      forall i | 0 <= i < |kids|
        ensures x in Descend(m, kids[i], depth - 1).value <==> Reached(m, kids[i], x)
      {
        DescentIsReached(m, kids[i], depth - 1, x);
      }
      if i :| 0 <= i < |kids| && (x == kids[i] || Reached(m, kids[i], x)) {
        ReachedFromChild(m, a, i, x);
      }
      if Reached(m, a, x) {
        ReachedThroughChild(m, a, x);
      }
    }
  }

  lemma CollectedIsReached(m: Links, a: Id, x: Id)
    requires Ends(m, a)
    ensures x in Collected(m, a) <==> Reached(m, a, x)
  {
    var depth: nat :| Descend(m, a, depth).Some?;
    CollectedAt(m, a, depth);
    DescentIsReached(m, a, depth, x);
  }

  lemma {:induction false} FirstMembers(m: Links, a: Id, n: nat, depth: nat, x: Id)
    requires a in m && n <= |m[a].children| && DescendFirst(m, a, n, depth).Some?
    requires forall i | 0 <= i < n :: Descend(m, m[a].children[i], depth).Some?
    ensures x in DescendFirst(m, a, n, depth).value <==>
            exists i :: 0 <= i < n && (x == m[a].children[i] || x in Descend(m, m[a].children[i], depth).value)
  {
    if n == 0 {
    } else {
      FirstMembers(m, a, n - 1, depth, x);
    }
  }

  lemma ReachedFromChild(m: Links, a: Id, i: nat, x: Id)
    requires a in m && i < |m[a].children| && (x == m[a].children[i] || Reached(m, m[a].children[i], x))
    ensures Reached(m, a, x)
  {
    var c := m[a].children[i];
    if x == c {
      assert IsWalk(m, [a]) && x in m[[a][|[a]| - 1]].children;
    } else {
      var p: seq<Id> :| IsWalk(m, p) && p[0] == c && x in m[p[|p| - 1]].children;
      var q := [a] + p;
      assert IsWalk(m, q) && q[|q| - 1] == p[|p| - 1];
    }
  }

  lemma ReachedThroughChild(m: Links, a: Id, x: Id)
    requires Reached(m, a, x)
    ensures a in m
    ensures exists i :: 0 <= i < |m[a].children| && (x == m[a].children[i] || Reached(m, m[a].children[i], x))
  {
    var p: seq<Id> :| IsWalk(m, p) && p[0] == a && x in m[p[|p| - 1]].children;
    if |p| == 1 {
      var i :| 0 <= i < |m[a].children| && m[a].children[i] == x;
    } else {
      var i :| 0 <= i < |m[a].children| && m[a].children[i] == p[1];
      var q := p[1..];
      assert IsWalk(m, q) && q[|q| - 1] == p[|p| - 1];
      assert Reached(m, m[a].children[i], x);
    }
  }

  // --------------------------------------------------------- descent in trees

  /** A walk in a tree leads to ever deeper nodes. */
  lemma {:induction false} WalkGoesDown(m: Links, root: Option<Id>, p: seq<Id>, i: nat, j: nat)
    requires RootedTree(m, root) && IsWalk(m, p) && i < j < |p|
    ensures Below(m, p[i], p[j])
    decreases j - i
  {
    assert p[i + 1] in m[p[i + 1 - 1]].children;
    var k :| 0 <= k < |m[p[i]].children| && m[p[i]].children[k] == p[i + 1];
    if i + 1 < j {
      WalkGoesDown(m, root, p, i + 1, j);
    }
    BelowFromChild(m, root, p[i], k, p[j]);
  }

  /** In a rooted tree every descent ends. */
  lemma TreeDescentEnds(m: Links, root: Option<Id>, a: Id)
    requires RootedTree(m, root)
    ensures Ends(m, a)
  {
    forall p: seq<Id> | IsWalk(m, p) && p[0] == a
      ensures Distinct(p)
    {
      forall i, j | 0 <= i < j < |p|
        ensures p[i] != p[j]
      {
        WalkGoesDown(m, root, p, i, j);
        NotBelowItself(m, root, p[i]);
      }
    }
    EndsIffNoLoop(m, a);
  }

  ghost predicate UnderFirst(m: Links, a: Id, n: nat, x: Id)
    requires a in m && n <= |m[a].children|
  {
    x in m && exists i :: 0 <= i < n && Within(m, m[a].children[i], x)
  }

  /** In a rooted tree each visit happens once, and the visited nodes are those
      within one of the first `n` children. */
  lemma {:induction false} FirstVisitsOnce(m: Links, root: Option<Id>, a: Id, n: nat, depth: nat)
    requires RootedTree(m, root) && a in m && n <= |m[a].children| && DescendFirst(m, a, n, depth).Some?
    ensures Distinct(DescendFirst(m, a, n, depth).value)
    ensures forall x :: x in DescendFirst(m, a, n, depth).value <==> UnderFirst(m, a, n, x)
    decreases depth, n + 1
  {
    if n == 0 {
    } else {
      ChildStep(m, root, a, n - 1);
      var c := m[a].children[n - 1];
      var front, sub := DescendFirst(m, a, n - 1, depth).value, Descend(m, c, depth).value;
      FirstVisitsOnce(m, root, a, n - 1, depth);
      VisitsOnce(m, root, c, depth);
      forall x | x in front
        ensures x !in sub && x != c
      {
        FrontApart(m, root, a, n, x);
      }
      NotBelowItself(m, root, c);
      DistinctJoin(front, sub);
      DistinctJoin(front + sub, [c]);
      forall x
        ensures UnderFirst(m, a, n, x) <==> UnderFirst(m, a, n - 1, x) || (x in m && Within(m, c, x))
      {
      }
    }
  }

  lemma FrontApart(m: Links, root: Option<Id>, a: Id, n: nat, x: Id)
    requires RootedTree(m, root) && a in m && 0 < n <= |m[a].children|
    requires UnderFirst(m, a, n - 1, x)
    ensures !Within(m, m[a].children[n - 1], x)
  {
    var i :| 0 <= i < n - 1 && Within(m, m[a].children[i], x);
    if Within(m, m[a].children[n - 1], x) {
      SiblingsDisjoint(m, root, a, i, n - 1, x);
    }
  }

  /** In a rooted tree the descent visits every proper descendant exactly once. */
  lemma {:induction false} VisitsOnce(m: Links, root: Option<Id>, a: Id, depth: nat)
    requires RootedTree(m, root) && a in m && Descend(m, a, depth).Some?
    ensures Distinct(Descend(m, a, depth).value)
    ensures forall x :: x in Descend(m, a, depth).value <==> x in Descendants(m, a)
    decreases depth, 0
  {
    FirstVisitsOnce(m, root, a, |m[a].children|, depth - 1);
    forall x | x in m
      ensures UnderFirst(m, a, |m[a].children|, x) <==> Below(m, a, x)
    {
      UnderAllIsBelow(m, root, a, x);
    }
  }

  lemma UnderAllIsBelow(m: Links, root: Option<Id>, a: Id, x: Id)
    requires RootedTree(m, root) && a in m && x in m
    ensures UnderFirst(m, a, |m[a].children|, x) <==> Below(m, a, x)
  {
    if Below(m, a, x) {
      var i := BelowToChild(m, root, a, x);
    }
    if UnderFirst(m, a, |m[a].children|, x) {
      var i :| 0 <= i < |m[a].children| && Within(m, m[a].children[i], x);
      BelowFromChild(m, root, a, i, x);
    }
  }

  lemma CollectedInTree(m: Links, root: Option<Id>, a: Id)
    requires RootedTree(m, root) && a in m
    ensures Ends(m, a) && Distinct(Collected(m, a))
    ensures forall x :: x in Collected(m, a) <==> x in Descendants(m, a)
  {
    TreeDescentEnds(m, root, a);
    var depth: nat :| Descend(m, a, depth).Some?;
    CollectedAt(m, a, depth);
    VisitsOnce(m, root, a, depth);
  }

  // ------------------------------------------------------------------ change

  /** The links once the nodes `gone` are deleted and every surviving child list
      is restricted to survivors. */
  ghost function Prune(m: Links, gone: set<Id>): Links {
    map x | x in m && x !in gone :: Link(m[x].parent, Without(m[x].children, gone))
  }

  /** A deletable set contains the children of its members. */
  ghost predicate DownClosed(m: Links, gone: set<Id>) {
    forall x, i | x in m && x in gone && 0 <= i < |m[x].children| :: m[x].children[i] in gone
  }

  lemma ParentSurvives(m: Links, root: Option<Id>, gone: set<Id>, x: Id)
    requires RootedTree(m, root) && DownClosed(m, gone) && x in m && x !in gone && m[x].parent.Some?
    ensures m[x].parent.value in m && m[x].parent.value !in gone && x in m[m[x].parent.value].children
  {
    assert Linked(m, root, x);
    var p := m[x].parent.value;
    var i :| 0 <= i < |m[p].children| && m[p].children[i] == x;
  }

  lemma {:induction false} PruneClimb(m: Links, root: Option<Id>, gone: set<Id>, x: Id, k: nat)
    requires RootedTree(m, root) && DownClosed(m, gone) && x in m && x !in gone
    ensures Climb(Prune(m, gone), x, k) == Climb(m, x, k)
    decreases k
  {
    if k == 0 || m[x].parent.None? {
    } else {
      ParentSurvives(m, root, gone, x);
      PruneClimb(m, root, gone, m[x].parent.value, k - 1);
    }
  }

  lemma PruneLinked(m: Links, root: Option<Id>, gone: set<Id>, x: Id)
    requires RootedTree(m, root) && DownClosed(m, gone) && x in Prune(m, gone)
    ensures Linked(Prune(m, gone), root, x)
  {
    var m' := Prune(m, gone);
    assert Linked(m, root, x);
    WithoutDistinct(m[x].children, gone);
    if m[x].parent.Some? {
      ParentSurvives(m, root, gone, x);
      assert x in m'[m[x].parent.value].children;
    }
    forall i | 0 <= i < |m'[x].children|
      ensures m'[x].children[i] in m' && m'[m'[x].children[i]].parent == Some(x)
    {
      var c := m'[x].children[i];
      assert c in m'[x].children;
      assert c in m[x].children && c !in gone;
      var j :| 0 <= j < |m[x].children| && m[x].children[j] == c;
    }
  }

  /** Deleting a downward closed set leaves a rooted tree; the root goes only
      with the whole tree. */
  lemma PruneKeepsTree(m: Links, root: Option<Id>, gone: set<Id>)
    requires RootedTree(m, root) && DownClosed(m, gone)
    ensures RootedTree(Prune(m, gone), if root.Some? && root.value in gone then None else root)
  {
    var m' := Prune(m, gone);
    forall x | x in m'
      ensures Linked(m', root, x) && ReachesRoot(m', root, x) && root.value !in gone
    {
      PruneLinked(m, root, gone, x);
      assert ReachesRoot(m, root, x);
      var k: nat :| Climb(m, x, k) == root;
      PruneClimb(m, root, gone, x, k);
      ClimbTwice(m', x, k, 0);
    }
    if root.Some? && root.value !in gone {
      assert root.value in m';
    } else {
      assert m'.Keys == {};
    }
  }

  /** The sets deleted by a removal and by a navigation can be pruned. */
  lemma SubtreeDownClosed(m: Links, root: Option<Id>, n: Id)
    requires RootedTree(m, root) && n in m
    ensures DownClosed(m, Descendants(m, n)) && DownClosed(m, Descendants(m, n) + {n})
    ensures n !in Descendants(m, n)
  {
    NotBelowItself(m, root, n);
    forall x, i | x in m && Within(m, n, x) && 0 <= i < |m[x].children|
      ensures m[x].children[i] in Descendants(m, n)
    {
      var j := Height(m, n, x);
      ChildStep(m, root, x, i);
      ClimbTwice(m, m[x].children[i], 1, j);
      assert Climb(m, m[x].children[i], j + 1) == Some(n);
    }
  }

  /** What is above a child is the parent or above the parent. */
  lemma ParentWithin(m: Links, root: Option<Id>, n: Id, x: Id, i: nat)
    requires RootedTree(m, root) && x in m && i < |m[x].children| && Below(m, n, m[x].children[i])
    ensures Within(m, n, x)
  {
    assert Linked(m, root, x);
    var k: nat :| k > 0 && Climb(m, m[x].children[i], k) == Some(n);
    assert Climb(m, x, k - 1) == Some(n);
  }

  /** Outside the parent of `n`, pruning the subtree of `n` changes no child
      list, and there it drops `n` alone. */
  lemma PruneSubtreeLists(m: Links, root: Option<Id>, n: Id, x: Id)
    requires RootedTree(m, root) && n in m && x in m && !Within(m, n, x)
    ensures Without(m[x].children, Descendants(m, n) + {n}) ==
            if m[n].parent == Some(x) then Without(m[x].children, {n}) else m[x].children
  {
    var gone := Descendants(m, n) + {n};
    assert Linked(m, root, x);
    forall c | c in m[x].children && c in gone
      ensures c == n && m[n].parent == Some(x)
    {
      var i :| 0 <= i < |m[x].children| && m[x].children[i] == c;
      if Below(m, n, c) {
        ParentWithin(m, root, n, x, i);
      }
    }
    if m[n].parent == Some(x) {
      WithoutSame(m[x].children, gone, {n});
    } else {
      WithoutNothing(m[x].children, gone);
    }
  }

  /** Pruning the proper descendants of `n` empties its child list and changes
      no other. */
  lemma PruneBelowLists(m: Links, root: Option<Id>, n: Id, x: Id)
    requires RootedTree(m, root) && n in m && x in m && !Below(m, n, x)
    ensures Without(m[x].children, Descendants(m, n)) == if x == n then [] else m[x].children
  {
    assert Linked(m, root, x);
    if x == n {
      forall c | c in m[x].children
        ensures c in Descendants(m, n)
      {
        var i :| 0 <= i < |m[x].children| && m[x].children[i] == c;
        assert Within(m, c, c);
        BelowFromChild(m, root, n, i, c);
      }
      WithoutAll(m[x].children, Descendants(m, n));
    } else {
      forall c | c in m[x].children
        ensures c !in Descendants(m, n)
      {
        var i :| 0 <= i < |m[x].children| && m[x].children[i] == c;
        if Below(m, n, c) {
          ParentWithin(m, root, n, x, i);
        }
      }
      WithoutNothing(m[x].children, Descendants(m, n));
    }
  }

  /** The links with a new node `id` appended to its parent's child list. */
  ghost function Graft(m: Links, id: Id, node: Link): Links
    requires node.parent.Some? ==> node.parent.value in m
  {
    match node.parent
    case None => m[id := node]
    case Some(p) => m[p := Link(m[p].parent, m[p].children + [id])][id := node]
  }

  /** A fresh node keeps the tree exactly when it arrives without children. */
  lemma GraftKeepsTreeIffLeaf(m: Links, root: Option<Id>, id: Id, node: Link)
    requires RootedTree(m, root) && id !in m
    requires match node.parent case None => root.None? case Some(p) => p in m
    ensures RootedTree(Graft(m, id, node), if node.parent.None? then Some(id) else root) <==> node.children == []
  {
    if node.children == [] {
      GraftLeaf(m, root, id, node);
    } else {
      var m', c := Graft(m, id, node), node.children[0];
      var root' := if node.parent.None? then Some(id) else root;
      if c in m {
        assert Linked(m, root, c);
      }
      assert !(c in m' && m'[c].parent == Some(id));
      assert m'[id].children[0] == c;
      assert !Linked(m', root', id);
    }
  }

  lemma GraftLeaf(m: Links, root: Option<Id>, id: Id, node: Link)
    requires RootedTree(m, root) && id !in m && node.children == []
    requires match node.parent case None => root.None? case Some(p) => p in m
    ensures RootedTree(Graft(m, id, node), if node.parent.None? then Some(id) else root)
  {
    var m' := Graft(m, id, node);
    if node.parent.None? {
      assert Climb(m', id, 0) == Some(id);
      assert m'.Keys == {id};
    } else {
      var p := node.parent.value;
      assert m'[p].children == m[p].children + [id];
      forall x | x in m
        ensures Linked(m', root, x) && ReachesRoot(m', root, x)
      {
        GraftLinked(m, root, id, node, x);
        assert ReachesRoot(m, root, x);
        var k: nat :| Climb(m, x, k) == root;
        GraftClimb(m, root, id, node, x, k);
      }
      assert ReachesRoot(m', root, p);
      var k: nat :| Climb(m', p, k) == root;
      assert Climb(m', id, k + 1) == root;
      assert ReachesRoot(m', root, id);
      assert id in m'[p].children;
      assert Linked(m', root, id);
    }
  }

  lemma GraftLinked(m: Links, root: Option<Id>, id: Id, node: Link, x: Id)
    requires RootedTree(m, root) && id !in m && node.parent.Some? && node.parent.value in m && x in m
    ensures Linked(Graft(m, id, node), root, x)
  {
    var m' := Graft(m, id, node);
    assert Linked(m, root, x);
    if x == node.parent.value {
      assert m'[x].children == m[x].children + [id];
      assert id !in m[x].children;
    } else {
      assert m'[x] == m[x];
    }
  }

  lemma {:induction false} GraftClimb(m: Links, root: Option<Id>, id: Id, node: Link, x: Id, k: nat)
    requires RootedTree(m, root) && id !in m && node.parent.Some? && node.parent.value in m && x in m
    ensures Climb(Graft(m, id, node), x, k) == Climb(m, x, k)
    decreases k
  {
    assert Linked(m, root, x);
    if k == 0 || m[x].parent.None? {
    } else {
      GraftClimb(m, root, id, node, m[x].parent.value, k - 1);
    }
  }
}
