/** The frame registry: frame topology changed by adding frames and navigating. */
module Frames {
  import opened Common
  import opened TreeLinks

  /** A parsed address together with its serialized origin. */
  datatype Url = Url(href: string, origin: string)

  datatype Frame = Frame(id: Id, parent: Option<Id>, url: Url, origin: string, childFrames: seq<Id>)

  datatype FrameError = MissingFrame | CrossOriginDenied

  datatype AgentFrameScope = AgentFrameScope(frame: Id, origin: string, parent: Option<Id>, descendants: seq<Id>)

  /** The observable value of a registry. */
  datatype Topology = Topology(frames: map<Id, Frame>, root: Id)

  function NewTopology(id: Id, url: Url): Topology {
    Topology(map[id := Frame(id, None, url, url.origin, [])], id)
  }

  ghost function LinksOf(frames: map<Id, Frame>): Links {
    map f | f in frames :: Link(frames[f].parent, frames[f].childFrames)
  }

  /** The frames form a tree below `root`; each knows its id and carries the
      origin of its current address. */
  ghost predicate IsTree(t: Topology) {
    && RootedTree(LinksOf(t.frames), Some(t.root))
    && forall f | f in t.frames :: t.frames[f].id == f && t.frames[f].origin == t.frames[f].url.origin
  }

  // ----------------------------------------------------------- specification

  /** Frame ids are UUIDs: `id` stands for the next one drawn. */
  datatype Step = AddChild(parent: Id, url: Url, id: Id) | Navigate(frame: Id, url: Url)

  ghost function After(t: Topology, step: Step): Topology {
    match step
    case AddChild(p, url, id) =>
      if p !in t.frames then t
      else
        var grown := t.frames[p].(childFrames := t.frames[p].childFrames + [id]);
        t.(frames := t.frames[p := grown][id := Frame(id, Some(p), url, url.origin, [])])
    case Navigate(n, url) =>
      if n !in t.frames then t else t.(frames := Navigated(t.frames, n, url))
  }

  /** Navigation deletes exactly the proper descendants of `n`, gives `n` its new
      address and no children, and leaves every other frame as it was. */
  ghost function Navigated(frames: map<Id, Frame>, n: Id, url: Url): map<Id, Frame> {
    map x | x in frames && !Below(LinksOf(frames), n, x) ::
      if x == n then frames[x].(url := url, origin := url.origin, childFrames := []) else frames[x]
  }

  ghost function Run(t: Topology, steps: seq<Step>): Topology
    decreases steps
  {
    if steps == [] then t else Run(After(t, steps[0]), steps[1..])
  }

  /** Every id drawn along the run is new to the registry. */
  ghost predicate DrawsFreshIds(t: Topology, steps: seq<Step>)
    decreases steps
  {
    steps != [] ==>
      && (steps[0].AddChild? ==> steps[0].id !in t.frames)
      && DrawsFreshIds(After(t, steps[0]), steps[1..])
  }

  // -------------------------------------------------------------------- laws

  lemma NavigationPrunes(t: Topology, n: Id, url: Url)
    requires IsTree(t) && n in t.frames
    ensures LinksOf(Navigated(t.frames, n, url)) == Prune(LinksOf(t.frames), Descendants(LinksOf(t.frames), n))
  {
    var m := LinksOf(t.frames);
    forall x | x in m && !Below(m, n, x)
      ensures Without(m[x].children, Descendants(m, n)) == if x == n then [] else m[x].children
    {
      PruneBelowLists(m, Some(t.root), n, x);
    }
  }

  lemma NavigationKeepsTree(t: Topology, n: Id, url: Url)
    requires IsTree(t) && n in t.frames
    ensures IsTree(After(t, Navigate(n, url)))
    ensures var m := LinksOf(t.frames);
            After(t, Navigate(n, url)).frames.Keys == t.frames.Keys - Descendants(m, n)
  {
    var m := LinksOf(t.frames);
    NavigationPrunes(t, n, url);
    SubtreeDownClosed(m, Some(t.root), n);
    PruneKeepsTree(m, Some(t.root), Descendants(m, n));
    assert Linked(m, Some(t.root), t.root);
    assert forall k: nat | k > 0 :: Climb(m, t.root, k) == None;
    assert !Below(m, n, t.root);
  }

  lemma NavigatedUpdate(t: Topology, n: Id, url: Url, rest: map<Id, Frame>)
    requires IsTree(t) && n in t.frames && rest == t.frames - Descendants(LinksOf(t.frames), n)
    ensures n in rest
    ensures Navigated(t.frames, n, url) == rest[n := rest[n].(url := url, origin := url.origin, childFrames := [])]
  {
    SubtreeDownClosed(LinksOf(t.frames), Some(t.root), n);
  }

  lemma StepKeepsTree(t: Topology, step: Step)
    requires IsTree(t) && (step.AddChild? ==> step.id !in t.frames)
    ensures IsTree(After(t, step))
  {
    match step
    case AddChild(p, url, id) =>
      if p in t.frames {
        GraftLeaf(LinksOf(t.frames), Some(t.root), id, Link(Some(p), []));
        assert LinksOf(After(t, step).frames) == Graft(LinksOf(t.frames), id, Link(Some(p), []));
      }
    case Navigate(n, url) =>
      if n in t.frames {
        NavigationKeepsTree(t, n, url);
      }
  }

  lemma {:induction false} RunKeepsTree(t: Topology, steps: seq<Step>)
    requires IsTree(t) && DrawsFreshIds(t, steps)
    ensures IsTree(Run(t, steps)) && Run(t, steps).root == t.root
    decreases steps
  {
    if steps == [] {
    } else {
      StepKeepsTree(t, steps[0]);
      RunKeepsTree(After(t, steps[0]), steps[1..]);
    }
  }

  /** Every registry reached from a new one is a tree below its first frame, whose
      id never changes. */
  lemma ReachableIsTree(id: Id, url: Url, steps: seq<Step>)
    requires DrawsFreshIds(NewTopology(id, url), steps)
    ensures IsTree(Run(NewTopology(id, url), steps)) && Run(NewTopology(id, url), steps).root == id
  {
    var t := NewTopology(id, url);
    var m := LinksOf(t.frames);
    assert m == map[id := Link(None, [])];
    assert Climb(m, id, 0) == Some(id);
    assert IsTree(t);
    RunKeepsTree(t, steps);
  }

  // ---------------------------------------------------------- implementation

  class FrameTree {
    var frames: map<Id, Frame>
    var root: Id

    ghost function View(): Topology
      reads this
    {
      Topology(frames, root)
    }

    constructor (id: Id, url: Url)
      ensures View() == NewTopology(id, url)
      ensures frames == map[id := Frame(id, None, url, url.origin, [])] && root == id
    {
      frames, root := map[id := Frame(id, None, url, url.origin, [])], id;
    }

    method Add(parent: Id, url: Url, id: Id) returns (r: Result<Id, FrameError>)
      requires id !in frames
      modifies this
      ensures r == if parent in old(frames) then Ok(id) else Err(MissingFrame)
      ensures View() == After(old(View()), AddChild(parent, url, id))
      ensures r.Err? ==> View() == old(View())
      ensures r.Ok? ==>
                && root == old(root) && frames.Keys == old(frames).Keys + {id}
                && frames[id] == Frame(id, Some(parent), url, url.origin, [])
                && frames[parent] == old(frames)[parent].(childFrames := old(frames)[parent].childFrames + [id])
                && forall x | x in old(frames) && x != parent :: frames[x] == old(frames)[x]
    {
      if parent !in frames {
        return Err(MissingFrame);
      }
      frames := frames[parent := frames[parent].(childFrames := frames[parent].childFrames + [id])];
      frames := frames[id := Frame(id, Some(parent), url, url.origin, [])];
      r := Ok(id);
    }

    method NavigateTo(n: Id, url: Url) returns (r: Result<(), FrameError>)
      requires IsTree(View())
      modifies this
      ensures r == if n in old(frames) then Ok(()) else Err(MissingFrame)
      ensures View() == After(old(View()), Navigate(n, url)) && IsTree(View())
      ensures r.Err? ==> View() == old(View())
      ensures r.Ok? ==>
                && root == old(root)
                && (forall x :: x in frames <==> x in old(frames) && x !in Descendants(LinksOf(old(frames)), n))
                && n in frames && frames[n] == Frame(old(frames)[n].id, old(frames)[n].parent, url, url.origin, [])
                && forall x | x in frames && x != n :: frames[x] == old(frames)[x]
    {
      if n !in frames {
        return Err(MissingFrame);
      }
      NavigationKeepsTree(View(), n, url);
      CollectedInTree(LinksOf(frames), Some(root), n);
      ghost var bound: nat :| Descend(LinksOf(frames), n, bound).Some?;
      CollectedAt(LinksOf(frames), n, bound);
      var descendants := CollectDescendants(n, [], bound);
      ghost var gone := Descendants(LinksOf(frames), n);
      DeleteFrames(descendants, gone);
      NavigatedUpdate(old(View()), n, url, frames);
      frames := frames[n := frames[n].(url := url, origin := url.origin, childFrames := [])];
      r := Ok(());
    }

    method DeleteFrames(ids: seq<Id>, ghost gone: set<Id>)
      requires forall x :: x in ids <==> x in gone
      modifies this`frames
      ensures frames == old(frames) - gone
    {
      for i := 0 to |ids|
        invariant frames == old(frames) - (set x | x in ids[..i])
      {
        assert ids[..i + 1] == ids[..i] + [ids[i]];
        frames := frames - {ids[i]};
      }
      assert (set x | x in ids[..|ids|]) == gone;
    }

    /** Appends what the descent along child lists collects, each frame after what
        is below it.  `bound` is a depth within which the descent ends. */
    method CollectDescendants(id: Id, found: seq<Id>, ghost bound: nat) returns (descendants: seq<Id>)
      requires Descend(LinksOf(frames), id, bound).Some?
      ensures descendants == found + Descend(LinksOf(frames), id, bound).value
      decreases bound
    {
      descendants := found;
      if id in frames {
        var children := frames[id].childFrames;
        FirstNeedsEach(LinksOf(frames), id, |children|, bound - 1);
        for i := 0 to |children|
          invariant DescendFirst(LinksOf(frames), id, i, bound - 1).Some?
          invariant descendants == found + DescendFirst(LinksOf(frames), id, i, bound - 1).value
        {
          descendants := CollectDescendants(children[i], descendants, bound - 1);
          descendants := descendants + [children[i]];
        }
      }
    }

    /** The scope of a frame lists the frame first and every frame below it once. */
    method ScopedIds(id: Id) returns (r: Result<seq<Id>, FrameError>)
      requires IsTree(View())
      ensures r.Ok? <==> id in frames
      ensures r.Err? ==> r.error == MissingFrame
      ensures r.Ok? ==> Ends(LinksOf(frames), id) && r.value == [id] + Collected(LinksOf(frames), id)
      ensures r.Ok? ==> Distinct(r.value)
      ensures r.Ok? ==> forall x :: x in r.value <==> x in frames && Within(LinksOf(frames), id, x)
    {
      if id !in frames {
        return Err(MissingFrame);
      }
      CollectedInTree(LinksOf(frames), Some(root), id);
      ghost var bound: nat :| Descend(LinksOf(frames), id, bound).Some?;
      CollectedAt(LinksOf(frames), id, bound);
      var ids := CollectDescendants(id, [id], bound);
      NotBelowItself(LinksOf(frames), Some(root), id);
      DistinctJoin([id], Collected(LinksOf(frames), id));
      r := Ok(ids);
    }

    method AgentScope(id: Id) returns (r: Result<AgentFrameScope, FrameError>)
      requires IsTree(View())
      ensures r.Ok? <==> id in frames
      ensures r.Err? ==> r.error == MissingFrame
      ensures r.Ok? ==>
                && r.value.frame == id && r.value.origin == frames[id].url.origin
                && r.value.parent == frames[id].parent
                && Ends(LinksOf(frames), id) && r.value.descendants == Collected(LinksOf(frames), id)
                && Distinct(r.value.descendants)
                && forall x :: x in r.value.descendants <==> x in Descendants(LinksOf(frames), id)
    {
      if id !in frames {
        return Err(MissingFrame);
      }
      var scoped := ScopedIds(id);
      CollectedInTree(LinksOf(frames), Some(root), id);
      assert scoped.value[1..] == Collected(LinksOf(frames), id);
      r := Ok(AgentFrameScope(frames[id].id, frames[id].origin, frames[id].parent, scoped.value[1..]));
    }

    method RequireAccess(from: Id, to: Id) returns (r: Result<(), FrameError>)
      requires IsTree(View())
      ensures r.Ok? <==> from in frames && to in frames && frames[from].url.origin == frames[to].url.origin
      ensures r == Err(CrossOriginDenied) <==> from in frames && to in frames && r.Err?
    {
      if from !in frames || to !in frames {
        return Err(MissingFrame);
      }
      r := if frames[from].origin == frames[to].origin then Ok(()) else Err(CrossOriginDenied);
    }
  }
}
