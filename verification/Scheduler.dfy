/** The retrying scheduler of compatibility runs. */
module Scheduler {
  import opened Common

  datatype CorpusState = Pending | Running | Complete | Failed | RetryPending

  datatype FailureCategory = Timeout | Hang | Crash | OtherFailure

  datatype ScheduledSite = ScheduledSite(index: nat, attempt: nat)

  type Sites = seq<ScheduledSite>

  predicate IsPending(states: seq<Option<CorpusState>>, i: nat) {
    i < |states| && (states[i] == Some(Pending) || states[i] == Some(RetryPending))
  }

  /** The indices of the first `n` sites that are still to run, in order. */
  function PendingIndices(states: seq<Option<CorpusState>>, n: nat): (r: seq<nat>)
    requires n <= |states|
    ensures forall i: nat :: i in r <==> i < n && IsPending(states, i)
    ensures forall i | 0 <= i < |r| :: r[i] < n
    ensures forall i, j | 0 <= i < j < |r| :: r[i] < r[j]
  {
    if n == 0 then []
    else PendingIndices(states, n - 1) + if IsPending(states, n - 1) then [n - 1] else []
  }

  predicate Retryable(category: FailureCategory) {
    category.Timeout? || category.Hang? || category.Crash?
  }

  /** Timeouts, hangs and crashes are retried while attempts remain. */
  predicate ShouldRetry(maxAttempts: nat, attempt: nat, failures: seq<FailureCategory>) {
    attempt < maxAttempts && exists i :: 0 <= i < |failures| && Retryable(failures[i])
  }

  // ------------------------------------------------------------------- runs

  /** A scheduler in use: the queue, the sites taken and not yet reported back, and
      every site taken so far. */
  datatype State = State(queue: Sites, flight: Sites, taken: Sites)

  datatype Config = Config(workers: nat, maxAttempts: nat)

  function FirstAttempts(pending: seq<nat>): Sites {
    seq(|pending|, i requires 0 <= i < |pending| => ScheduledSite(pending[i], 0))
  }

  function Initial(pending: seq<nat>): State {
    State(FirstAttempts(pending), [], [])
  }

  /** A driver takes a batch, or reports the outcome of one site in flight; it may
      pass the outcome to `retry` or not. */
  datatype Step = Take | Report(at: nat, failures: seq<FailureCategory>, retry: bool)

  function BatchSize(c: Config, queue: Sites): nat {
    Min(Max(c.workers, 1), |queue|)
  }

  predicate Enabled(s: State, step: Step) {
    match step
    case Take => s.queue != []
    case Report(at, _, _) => at < |s.flight|
  }

  function Requeued(c: Config, queue: Sites, site: ScheduledSite, failures: seq<FailureCategory>): Sites {
    if ShouldRetry(c.maxAttempts, site.attempt, failures)
    then queue + [ScheduledSite(site.index, site.attempt + 1)] else queue
  }

  function After(c: Config, s: State, step: Step): State
    requires Enabled(s, step)
  {
    match step
    case Take =>
      var n := BatchSize(c, s.queue);
      State(s.queue[n..], s.flight + s.queue[..n], s.taken + s.queue[..n])
    case Report(at, failures, retry) =>
      State(if retry then Requeued(c, s.queue, s.flight[at], failures) else s.queue,
            s.flight[..at] + s.flight[at + 1..], s.taken)
  }

  ghost predicate IsRun(c: Config, s: State, steps: seq<Step>)
    decreases steps
  {
    steps == [] || (Enabled(s, steps[0]) && IsRun(c, After(c, s, steps[0]), steps[1..]))
  }

  ghost function Run(c: Config, s: State, steps: seq<Step>): State
    requires IsRun(c, s, steps)
    decreases steps
  {
    if steps == [] then s else Run(c, After(c, s, steps[0]), steps[1..])
  }

  // --------------------------------------------------------------- invariant

  /** How often `index` occurs. */
  ghost function Runs(sites: Sites, index: nat): nat {
    if sites == [] then 0
    else Runs(sites[..|sites| - 1], index) + if sites[|sites| - 1].index == index then 1 else 0
  }

  ghost predicate DistinctIndices(sites: Sites) {
    forall i, j | 0 <= i < j < |sites| :: sites[i].index != sites[j].index
  }

  /** What is held in flight, then queued. */
  function Held(s: State): Sites {
    s.flight + s.queue
  }

  /** Site `x` is held at most once, and only if it is pending; a pending site no
      longer held has run, within the limit; no other site runs. */
  ghost predicate IndexWell(c: Config, pending: seq<nat>, flight: Sites, queue: Sites, taken: Sites, x: nat) {
    var held, ran := Runs(flight, x) + Runs(queue, x), Runs(taken, x);
    if x in pending then held <= 1 && (held == 0 ==> 1 <= ran <= c.maxAttempts + 1)
    else held == 0 && ran == 0
  }

  /** A held site is within the attempt limit and its attempt number counts its
      earlier runs. */
  ghost predicate SiteWell(c: Config, site: ScheduledSite, inFlight: bool, taken: Sites) {
    site.attempt <= c.maxAttempts && Runs(taken, site.index) == site.attempt + if inFlight then 1 else 0
  }

  ghost predicate Accounted(c: Config, pending: seq<nat>, flight: Sites, queue: Sites, taken: Sites) {
    && (forall x: nat :: IndexWell(c, pending, flight, queue, taken, x))
    && (forall site {:trigger SiteWell(c, site, true, taken)} | site in flight :: SiteWell(c, site, true, taken))
    && (forall site {:trigger SiteWell(c, site, false, taken)} | site in queue :: SiteWell(c, site, false, taken))
  }

  ghost predicate Inv(c: Config, pending: seq<nat>, s: State) {
    Accounted(c, pending, s.flight, s.queue, s.taken)
  }

  lemma {:induction false} RunsJoin(a: Sites, b: Sites, index: nat)
    ensures Runs(a + b, index) == Runs(a, index) + Runs(b, index)
  {
    if b == [] {
      assert a + b == a;
    } else {
      assert (a + b)[..|a + b| - 1] == a + b[..|b| - 1];
      RunsJoin(a, b[..|b| - 1], index);
    }
  }

  lemma RunsOne(site: ScheduledSite, index: nat)
    ensures Runs([site], index) == if site.index == index then 1 else 0
  {
    assert [site][..0] == [];
  }

  /** A site in the list is counted. */
  lemma {:induction false} RunsMember(sites: Sites, site: ScheduledSite)
    requires site in sites
    ensures Runs(sites, site.index) >= 1
  {
    var front, last := sites[..|sites| - 1], sites[|sites| - 1];
    if site != last {
      assert sites == front + [last];
      RunsMember(front, site);
    }
  }

  lemma {:induction false} OnceIsDistinct(sites: Sites)
    requires forall x: nat :: Runs(sites, x) <= 1
    ensures DistinctIndices(sites)
  {
    if sites == [] {
    } else {
      var front, last := sites[..|sites| - 1], sites[|sites| - 1];
      forall x: nat
        ensures Runs(front, x) <= 1
      {
        assert Runs(sites, x) <= 1;
      }
      OnceIsDistinct(front);
      forall i | 0 <= i < |front|
        ensures front[i].index != last.index
      {
        assert Runs(sites, last.index) <= 1;
        if front[i].index == last.index {
          RunsMember(front, front[i]);
        }
      }
    }
  }

  lemma {:induction false} FirstRuns(pending: seq<nat>, x: nat)
    requires Distinct(pending)
    ensures Runs(FirstAttempts(pending), x) == if x in pending then 1 else 0
  {
    if pending == [] {
    } else {
      var front, last := pending[..|pending| - 1], pending[|pending| - 1];
      assert pending == front + [last];
      assert last !in front;
      FirstRuns(front, x);
      assert FirstAttempts(pending)[..|pending| - 1] == FirstAttempts(front);
    }
  }

  lemma InitialInv(c: Config, pending: seq<nat>)
    requires Distinct(pending)
    ensures Inv(c, pending, Initial(pending))
  {
    forall x: nat
      ensures IndexWell(c, pending, [], FirstAttempts(pending), [], x)
    {
      FirstRuns(pending, x);
    }
  }

  /** Taking the sites of `batch` from the queue into flight. */
  lemma TakeAccounted(c: Config, pending: seq<nat>, flight: Sites, batch: Sites, rest: Sites, taken: Sites)
    requires Accounted(c, pending, flight, batch + rest, taken)
    ensures Accounted(c, pending, flight + batch, rest, taken + batch)
  {
    var flight', taken' := flight + batch, taken + batch;
    forall x: nat
      ensures IndexWell(c, pending, flight', rest, taken', x)
    {
      assert IndexWell(c, pending, flight, batch + rest, taken, x);
      RunsJoin(flight, batch, x);
      RunsJoin(batch, rest, x);
      RunsJoin(taken, batch, x);
    }
    forall site | site in flight'
      ensures SiteWell(c, site, true, taken')
    {
      TakeSite(c, pending, flight, batch, rest, taken, site);
    }
    forall site | site in rest
      ensures SiteWell(c, site, false, taken')
    {
      TakeSite(c, pending, flight, batch, rest, taken, site);
    }
  }

  lemma TakeSite(
      c: Config, pending: seq<nat>, flight: Sites, batch: Sites, rest: Sites, taken: Sites, site: ScheduledSite)
    requires Accounted(c, pending, flight, batch + rest, taken)
    requires site in flight || site in batch || site in rest
    ensures SiteWell(c, site, site !in rest, taken + batch)
    ensures site in rest ==> site !in flight + batch
  {
    var x := site.index;
    assert IndexWell(c, pending, flight, batch + rest, taken, x);
    RunsJoin(batch, rest, x);
    RunsJoin(taken, batch, x);
    if site in flight {
      RunsMember(flight, site);
      assert SiteWell(c, site, true, taken);
    } else {
      assert SiteWell(c, site, false, taken);
    }
    if site in batch {
      RunsMember(batch, site);
    }
    if site in rest {
      RunsMember(rest, site);
    }
  }

  lemma TakeInv(c: Config, pending: seq<nat>, s: State)
    requires Inv(c, pending, s) && s.queue != []
    ensures Inv(c, pending, After(c, s, Take))
  {
    var n := BatchSize(c, s.queue);
    assert s.queue == s.queue[..n] + s.queue[n..];
    TakeAccounted(c, pending, s.flight, s.queue[..n], s.queue[n..], s.taken);
  }

  lemma Around(sites: Sites, at: nat)
    requires at < |sites|
    ensures sites == sites[..at] + [sites[at]] + sites[at + 1..]
  {
  }

  lemma RunsWithout(front: Sites, site: ScheduledSite, back: Sites, x: nat)
    ensures Runs(front + [site] + back, x) == Runs(front + back, x) + if site.index == x then 1 else 0
  {
    RunsJoin(front + [site], back, x);
    RunsJoin(front, [site], x);
    RunsJoin(front, back, x);
    RunsOne(site, x);
  }

  /** Letting go of a site in flight: it has run within the limit. */
  lemma DropAccounted(
      c: Config, pending: seq<nat>, front: Sites, site: ScheduledSite, back: Sites, queue: Sites, taken: Sites)
    requires Accounted(c, pending, front + [site] + back, queue, taken)
    ensures Accounted(c, pending, front + back, queue, taken)
  {
    var flight, flight' := front + [site] + back, front + back;
    assert SiteWell(c, site, true, taken);
    forall x: nat
      ensures IndexWell(c, pending, flight', queue, taken, x)
    {
      assert IndexWell(c, pending, flight, queue, taken, x);
      RunsWithout(front, site, back, x);
    }
    forall other | other in flight'
      ensures SiteWell(c, other, true, taken)
    {
      assert other in flight;
    }
  }

  /** Queueing a site let go of again for its next attempt. */
  lemma RequeueAccounted(
      c: Config, pending: seq<nat>, front: Sites, site: ScheduledSite, back: Sites, queue: Sites, taken: Sites,
      again: ScheduledSite)
    requires Accounted(c, pending, front + [site] + back, queue, taken)
    requires site.attempt < c.maxAttempts && again == ScheduledSite(site.index, site.attempt + 1)
    ensures Accounted(c, pending, front + back, queue + [again], taken)
  {
    var flight, flight', queue' := front + [site] + back, front + back, queue + [again];
    assert SiteWell(c, site, true, taken);
    forall x: nat
      ensures IndexWell(c, pending, flight', queue', taken, x)
    {
      assert IndexWell(c, pending, flight, queue, taken, x);
      RunsWithout(front, site, back, x);
      RunsJoin(queue, [again], x);
      RunsOne(again, x);
    }
    forall other | other in flight'
      ensures SiteWell(c, other, true, taken)
    {
      assert other in flight;
    }
    forall other | other in queue'
      ensures SiteWell(c, other, false, taken)
    {
      assert other == again || SiteWell(c, other, false, taken);
    }
  }

  lemma ReportInv(c: Config, pending: seq<nat>, s: State, step: Step)
    requires Inv(c, pending, s) && step.Report? && Enabled(s, step)
    ensures Inv(c, pending, After(c, s, step))
  {
    var front, site, back := s.flight[..step.at], s.flight[step.at], s.flight[step.at + 1..];
    Around(s.flight, step.at);
    if step.retry && ShouldRetry(c.maxAttempts, site.attempt, step.failures) {
      var again := ScheduledSite(site.index, site.attempt + 1);
      RequeueAccounted(c, pending, front, site, back, s.queue, s.taken, again);
    } else {
      DropAccounted(c, pending, front, site, back, s.queue, s.taken);
    }
  }

  lemma StepInv(c: Config, pending: seq<nat>, s: State, step: Step)
    requires Inv(c, pending, s) && Enabled(s, step)
    ensures Inv(c, pending, After(c, s, step))
  {
    if step.Take? {
      TakeInv(c, pending, s);
    } else {
      ReportInv(c, pending, s, step);
    }
  }

  lemma {:induction false} RunInv(c: Config, pending: seq<nat>, s: State, steps: seq<Step>)
    requires Inv(c, pending, s) && IsRun(c, s, steps)
    ensures Inv(c, pending, Run(c, s, steps))
    decreases steps
  {
    if steps == [] {
    } else {
      StepInv(c, pending, s, steps[0]);
      RunInv(c, pending, After(c, s, steps[0]), steps[1..]);
    }
  }

  // ------------------------------------------------------------- termination

  /** The work left in a list of sites, `extra` per site beyond its attempts. */
  ghost function Work(c: Config, sites: Sites, extra: nat): int {
    if sites == [] then 0
    else Work(c, sites[..|sites| - 1], extra) + 2 * (c.maxAttempts - sites[|sites| - 1].attempt) + extra
  }

  ghost function WorkLeft(c: Config, s: State): int {
    Work(c, s.queue, 2) + Work(c, s.flight, 1)
  }

  lemma {:induction false} WorkJoin(c: Config, a: Sites, b: Sites, extra: nat)
    ensures Work(c, a + b, extra) == Work(c, a, extra) + Work(c, b, extra)
  {
    if b == [] {
      assert a + b == a;
    } else {
      assert (a + b)[..|a + b| - 1] == a + b[..|b| - 1];
      WorkJoin(c, a, b[..|b| - 1], extra);
    }
  }

  lemma {:induction false} WorkExtra(c: Config, sites: Sites)
    ensures Work(c, sites, 2) == Work(c, sites, 1) + |sites|
  {
    if sites == [] {
    } else {
      WorkExtra(c, sites[..|sites| - 1]);
    }
  }

  lemma WorkOne(c: Config, site: ScheduledSite, extra: nat)
    ensures Work(c, [site], extra) == 2 * (c.maxAttempts - site.attempt) + extra
  {
    assert [site][..0] == [];
  }

  lemma {:induction false} WorkNonNegative(c: Config, sites: Sites, extra: nat)
    requires forall i | 0 <= i < |sites| :: sites[i].attempt <= c.maxAttempts
    ensures Work(c, sites, extra) >= 0
  {
    if sites == [] {
    } else {
      WorkNonNegative(c, sites[..|sites| - 1], extra);
    }
  }

  lemma TakeShrinksWork(c: Config, s: State)
    requires s.queue != []
    ensures WorkLeft(c, After(c, s, Take)) < WorkLeft(c, s)
  {
    var n := BatchSize(c, s.queue);
    var batch, rest := s.queue[..n], s.queue[n..];
    assert s.queue == batch + rest;
    WorkJoin(c, batch, rest, 2);
    WorkJoin(c, s.flight, batch, 1);
    WorkExtra(c, batch);
  }

  lemma ReportShrinksWork(c: Config, s: State, step: Step)
    requires step.Report? && Enabled(s, step) && s.flight[step.at].attempt <= c.maxAttempts
    ensures WorkLeft(c, After(c, s, step)) < WorkLeft(c, s)
  {
    var site := s.flight[step.at];
    var front, back := s.flight[..step.at], s.flight[step.at + 1..];
    assert s.flight == front + [site] + back;
    WorkJoin(c, front + [site], back, 1);
    WorkJoin(c, front, [site], 1);
    WorkJoin(c, front, back, 1);
    WorkOne(c, site, 1);
    var again := ScheduledSite(site.index, site.attempt + 1);
    WorkJoin(c, s.queue, [again], 2);
    WorkOne(c, again, 2);
  }

  /** Held sites are within the attempt limit. */
  lemma HeldAttempts(c: Config, pending: seq<nat>, flight: Sites, queue: Sites, taken: Sites)
    requires Accounted(c, pending, flight, queue, taken)
    ensures forall i | 0 <= i < |flight| :: flight[i].attempt <= c.maxAttempts
    ensures forall i | 0 <= i < |queue| :: queue[i].attempt <= c.maxAttempts
  {
    forall i | 0 <= i < |flight|
      ensures flight[i].attempt <= c.maxAttempts
    {
      assert SiteWell(c, flight[i], true, taken);
    }
    forall i | 0 <= i < |queue|
      ensures queue[i].attempt <= c.maxAttempts
    {
      assert SiteWell(c, queue[i], false, taken);
    }
  }

  lemma InvWork(c: Config, pending: seq<nat>, s: State)
    requires Inv(c, pending, s)
    ensures WorkLeft(c, s) >= 0
    ensures forall i | 0 <= i < |s.flight| :: s.flight[i].attempt <= c.maxAttempts
  {
    HeldAttempts(c, pending, s.flight, s.queue, s.taken);
    WorkNonNegative(c, s.queue, 2);
    WorkNonNegative(c, s.flight, 1);
  }

  /** Every run is finite: each step uses up work. */
  lemma {:induction false} RunBounded(c: Config, pending: seq<nat>, s: State, steps: seq<Step>)
    requires Inv(c, pending, s) && IsRun(c, s, steps)
    ensures |steps| <= WorkLeft(c, s)
    decreases steps
  {
    InvWork(c, pending, s);
    if steps == [] {
    } else {
      StepInv(c, pending, s, steps[0]);
      if steps[0].Take? {
        TakeShrinksWork(c, s);
      } else {
        ReportShrinksWork(c, s, steps[0]);
      }
      RunBounded(c, pending, After(c, s, steps[0]), steps[1..]);
    }
  }

  lemma {:induction false} InitialWork(c: Config, pending: seq<nat>)
    ensures Work(c, FirstAttempts(pending), 2) == (2 * c.maxAttempts + 2) * |pending|
  {
    if pending == [] {
    } else {
      var front := pending[..|pending| - 1];
      InitialWork(c, front);
      assert FirstAttempts(pending)[..|pending| - 1] == FirstAttempts(front);
    }
  }

  /** From a fresh scheduler: a run has at most `2 (maxAttempts + 1)` steps per
      pending site, no site is held twice, none but the pending ones runs, each at
      most `maxAttempts + 1` times; and once nothing is held each has run. */
  lemma SchedulerTheorem(c: Config, pending: seq<nat>, steps: seq<Step>)
    requires Distinct(pending) && IsRun(c, Initial(pending), steps)
    ensures |steps| <= (2 * c.maxAttempts + 2) * |pending|
    ensures var s := Run(c, Initial(pending), steps);
            && DistinctIndices(Held(s))
            && (forall x: nat | x !in pending :: Runs(s.taken, x) == 0)
            && (forall x: nat | x in pending :: Runs(s.taken, x) <= c.maxAttempts + 1)
            && (s.queue == [] && s.flight == [] ==> forall x: nat | x in pending :: Runs(s.taken, x) >= 1)
  {
    InitialInv(c, pending);
    RunBounded(c, pending, Initial(pending), steps);
    InitialWork(c, pending);
    RunInv(c, pending, Initial(pending), steps);
    InvBounds(c, pending, Run(c, Initial(pending), steps));
  }

  /** The same of a corpus: exactly its pending and retry-pending sites run. */
  lemma OnlyPendingSitesRun(c: Config, states: seq<Option<CorpusState>>, steps: seq<Step>)
    requires IsRun(c, Initial(PendingIndices(states, |states|)), steps)
    ensures |steps| <= (2 * c.maxAttempts + 2) * |PendingIndices(states, |states|)|
    ensures var s := Run(c, Initial(PendingIndices(states, |states|)), steps);
            && (forall x: nat | !IsPending(states, x) :: Runs(s.taken, x) == 0)
            && (forall x: nat | IsPending(states, x) :: Runs(s.taken, x) <= c.maxAttempts + 1)
            && (s.queue == [] && s.flight == [] ==> forall x: nat | IsPending(states, x) :: Runs(s.taken, x) >= 1)
  {
    SchedulerTheorem(c, PendingIndices(states, |states|), steps);
  }

  /** The invariant bounds the runs of one site. */
  lemma IndexBounds(c: Config, pending: seq<nat>, flight: Sites, queue: Sites, taken: Sites, x: nat)
    requires Accounted(c, pending, flight, queue, taken)
    ensures if x in pending then Runs(taken, x) <= c.maxAttempts + 1 else Runs(taken, x) == 0
    ensures x in pending && flight == [] && queue == [] ==> Runs(taken, x) >= 1
    ensures Runs(flight + queue, x) <= 1
  {
    assert IndexWell(c, pending, flight, queue, taken, x);
    RunsJoin(flight, queue, x);
    if Runs(flight, x) >= 1 {
      var site := CountedMember(flight, x);
      assert SiteWell(c, site, true, taken);
    } else if Runs(queue, x) >= 1 {
      var site := CountedMember(queue, x);
      assert SiteWell(c, site, false, taken);
    }
  }

  /** A counted site is in the list. */
  lemma {:induction false} CountedMember(sites: Sites, x: nat) returns (site: ScheduledSite)
    requires Runs(sites, x) >= 1
    ensures site in sites && site.index == x
  {
    var front, last := sites[..|sites| - 1], sites[|sites| - 1];
    if last.index == x {
      site := last;
    } else {
      site := CountedMember(front, x);
    }
  }

  lemma InvBounds(c: Config, pending: seq<nat>, s: State)
    requires Inv(c, pending, s)
    ensures DistinctIndices(Held(s))
    ensures forall x: nat | x !in pending :: Runs(s.taken, x) == 0
    ensures forall x: nat | x in pending :: Runs(s.taken, x) <= c.maxAttempts + 1
    ensures s.queue == [] && s.flight == [] ==> forall x: nat | x in pending :: Runs(s.taken, x) >= 1
  {
    forall x: nat
      ensures if x in pending then Runs(s.taken, x) <= c.maxAttempts + 1 else Runs(s.taken, x) == 0
      ensures x in pending && s.queue == [] && s.flight == [] ==> Runs(s.taken, x) >= 1
    {
      IndexBounds(c, pending, s.flight, s.queue, s.taken, x);
    }
    forall x: nat
      ensures Runs(Held(s), x) <= 1
    {
      IndexBounds(c, pending, s.flight, s.queue, s.taken, x);
    }
    OnceIsDistinct(Held(s));
  }

  /** Every reported site failed retryably and was passed to `retry`. */
  ghost predicate AlwaysRetried(steps: seq<Step>) {
    forall i | 0 <= i < |steps| && steps[i].Report? :: FailsRetryably(steps[i])
  }

  ghost predicate FailsRetryably(step: Step) {
    step.Report? && step.retry && exists i :: 0 <= i < |step.failures| && Retryable(step.failures[i])
  }

  ghost predicate ExhaustedAt(c: Config, pending: seq<nat>, flight: Sites, queue: Sites, taken: Sites, x: nat) {
    x in pending && Runs(flight, x) + Runs(queue, x) == 0 ==> Runs(taken, x) == c.maxAttempts + 1
  }

  /** A pending site no longer held has used up all its attempts. */
  ghost predicate Exhausted(c: Config, pending: seq<nat>, s: State) {
    forall x: nat :: ExhaustedAt(c, pending, s.flight, s.queue, s.taken, x)
  }

  lemma TakeExhausted(c: Config, pending: seq<nat>, s: State, t: State)
    requires Exhausted(c, pending, s) && s.queue != [] && t == After(c, s, Take)
    ensures Exhausted(c, pending, t)
  {
    var n := BatchSize(c, s.queue);
    var batch := s.queue[..n];
    assert s.queue == batch + s.queue[n..];
    forall x: nat
      ensures ExhaustedAt(c, pending, t.flight, t.queue, t.taken, x)
    {
      assert ExhaustedAt(c, pending, s.flight, s.queue, s.taken, x);
      RunsJoin(s.flight, batch, x);
      RunsJoin(batch, s.queue[n..], x);
      RunsJoin(s.taken, batch, x);
    }
  }

  /** A reported site is queued again, or has used up its attempts. */
  lemma ReportExhausted(c: Config, pending: seq<nat>, s: State, step: Step, t: State)
    requires Inv(c, pending, s) && Exhausted(c, pending, s) && FailsRetryably(step)
    requires Enabled(s, step) && t == After(c, s, step)
    ensures Exhausted(c, pending, t)
  {
    var front, site, back := s.flight[..step.at], s.flight[step.at], s.flight[step.at + 1..];
    var again := ScheduledSite(site.index, site.attempt + 1);
    Around(s.flight, step.at);
    assert SiteWell(c, site, true, s.taken);
    forall x: nat
      ensures ExhaustedAt(c, pending, t.flight, t.queue, t.taken, x)
    {
      assert ExhaustedAt(c, pending, s.flight, s.queue, s.taken, x);
      RunsWithout(front, site, back, x);
      RunsJoin(s.queue, [again], x);
      RunsOne(again, x);
    }
  }

  lemma {:induction false} RunExhausted(c: Config, pending: seq<nat>, s: State, steps: seq<Step>)
    requires Inv(c, pending, s) && Exhausted(c, pending, s) && IsRun(c, s, steps) && AlwaysRetried(steps)
    ensures Exhausted(c, pending, Run(c, s, steps))
    decreases steps
  {
    if steps == [] {
    } else {
      StepInv(c, pending, s, steps[0]);
      if steps[0].Take? {
        TakeExhausted(c, pending, s, After(c, s, steps[0]));
      } else {
        ReportExhausted(c, pending, s, steps[0], After(c, s, steps[0]));
      }
      RunExhausted(c, pending, After(c, s, steps[0]), steps[1..]);
    }
  }

  /** The bound is tight: when every run fails retryably and is reported, a
      finished scheduler has run each pending site exactly `maxAttempts + 1` times. */
  lemma PersistentFailureUsesEveryAttempt(c: Config, pending: seq<nat>, steps: seq<Step>)
    requires Distinct(pending) && IsRun(c, Initial(pending), steps) && AlwaysRetried(steps)
    requires Held(Run(c, Initial(pending), steps)) == []
    ensures forall x: nat | x in pending :: Runs(Run(c, Initial(pending), steps).taken, x) == c.maxAttempts + 1
  {
    var s, t := Initial(pending), Run(c, Initial(pending), steps);
    InitialInv(c, pending);
    forall x: nat
      ensures ExhaustedAt(c, pending, s.flight, s.queue, s.taken, x)
    {
      FirstRuns(pending, x);
    }
    RunExhausted(c, pending, s, steps);
    assert t.flight == [] && t.queue == [];
    forall x: nat | x in pending
      ensures Runs(t.taken, x) == c.maxAttempts + 1
    {
      assert ExhaustedAt(c, pending, t.flight, t.queue, t.taken, x);
    }
  }

  /** Retries in plain terms. */
  lemma RetryIff(maxAttempts: nat, attempt: nat, failures: seq<FailureCategory>)
    ensures ShouldRetry(maxAttempts, attempt, failures) <==>
            attempt < maxAttempts && (Timeout in failures || Hang in failures || Crash in failures)
  {
    forall category | category in failures
      ensures exists i :: 0 <= i < |failures| && failures[i] == category
    {
    }
  }

  lemma FirstAttemptsAre(states: seq<Option<CorpusState>>)
    ensures var queue := FirstAttempts(PendingIndices(states, |states|));
            && (forall site :: site in queue <==> site.attempt == 0 && IsPending(states, site.index))
            && forall i, j | 0 <= i < j < |queue| :: queue[i].index < queue[j].index
  {
    var pending := PendingIndices(states, |states|);
    var queue := FirstAttempts(pending);
    forall site: ScheduledSite | site.attempt == 0 && IsPending(states, site.index)
      ensures site in queue
    {
      assert site.index in pending;
      var i :| 0 <= i < |pending| && pending[i] == site.index;
      assert queue[i] == site;
    }
    forall site | site in queue
      ensures site.attempt == 0 && IsPending(states, site.index)
    {
      var i :| 0 <= i < |queue| && queue[i] == site;
      assert pending[i] in pending;
    }
  }

  /** A batch never exceeds the workers, and only the last one is smaller. */
  lemma BatchesFillWorkers(c: Config, s: State)
    requires s.queue != []
    ensures var t, workers := After(c, s, Take), if c.workers == 0 then 1 else c.workers;
            && s.queue == t.flight[|s.flight|..] + t.queue && t.flight[..|s.flight|] == s.flight
            && 1 <= |t.flight| - |s.flight| <= workers
            && (t.queue != [] ==> |t.flight| - |s.flight| == workers)
            && t.taken == s.taken + t.flight[|s.flight|..]
  {
  }

  // ---------------------------------------------------------- implementation

  class RunScheduler {
    const config: Config
    var queue: Sites

    constructor FromRun(states: seq<Option<CorpusState>>, config: Config)
      ensures this.config == config && queue == FirstAttempts(PendingIndices(states, |states|))
      ensures forall site :: site in queue <==>
                && site.attempt == 0 && site.index < |states|
                && states[site.index] in {Some(CorpusState.Pending), Some(RetryPending)}
      ensures forall i, j | 0 <= i < j < |queue| :: queue[i].index < queue[j].index
    {
      this.config := config;
      queue := FirstAttempts(PendingIndices(states, |states|));
      FirstAttemptsAre(states);
    }

    method NextBatch() returns (batch: Sites)
      modifies this
      ensures batch == old(queue)[..BatchSize(config, old(queue))] && old(queue) == batch + queue
      ensures old(queue) != [] ==> batch != []
      ensures |batch| <= (if config.workers == 0 then 1 else config.workers)
      ensures queue != [] ==> |batch| == if config.workers == 0 then 1 else config.workers
    {
      var count := Min(Max(config.workers, 1), |queue|);
      batch := queue[..count];
      queue := queue[count..];
    }

    method Retry(site: ScheduledSite, failures: seq<FailureCategory>)
      modifies this
      ensures queue == Requeued(config, old(queue), site, failures)
      ensures var again := Timeout in failures || Hang in failures || Crash in failures;
              queue == old(queue) + if again && site.attempt < config.maxAttempts
                                    then [ScheduledSite(site.index, site.attempt + 1)] else []
    {
      RetryIff(config.maxAttempts, site.attempt, failures);
      if ShouldRetry(config.maxAttempts, site.attempt, failures) {
        queue := queue + [ScheduledSite(site.index, site.attempt + 1)];
      }
    }
  }
}
