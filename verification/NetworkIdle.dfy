/** The network-idle wait: a polling loop against a clock. */
module NetworkIdle {
  import opened Common

  /** One reading of the page's counters; a missing field was not reported. */
  datatype Poll = Poll(
    inFlight: Option<int>, images: Option<int>, readyState: Option<string>, lastMutationMs: Option<real>,
    scrollComplete: Option<bool>, wallClockMs: real)

  function OrElse<T>(o: Option<T>, default: T): T {
    match o
    case Some(v) => v
    case None => default
  }

  /** The five quiet conditions. */
  predicate Quiet(p: Poll, quietFloorMs: nat) {
    && OrElse(p.scrollComplete, false)
    && OrElse(p.inFlight, 0) == 0
    && OrElse(p.images, 0) == 0
    && OrElse(p.readyState, "loading") == "complete"
    && p.wallClockMs - OrElse(p.lastMutationMs, 0.0) >= quietFloorMs as real
  }

  /** The shortest time one iteration takes: ten spins of 2 ms and a 50 ms nap. */
  const ITERATION_MS := 70

  /** The environment of a wait, per iteration: the monotonic clock (in
      milliseconds since the start) at the top of the loop, when a poll is judged
      and when its idle time is read, and the poll itself. */
  datatype Environment = Environment(
    top: nat -> real, judged: nat -> real, measured: nat -> real, poll: nat -> Poll)

  /** Clocks do not run back and sleeps last at least as long as asked. */
  ghost predicate Timely(e: Environment) {
    e.top(0) >= 0.0 && forall i: nat :: TimelyAt(e, i)
  }

  ghost predicate TimelyAt(e: Environment, i: nat) {
    e.top(i) + 20.0 <= e.judged(i) <= e.measured(i) && e.measured(i) + 50.0 <= e.top(i + 1)
  }

  /** The limits in force once the arguments are widened. */
  datatype Bounds = Bounds(maxMs: nat, idleMs: nat, quietFloorMs: nat)

  function EffectiveBounds(idleMs: nat, graceMs: nat, maxMs: nat): Bounds {
    var floor := SatAdd(idleMs, graceMs);
    Bounds(Max(Max(maxMs, floor), 1), Max(idleMs, 50), floor)
  }

  /** The effective maximum is the greatest of the asked maximum, the quiet floor
      and one millisecond; the idle time is at least fifty. */
  lemma BoundsAreWidened(idleMs: nat, graceMs: nat, maxMs: nat)
    ensures var b := EffectiveBounds(idleMs, graceMs, maxMs);
            && b.quietFloorMs == (if idleMs + graceMs <= U64_MAX then idleMs + graceMs else U64_MAX)
            && b.maxMs >= maxMs && b.maxMs >= b.quietFloorMs && b.maxMs >= 1
            && (b.maxMs == maxMs || b.maxMs == b.quietFloorMs || b.maxMs == 1)
            && b.idleMs >= idleMs && b.idleMs >= 50 && (b.idleMs == idleMs || b.idleMs == 50)
  {
  }

  /** Quiet in plain terms: scrolled, nothing loading, the document complete, and
      the last mutation long enough ago; unreported counters count as zero. */
  lemma QuietIff(p: Poll, floor: nat)
    ensures Quiet(p, floor) <==>
            && p.scrollComplete == Some(true) && p.inFlight in {None, Some(0)} && p.images in {None, Some(0)}
            && p.readyState == Some("complete")
            && (p.lastMutationMs.Some? ==> p.wallClockMs >= p.lastMutationMs.value + floor as real)
            && (p.lastMutationMs.None? ==> p.wallClockMs >= floor as real)
  {
  }

  /** Polls `from..to` were all quiet and span at least the idle time. */
  ghost predicate QuietSpan(e: Environment, b: Bounds, from: nat, to: nat) {
    && from <= to
    && (forall i | from <= i <= to :: Quiet(e.poll(i), b.quietFloorMs))
    && e.measured(to) - e.judged(from) >= b.idleMs as real
  }

  /** Where the current unbroken run of quiet polls started, before iteration `i`. */
  ghost predicate RunStart(e: Environment, b: Bounds, from: nat, i: nat) {
    && from < i
    && (forall k | from <= k < i :: Quiet(e.poll(k), b.quietFloorMs))
    && (from > 0 ==> !Quiet(e.poll(from - 1), b.quietFloorMs))
  }

  lemma {:induction false} TopAdvances(e: Environment, i: nat)
    requires Timely(e)
    ensures e.top(i) >= (ITERATION_MS * i) as real
  {
    if i == 0 {
    } else {
      TopAdvances(e, i - 1);
      assert TimelyAt(e, i - 1);
    }
  }

  lemma {:induction false} JudgedAdvances(e: Environment, i: nat, j: nat)
    requires Timely(e) && i <= j
    ensures e.judged(i) <= e.judged(j)
    decreases j - i
  {
    if i == j {
    } else {
      assert TimelyAt(e, i) && TimelyAt(e, i + 1);
      JudgedAdvances(e, i + 1, j);
    }
  }

  /** No poll before iteration `n` came too late or ended a quiet span. */
  ghost predicate StillWaiting(e: Environment, b: Bounds, n: nat) {
    forall i: nat | i < n :: WaitsAt(e, b, i)
  }

  ghost predicate WaitsAt(e: Environment, b: Bounds, i: nat) {
    e.top(i) < b.maxMs as real && !EndsSpan(e, b, i)
  }

  ghost predicate EndsSpan(e: Environment, b: Bounds, i: nat) {
    exists from: nat :: QuietSpan(e, b, from, i)
  }

  /**
   * Waits until the page has been quiet for the idle time or the maximum is over.
   * The loop ends by iteration `maxMs / 70 + 1`; it ends early exactly at the first
   * iteration that closes an unbroken run of quiet polls spanning the idle time.
   */
  method WaitForNetworkIdle(e: Environment, idleMs: nat, graceMs: nat, maxMs: nat)
    returns (timedOut: bool, last: nat)
    requires Timely(e)
    ensures var b := EffectiveBounds(idleMs, graceMs, maxMs);
            && ITERATION_MS * last < b.maxMs + ITERATION_MS
            && StillWaiting(e, b, last)
            && (timedOut <==> e.top(last) >= b.maxMs as real)
            && (!timedOut ==> EndsSpan(e, b, last))
  {
    timedOut, last := PollUntilIdle(e, EffectiveBounds(idleMs, graceMs, maxMs));
  }

  method PollUntilIdle(e: Environment, b: Bounds) returns (timedOut: bool, last: nat)
    requires Timely(e) && b.maxMs >= 1
    ensures ITERATION_MS * last < b.maxMs + ITERATION_MS && StillWaiting(e, b, last)
    ensures timedOut <==> e.top(last) >= b.maxMs as real
    ensures !timedOut ==> EndsSpan(e, b, last)
  {
    var idleSince: Option<real> := None;
    ghost var from := 0;
    last := 0;
    while true
      invariant StillWaiting(e, b, last)
      invariant ITERATION_MS * last < b.maxMs + ITERATION_MS
      invariant idleSince.Some? ==> RunStart(e, b, from, last) && idleSince.value == e.judged(from)
      invariant idleSince.None? && last > 0 ==> !Quiet(e.poll(last - 1), b.quietFloorMs)
      decreases b.maxMs + ITERATION_MS - ITERATION_MS * last
    {
      TopAdvances(e, last);
      if e.top(last) >= b.maxMs as real {
        return true, last;
      }
      if Quiet(e.poll(last), b.quietFloorMs) {
        if idleSince.None? {
          idleSince, from := Some(e.judged(last)), last;
        }
        if e.measured(last) - idleSince.value >= b.idleMs as real {
          assert QuietSpan(e, b, from, last);
          return false, last;
        }
        SpanTooShort(e, b, from, last);
      } else {
        idleSince := None;
        NoisyEndsNothing(e, b, last);
      }
      assert WaitsAt(e, b, last);
      last := last + 1;
    }
  }

  lemma NoisyEndsNothing(e: Environment, b: Bounds, i: nat)
    requires !Quiet(e.poll(i), b.quietFloorMs)
    ensures !EndsSpan(e, b, i)
  {
  }

  lemma SpanTooShort(e: Environment, b: Bounds, from: nat, last: nat)
    requires Timely(e) && RunStart(e, b, from, last + 1)
    requires e.measured(last) - e.judged(from) < b.idleMs as real
    ensures !EndsSpan(e, b, last)
  {
    forall f: nat
      ensures !QuietSpan(e, b, f, last)
    {
      LaterStartIsShorter(e, b, f, from, last);
    }
  }

  /** No quiet span reaches further back than the run, and a later start only
      shortens it. */
  lemma LaterStartIsShorter(e: Environment, b: Bounds, f: nat, from: nat, last: nat)
    requires Timely(e) && RunStart(e, b, from, last + 1)
    requires e.measured(last) - e.judged(from) < b.idleMs as real
    ensures !QuietSpan(e, b, f, last)
  {
    if from <= f <= last {
      JudgedAdvances(e, from, f);
    }
  }
}
