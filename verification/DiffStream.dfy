/** The bounded, coalescing stream of incremental diffs. */
module DiffStream {
  import opened Common

  /** Diff operations are opaque here. */
  type DiffOp = int

  datatype IncrementalDiff = IncrementalDiff(sequence: nat, generation: nat, operations: seq<DiffOp>)

  type Log = seq<IncrementalDiff>

  // ----------------------------------------------------------- specification

  /** A publish put before a log: it joins the first entry of its generation. */
  ghost function Prepend(p: IncrementalDiff, log: Log): Log {
    if log != [] && log[0].generation == p.generation then
      [p.(operations := p.operations + log[0].operations)] + log[1..]
    else [p] + log
  }

  /** The unbounded log: each maximal run of publishes with one generation becomes
      one entry, under the run's first sequence number. */
  ghost function Merged(published: Log): Log {
    if published == [] then [] else Prepend(published[0], Merged(published[1..]))
  }

  ghost function Operations(log: Log): seq<DiffOp> {
    if log == [] then [] else log[0].operations + Operations(log[1..])
  }

  ghost predicate Increasing(log: Log) {
    forall i, j | 0 <= i < j < |log| :: log[i].sequence < log[j].sequence
  }

  /** What merging means: no operation is lost or reordered, neighbouring entries
      have different generations and sequence numbers still increase. */
  lemma {:induction false} MergedMeaning(published: Log)
    ensures Operations(Merged(published)) == Operations(published)
    ensures forall i | 0 < i < |Merged(published)| ::
              Merged(published)[i - 1].generation != Merged(published)[i].generation
    ensures Increasing(published) ==> Increasing(Merged(published))
    ensures published != [] ==> Merged(published) != [] && Merged(published)[0].sequence == published[0].sequence
  {
    if published == [] {
    } else {
      var p, rest := published[0], published[1..];
      MergedMeaning(rest);
      PrependOperations(p, Merged(rest));
      if Increasing(published) {
        assert Increasing(rest);
        assert rest != [] ==> p.sequence < rest[0].sequence;
        PrependIncreasing(p, Merged(rest));
      }
    }
  }

  lemma PrependOperations(p: IncrementalDiff, log: Log)
    ensures Operations(Prepend(p, log)) == p.operations + Operations(log)
  {
    if log != [] && log[0].generation == p.generation {
      var first := p.(operations := p.operations + log[0].operations);
      assert ([first] + log[1..])[1..] == log[1..];
    } else {
      assert ([p] + log)[1..] == log;
    }
  }

  lemma PrependIncreasing(p: IncrementalDiff, log: Log)
    requires Increasing(log) && (log != [] ==> p.sequence < log[0].sequence)
    ensures Increasing(Prepend(p, log))
  {
    forall i | 0 < i < |log|
      ensures p.sequence < log[i].sequence
    {
    }
  }

  /** How the unbounded log grows by one publish. */
  ghost function Extended(log: Log, p: IncrementalDiff): Log {
    if log != [] && log[|log| - 1].generation == p.generation then
      log[..|log| - 1] + [log[|log| - 1].(operations := log[|log| - 1].operations + p.operations)]
    else log + [p]
  }

  lemma PrependExtended(a: IncrementalDiff, log: Log, p: IncrementalDiff)
    ensures Extended(Prepend(a, log), p) == Prepend(a, Extended(log, p))
  {
    if log == [] {
    } else if |log| == 1 {
      assert a.operations + (log[0].operations + p.operations) == a.operations + log[0].operations + p.operations;
    } else {
      assert Extended(log, p)[0] == log[0] && Extended(log, p)[1..] == Extended(log[1..], p);
    }
  }

  /** Coalescing with the last entry is merging runs. */
  lemma {:induction false} MergedGrows(published: Log, p: IncrementalDiff)
    ensures Merged(published + [p]) == Extended(Merged(published), p)
  {
    var all := published + [p];
    if published == [] {
      assert all[1..] == [];
    } else {
      assert all[0] == published[0] && all[1..] == published[1..] + [p];
      MergedGrows(published[1..], p);
      PrependExtended(published[0], Merged(published[1..]), p);
    }
  }

  /** Publishes carry increasing sequence numbers below `next`. */
  ghost predicate Numbered(published: Log, next: nat) {
    Increasing(published) && forall i | 0 <= i < |published| :: published[i].sequence < next
  }

  lemma NumberedGrows(published: Log, next: nat, p: IncrementalDiff)
    requires Numbered(published, next) && p.sequence == next
    ensures Numbered(published + [p], next + 1)
  {
  }

  // ---------------------------------------------------------- implementation

  class Stream {
    var capacity: nat
    var nextSequence: nat
    var dropped: nat
    var entries: Log
    /** Every publish since the last drain. */
    ghost var published: Log

    /** The retained entries are the longest suffix of the unbounded log that fits
        the capacity, and `dropped` counts the entries missing from it. */
    ghost predicate Valid()
      reads this
    {
      && capacity >= 1
      && entries == LastN(Merged(published), capacity)
      && dropped == |Merged(published)| - |entries|
      && Numbered(published, nextSequence)
    }

    constructor Bounded(n: nat)
      ensures Valid() && published == [] && nextSequence == 0 && capacity == Max(n, 1)
    {
      capacity, nextSequence, dropped, entries, published := Max(n, 1), 0, 0, [], [];
    }

    /** Publishes operations; returns the sequence number of the entry that holds
        them. */
    method Publish(generation: nat, operations: seq<DiffOp>) returns (sequence: nat)
      requires Valid()
      modifies this
      ensures Valid() && capacity == old(capacity) && nextSequence == old(nextSequence) + 1
      ensures published == old(published) + [IncrementalDiff(old(nextSequence), generation, operations)]
      ensures entries != [] && sequence == entries[|entries| - 1].sequence
      ensures entries[|entries| - 1].generation == generation
    {
      var diff := IncrementalDiff(nextSequence, generation, operations);
      StepFacts(published, diff, capacity);
      NumberedGrows(published, nextSequence, diff);
      published := published + [diff];
      nextSequence := nextSequence + 1;
      if entries != [] && entries[|entries| - 1].generation == generation {
        var last := entries[|entries| - 1];
        entries := entries[..|entries| - 1] + [last.(operations := last.operations + operations)];
        return last.sequence;
      }
      if |entries| == capacity {
        entries := entries[1..];
        dropped := dropped + 1;
      }
      entries := entries + [diff];
      sequence := diff.sequence;
    }

    /** Drains the stream; after an overflow the entries are given up and the loss
        is reported. */
    method Drain() returns (r: Result<Log, nat>)
      requires Valid()
      modifies this
      ensures Valid() && published == [] && capacity == old(capacity) && nextSequence == old(nextSequence)
      ensures var log := Merged(old(published));
              r == if |log| <= capacity then Ok(log) else Err(|log| - capacity)
    {
      var drained, lost := entries, dropped;
      entries, dropped, published := [], 0, [];
      r := if lost == 0 then Ok(drained) else Err(lost);
    }

    method DrainWithLoss() returns (drained: Log, lost: nat)
      requires Valid()
      modifies this
      ensures Valid() && published == [] && capacity == old(capacity) && nextSequence == old(nextSequence)
      ensures drained == LastN(Merged(old(published)), capacity)
      ensures lost + |drained| == |Merged(old(published))|
    {
      drained, lost := entries, dropped;
      entries, dropped, published := [], 0, [];
    }

    /** What a replay shows: strictly increasing sequence numbers. */
    method Replay() returns (log: Log)
      requires Valid()
      ensures log == LastN(Merged(published), capacity) && Increasing(log)
    {
      MergedMeaning(published);
      log := entries;
    }
  }

  lemma StepFacts(published: Log, diff: IncrementalDiff, capacity: nat)
    requires capacity >= 1
    ensures var log, kept := Merged(published + [diff]), LastN(Merged(published), capacity);
            if kept != [] && kept[|kept| - 1].generation == diff.generation
            then LastN(log, capacity) == Extended(kept, diff) && |log| == |Merged(published)|
            else LastN(log, capacity) == (if |kept| == capacity then kept[1..] else kept) + [diff]
                 && |log| == |Merged(published)| + 1
  {
    MergedGrows(published, diff);
    SuffixGrows(Merged(published), diff, capacity);
  }

  /** Growing the log and cutting to the capacity can be done in either order. */
  lemma {:induction false} SuffixGrows(log: Log, p: IncrementalDiff, n: nat)
    requires n >= 1
    ensures var kept := LastN(log, n);
            if kept != [] && kept[|kept| - 1].generation == p.generation
            then LastN(Extended(log, p), n) == Extended(kept, p) && |Extended(log, p)| == |log|
            else LastN(Extended(log, p), n) == (if |kept| == n then kept[1..] else kept) + [p]
                 && |Extended(log, p)| == |log| + 1
  {
    if log != [] {
      var last := log[|log| - 1];
      assert LastN(log, n)[|LastN(log, n)| - 1] == last;
      if last.generation == p.generation {
        LastNReplace(log, last.(operations := last.operations + p.operations), n);
      } else {
        LastNPush(log, p, n);
      }
    }
  }

  lemma LastNReplace(log: Log, e: IncrementalDiff, n: nat)
    requires n >= 1 && log != []
    ensures LastN(log[..|log| - 1] + [e], n) == LastN(log, n)[..|LastN(log, n)| - 1] + [e]
  {
    if |log| > n {
      assert (log[..|log| - 1] + [e])[|log| - n..] == log[|log| - n..][..n - 1] + [e];
    }
  }

  lemma LastNPush(log: Log, p: IncrementalDiff, n: nat)
    requires n >= 1
    ensures LastN(log + [p], n) == (if |LastN(log, n)| == n then LastN(log, n)[1..] else LastN(log, n)) + [p]
  {
    if |log| >= n {
      assert (log + [p])[|log| + 1 - n..] == log[|log| - n..][1..] + [p];
      assert LastN(log, n) == log[|log| - n..];
    }
  }
}
