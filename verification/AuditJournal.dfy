/** The hash-chained audit journal. */
module AuditJournal {

  /** Audit events are opaque here. */
  datatype AuditEvent = AuditEvent(kind: string, detail: string)

  datatype Record = Record(
    sequence: nat, auditId: string, event: AuditEvent, previousIntegrity: nat, integrity: nat)

  /** The integrity function over sequence, id, event and previous integrity. */
  type Integrity = (nat, string, AuditEvent, nat) -> nat

  function Seal(hash: Integrity, sequence: nat, auditId: string, event: AuditEvent, previous: nat): Record {
    Record(sequence, auditId, event, previous, hash(sequence, auditId, event, previous))
  }

  function LastIntegrity(records: seq<Record>): nat {
    if records == [] then 0 else records[|records| - 1].integrity
  }

  // ----------------------------------------------------------- specification

  /** Record `i` is numbered `i`, links to its predecessor and carries the hash of
      its own contents. */
  ghost predicate LinkedAt(hash: Integrity, records: seq<Record>, i: nat)
    requires i < |records|
  {
    && records[i].sequence == i
    && records[i].previousIntegrity == LastIntegrity(records[..i])
    && records[i].integrity == hash(i, records[i].auditId, records[i].event, records[i].previousIntegrity)
  }

  ghost predicate Chained(hash: Integrity, records: seq<Record>) {
    forall i | 0 <= i < |records| :: LinkedAt(hash, records, i)
  }

  /** What a journal says, apart from its chain. */
  function Contents(records: seq<Record>): seq<(string, AuditEvent)> {
    seq(|records|, i requires 0 <= i < |records| => (records[i].auditId, records[i].event))
  }

  ghost predicate Injective(hash: Integrity) {
    forall s, a, e, p, s', a', e', p' | hash(s, a, e, p) == hash(s', a', e', p') ::
      s == s' && a == a' && e == e' && p == p'
  }

  // -------------------------------------------------------------------- laws

  lemma ChainedPrefix(hash: Integrity, records: seq<Record>, n: nat)
    requires Chained(hash, records) && n <= |records|
    ensures Chained(hash, records[..n])
  {
    forall i | 0 <= i < n
      ensures LinkedAt(hash, records[..n], i)
    {
      assert LinkedAt(hash, records, i);
      assert records[..n][..i] == records[..i];
    }
  }

  lemma ChainedAppend(hash: Integrity, records: seq<Record>, auditId: string, event: AuditEvent)
    requires Chained(hash, records)
    ensures Chained(hash, records + [Seal(hash, |records|, auditId, event, LastIntegrity(records))])
  {
    var longer := records + [Seal(hash, |records|, auditId, event, LastIntegrity(records))];
    forall i | 0 <= i < |longer|
      ensures LinkedAt(hash, longer, i)
    {
      assert longer[..i] == records[..i];
      if i < |records| {
        assert LinkedAt(hash, records, i);
      } else {
        assert records[..i] == records;
      }
    }
  }

  /** Two records of the journals seal different contents with one hash. */
  ghost predicate Collision(a: seq<Record>, b: seq<Record>) {
    exists i, j :: 0 <= i < |a| && 0 <= j < |b| && Collide(a[i], b[j])
  }

  predicate Collide(x: Record, y: Record) {
    && x.integrity == y.integrity
    && (x.sequence, x.auditId, x.event, x.previousIntegrity) != (y.sequence, y.auditId, y.event, y.previousIntegrity)
  }

  /** For any integrity function: two nonempty journals that verify and end alike
      are identical, or exhibit a collision of that function. */
  lemma {:induction false} ChainOrCollision(hash: Integrity, a: seq<Record>, b: seq<Record>)
    requires Chained(hash, a) && Chained(hash, b) && a != [] && b != []
    requires LastIntegrity(a) == LastIntegrity(b)
    ensures a == b || Collision(a, b)
    decreases |a|
  {
    var x, y := a[|a| - 1], b[|b| - 1];
    assert LinkedAt(hash, a, |a| - 1) && LinkedAt(hash, b, |b| - 1);
    if !Collide(x, y) {
      assert x == y && |a| == |b|;
      var front, front' := a[..|a| - 1], b[..|b| - 1];
      assert a == front + [x] && b == front' + [y];
      if |a| > 1 {
        ChainedPrefix(hash, a, |a| - 1);
        ChainedPrefix(hash, b, |b| - 1);
        ChainOrCollision(hash, front, front');
        if Collision(front, front') {
          var i, j :| 0 <= i < |front| && 0 <= j < |front'| && Collide(front[i], front'[j]);
          assert Collide(a[i], b[j]);
        }
      }
    }
  }

  /** Under an injective integrity function the last integrity pins the whole
      journal. */
  lemma ChainDeterminesJournal(hash: Integrity, a: seq<Record>, b: seq<Record>)
    requires Injective(hash) && Chained(hash, a) && Chained(hash, b) && a != [] && b != []
    requires LastIntegrity(a) == LastIntegrity(b)
    ensures a == b
  {
    ChainOrCollision(hash, a, b);
    if Collision(a, b) {
      var i, j :| 0 <= i < |a| && 0 <= j < |b| && Collide(a[i], b[j]);
      assert LinkedAt(hash, a, i) && LinkedAt(hash, b, j);
    }
  }

  // ---------------------------------------------------------- implementation

  class Journal {
    const hash: Integrity
    var records: seq<Record>
    var nextSequence: nat

    /** The journal as `append` and `retain_last` leave it. */
    ghost predicate Intact()
      reads this
    {
      Chained(hash, records) && nextSequence == |records|
    }

    constructor (hash: Integrity)
      ensures this.hash == hash && records == [] && Intact()
    {
      this.hash, records, nextSequence := hash, [], 0;
    }

    /** Adds a sealed record; the journal verifies afterwards exactly if it did
        before. */
    method Append(auditId: string, event: AuditEvent) returns (record: Record)
      modifies this
      ensures record == Seal(hash, old(nextSequence), auditId, event, LastIntegrity(old(records)))
      ensures records == old(records) + [record] && nextSequence == old(nextSequence) + 1
      ensures Contents(records) == Contents(old(records)) + [(auditId, event)]
      ensures Intact() <==> old(Intact())
    {
      var previous := if records == [] then 0 else records[|records| - 1].integrity;
      record := Seal(hash, nextSequence, auditId, event, previous);
      if Intact() {
        ChainedAppend(hash, records, auditId, event);
      }
      nextSequence := nextSequence + 1;
      records := records + [record];
      if Intact() {
        ChainedPrefix(hash, records, |records| - 1);
        assert records[..|records| - 1] == old(records);
      }
    }

    /** Keeps the last records' ids and events in order and chains them anew.  When
        it removes anything the result verifies, whatever was there before. */
    method RetainLast(maxRecords: nat) returns (removed: nat)
      modifies this
      ensures Intact() <==> removed > 0 || old(Intact())
      ensures removed == if |old(records)| > maxRecords then |old(records)| - maxRecords else 0
      ensures Contents(records) == Contents(old(records))[removed..]
      ensures removed == 0 ==> records == old(records) && nextSequence == old(nextSequence)
    {
      removed := if |records| > maxRecords then |records| - maxRecords else 0;
      if removed == 0 {
        return;
      }
      var kept := records[removed..];
      var chained: seq<Record> := [];
      var previous := 0;
      for sequence := 0 to |kept|
        invariant Chained(hash, chained) && |chained| == sequence && previous == LastIntegrity(chained)
        invariant Contents(chained) == Contents(kept)[..sequence]
      {
        ChainedAppend(hash, chained, kept[sequence].auditId, kept[sequence].event);
        chained := chained + [Seal(hash, sequence, kept[sequence].auditId, kept[sequence].event, previous)];
        previous := chained[sequence].integrity;
      }
      records := chained;
      nextSequence := |records|;
    }

    /** Verification accepts exactly the intact journals. */
    method VerifyIntegrity() returns (ok: bool)
      ensures ok <==> Intact()
    {
      var previous := 0;
      for i := 0 to |records|
        invariant previous == LastIntegrity(records[..i])
        invariant forall k | 0 <= k < i :: LinkedAt(hash, records, k)
      {
        var record := records[i];
        if record.sequence != i || record.previousIntegrity != previous ||
           hash(record.sequence, record.auditId, record.event, record.previousIntegrity) != record.integrity {
          assert !LinkedAt(hash, records, i);
          return false;
        }
        previous := record.integrity;
      }
      ok := nextSequence == |records|;
    }
  }
}
