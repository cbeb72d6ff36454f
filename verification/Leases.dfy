/** Leases: exclusive, expiring holds on pages and workspaces. */
module Leases {
  import opened Common

  datatype LeaseScope = PageScope(name: string) | WorkspaceScope(name: string)

  datatype Owner = Owner(name: string)

  /** Lease ids are UUIDs: plain numbers, drawn fresh. */
  type LeaseId = nat

  datatype Lease = Lease(id: LeaseId, owner: Owner, scope: LeaseScope, expiresAt: nat)

  datatype ProtocolError = LeaseHeld | LeaseNotFound | LeaseOwnerMismatch

  type Table = map<LeaseId, Lease>

  // ----------------------------------------------------------- specification

  function Unexpired(leases: Table, now: nat): Table {
    map id | id in leases && leases[id].expiresAt > now :: leases[id]
  }

  ghost predicate Holds(leases: Table, scope: LeaseScope) {
    exists id :: id in leases && leases[id].scope == scope
  }

  function Granted(id: LeaseId, owner: Owner, scope: LeaseScope, ttl: nat, now: nat): Lease {
    Lease(id, owner, scope, SatAdd(now, Max(ttl, 1)))
  }

  /** One call, at its tick; `id` is the id drawn should a lease be granted. */
  datatype Call =
    | Acquire(owner: Owner, scope: LeaseScope, ttl: nat, id: LeaseId, tick: nat)
    | Release(id: LeaseId, owner: Owner, tick: nat)
    | Active(tick: nat)

  ghost predicate Grants(leases: Table, call: Call) {
    call.Acquire? && !Holds(Unexpired(leases, call.tick), call.scope)
  }

  ghost predicate Releases(leases: Table, call: Call, id: LeaseId) {
    call.Release? && call.id == id && id in leases && leases[id].owner == call.owner
  }

  ghost function After(leases: Table, call: Call): Table {
    match call
    case Acquire(owner, scope, ttl, id, tick) =>
      var kept := Unexpired(leases, tick);
      if Holds(kept, scope) then kept else kept[id := Granted(id, owner, scope, ttl, tick)]
    case Release(id, owner, _) => if Releases(leases, call, id) then leases - {id} else leases
    case Active(tick) => Unexpired(leases, tick)
  }

  /** The table before call `n` of a run from an empty manager. */
  ghost function Before(calls: seq<Call>, n: nat): Table
    requires n <= |calls|
  {
    if n == 0 then map[] else After(Before(calls, n - 1), calls[n - 1])
  }

  /** Ticks never go back and every drawn id is new. */
  ghost predicate WellTimed(calls: seq<Call>) {
    && (forall i, j | 0 <= i < j < |calls| :: calls[i].tick <= calls[j].tick)
    && (forall i, j | 0 <= i < j < |calls| && calls[i].Acquire? && calls[j].Acquire? :: calls[i].id != calls[j].id)
  }

  /** Call `i` of the run was granted a lease. */
  ghost predicate GrantedAt(calls: seq<Call>, i: nat)
    requires i < |calls|
  {
    Grants(Before(calls, i), calls[i])
  }

  /** Call `k` of the run released the lease `id`. */
  ghost predicate ReleasedAt(calls: seq<Call>, k: nat, id: LeaseId)
    requires k < |calls|
  {
    Releases(Before(calls, k), calls[k], id)
  }

  ghost function Expiry(calls: seq<Call>, i: nat): nat
    requires i < |calls| && calls[i].Acquire?
  {
    SatAdd(calls[i].tick, Max(calls[i].ttl, 1))
  }

  /** Call `k` is a release of the lease acquired at call `i`, by its owner. */
  predicate OwnerReleases(calls: seq<Call>, i: nat, k: nat)
    requires i < |calls| && calls[i].Acquire? && k < |calls|
  {
    calls[k].Release? && calls[k].id == calls[i].id && calls[k].owner == calls[i].owner
  }

  /** The lease granted at call `i` is over before call `n` at tick `now`: its
      owner released it or its time has run out. */
  ghost predicate Ended(calls: seq<Call>, i: nat, n: nat, now: nat)
    requires i < n <= |calls| && calls[i].Acquire?
  {
    Expiry(calls, i) <= now || exists k :: i < k < n && OwnerReleases(calls, i, k)
  }

  // -------------------------------------------------------------------- laws

  ghost predicate OnePerScope(leases: Table) {
    forall a, b | a in leases && b in leases && leases[a].scope == leases[b].scope :: a == b
  }

  /** The stored lease `id` is the one granted at call `i`, not released since. */
  ghost predicate IsGrantOf(calls: seq<Call>, n: nat, id: LeaseId, i: nat)
    requires i < n <= |calls|
  {
    && calls[i].Acquire? && calls[i].id == id && GrantedAt(calls, i)
    && id in Before(calls, n)
    && Before(calls, n)[id] == Granted(id, calls[i].owner, calls[i].scope, calls[i].ttl, calls[i].tick)
    && forall k | i < k < n :: !OwnerReleases(calls, i, k)
  }

  /** No two stored leases ever share a scope. */
  lemma {:induction false} ScopesStayUnique(calls: seq<Call>, n: nat)
    requires n <= |calls|
    ensures OnePerScope(Before(calls, n))
  {
    if n == 0 {
    } else {
      ScopesStayUnique(calls, n - 1);
    }
  }

  /** Every stored lease is a grant of the run. */
  lemma {:induction false} TraceGrant(calls: seq<Call>, n: nat, id: LeaseId) returns (i: nat)
    requires n <= |calls| && id in Before(calls, n)
    ensures i < n && IsGrantOf(calls, n, id, i)
    decreases n
  {
    var call := calls[n - 1];
    if GrantedAt(calls, n - 1) && call.id == id {
      i := n - 1;
    } else {
      StoredBefore(calls, n, id);
      i := TraceGrant(calls, n - 1, id);
      assert !OwnerReleases(calls, i, n - 1);
    }
  }

  lemma StoredBefore(calls: seq<Call>, n: nat, id: LeaseId)
    requires 0 < n <= |calls| && id in Before(calls, n)
    requires !(GrantedAt(calls, n - 1) && calls[n - 1].id == id)
    ensures id in Before(calls, n - 1) && Before(calls, n)[id] == Before(calls, n - 1)[id]
    ensures !ReleasedAt(calls, n - 1, id)
  {
  }

  /** A grant that has not ended is still stored. */
  lemma {:induction false} UnendedIsStored(calls: seq<Call>, i: nat, n: nat, now: nat)
    requires WellTimed(calls) && i < n <= |calls| && GrantedAt(calls, i)
    requires forall k | 0 <= k < n :: calls[k].tick <= now
    requires !Ended(calls, i, n, now)
    ensures calls[i].id in Before(calls, n)
    ensures Before(calls, n)[calls[i].id] ==
            Granted(calls[i].id, calls[i].owner, calls[i].scope, calls[i].ttl, calls[i].tick)
    decreases n
  {
    if i == n - 1 {
    } else {
      UnendedIsStored(calls, i, n - 1, now);
      assert !OwnerReleases(calls, i, n - 1);
      assert calls[n - 1].tick <= now;
    }
  }

  /** A stored lease is released by a call of its owner and by no other. */
  lemma {:induction false} ReleasedByOwner(calls: seq<Call>, i: nat, k: nat)
    requires WellTimed(calls) && i < k < |calls| && GrantedAt(calls, i) && ReleasedAt(calls, k, calls[i].id)
    ensures calls[k] == Release(calls[i].id, calls[i].owner, calls[k].tick)
  {
    var j := TraceGrant(calls, k, calls[i].id);
    assert j == i;
  }

  /** A release that is unknown or by a stranger leaves every lease in place. */
  lemma ForeignReleaseChangesNothing(calls: seq<Call>, n: nat)
    requires n < |calls| && calls[n].Release?
    requires calls[n].id in Before(calls, n) ==> Before(calls, n)[calls[n].id].owner != calls[n].owner
    ensures Before(calls, n + 1) == Before(calls, n)
  {
  }

  lemma UnendedBlocks(calls: seq<Call>, i: nat, j: nat)
    requires WellTimed(calls) && i < j < |calls| && GrantedAt(calls, i) && calls[j].Acquire?
    requires calls[i].scope == calls[j].scope && !Ended(calls, i, j, calls[j].tick)
    ensures !GrantedAt(calls, j)
  {
    UnendedIsStored(calls, i, j, calls[j].tick);
    assert calls[i].id in Unexpired(Before(calls, j), calls[j].tick);
  }

  /** Mutual exclusion: an acquire is granted exactly when every earlier grant of
      its scope has ended by its tick. */
  lemma GrantedIffAllEnded(calls: seq<Call>, j: nat)
    requires WellTimed(calls) && j < |calls| && calls[j].Acquire?
    ensures GrantedAt(calls, j) <==>
            forall i | 0 <= i < j && GrantedAt(calls, i) && calls[i].scope == calls[j].scope ::
              Ended(calls, i, j, calls[j].tick)
  {
    var table, now := Before(calls, j), calls[j].tick;
    if GrantedAt(calls, j) {
      forall i | 0 <= i < j && GrantedAt(calls, i) && calls[i].scope == calls[j].scope
        ensures Ended(calls, i, j, now)
      {
        if !Ended(calls, i, j, now) {
          UnendedBlocks(calls, i, j);
        }
      }
    } else {
      var id :| id in Unexpired(table, now) && Unexpired(table, now)[id].scope == calls[j].scope;
      var i := TraceGrant(calls, j, id);
      assert GrantedAt(calls, i) && calls[i].scope == calls[j].scope && !Ended(calls, i, j, now);
    }
  }

  /** Listing the active leases shows exactly the grants that have not ended. */
  lemma ActiveIffNotEnded(calls: seq<Call>, n: nat, i: nat)
    requires WellTimed(calls) && i < n < |calls| && calls[n].Active? && GrantedAt(calls, i)
    ensures calls[i].id in Before(calls, n + 1) <==> !Ended(calls, i, n, calls[n].tick)
  {
    var now := calls[n].tick;
    if !Ended(calls, i, n, now) {
      UnendedIsStored(calls, i, n, now);
    }
    if calls[i].id in Before(calls, n + 1) {
      var j := TraceGrant(calls, n, calls[i].id);
      assert j == i;
    }
  }

  /** The tick at which the lease granted at call `i` stops holding, as far as the
      first `n` calls tell. */
  ghost function EndBy(calls: seq<Call>, i: nat, n: nat): nat
    requires i < n <= |calls| && calls[i].Acquire?
  {
    if n == i + 1 then Expiry(calls, i)
    else if OwnerReleases(calls, i, n - 1) then Min(EndBy(calls, i, n - 1), calls[n - 1].tick)
    else EndBy(calls, i, n - 1)
  }

  ghost function HoldEnd(calls: seq<Call>, i: nat): nat
    requires i < |calls| && calls[i].Acquire?
  {
    EndBy(calls, i, |calls|)
  }

  lemma {:induction false} EndByExpiry(calls: seq<Call>, i: nat, n: nat)
    requires i < n <= |calls| && calls[i].Acquire?
    ensures EndBy(calls, i, n) <= Expiry(calls, i)
  {
    if n == i + 1 {
    } else {
      EndByExpiry(calls, i, n - 1);
    }
  }

  lemma {:induction false} EndByRelease(calls: seq<Call>, i: nat, n: nat, k: nat)
    requires i < k < n <= |calls| && calls[i].Acquire? && OwnerReleases(calls, i, k)
    ensures EndBy(calls, i, n) <= calls[k].tick
  {
    if n == k + 1 {
    } else {
      EndByRelease(calls, i, n - 1, k);
    }
  }

  /** A hold that ends before the expiry ends at a release by the owner. */
  lemma {:induction false} EndIsRelease(calls: seq<Call>, i: nat, n: nat) returns (k: nat)
    requires i < n <= |calls| && calls[i].Acquire? && EndBy(calls, i, n) != Expiry(calls, i)
    ensures i < k < n && OwnerReleases(calls, i, k) && EndBy(calls, i, n) == calls[k].tick
  {
    if EndBy(calls, i, n) == EndBy(calls, i, n - 1) {
      k := EndIsRelease(calls, i, n - 1);
    } else {
      k := n - 1;
    }
  }

  /** The end is the expiry or a release by the owner, whichever comes first. */
  lemma EndIsEarliest(calls: seq<Call>, i: nat, n: nat)
    requires i < n <= |calls| && calls[i].Acquire?
    ensures var end := EndBy(calls, i, n);
            && end <= Expiry(calls, i)
            && (forall k | i < k < n && OwnerReleases(calls, i, k) :: end <= calls[k].tick)
            && (end == Expiry(calls, i) ||
                exists k :: i < k < n && OwnerReleases(calls, i, k) && end == calls[k].tick)
  {
    EndByExpiry(calls, i, n);
    forall k | i < k < n && OwnerReleases(calls, i, k)
      ensures EndBy(calls, i, n) <= calls[k].tick
    {
      EndByRelease(calls, i, n, k);
    }
    if EndBy(calls, i, n) != Expiry(calls, i) {
      var k := EndIsRelease(calls, i, n);
    }
  }

  /** Any two grants of one scope hold for disjoint intervals, each ending at the
      earlier of the owner's release and the expiry. */
  lemma HoldingIntervalsDisjoint(calls: seq<Call>, i: nat, j: nat)
    requires WellTimed(calls) && i < j < |calls| && GrantedAt(calls, i) && GrantedAt(calls, j)
    requires calls[i].scope == calls[j].scope
    ensures HoldEnd(calls, i) <= calls[j].tick
  {
    GrantedIffAllEnded(calls, j);
    EndIsEarliest(calls, i, |calls|);
    assert Ended(calls, i, j, calls[j].tick);
    if Expiry(calls, i) > calls[j].tick {
      var k :| i < k < j && OwnerReleases(calls, i, k);
      assert calls[k].tick <= calls[j].tick;
    }
  }

  // ---------------------------------------------------------- implementation

  class LeaseManager {
    var leases: Table

    constructor ()
      ensures leases == map[]
    {
      leases := map[];
    }

    method Expire(now: nat)
      modifies this`leases
      ensures leases == Unexpired(old(leases), now)
      ensures forall id :: id in leases <==> id in old(leases) && now < old(leases)[id].expiresAt
      ensures forall id | id in leases :: leases[id] == old(leases)[id]
    {
      leases := map id | id in leases && leases[id].expiresAt > now :: leases[id];
    }

    method TryAcquire(owner: Owner, scope: LeaseScope, ttl: nat, now: nat, id: LeaseId)
      returns (r: Result<Lease, ProtocolError>)
      modifies this`leases
      ensures leases == After(old(leases), Acquire(owner, scope, ttl, id, now))
      ensures r == if Grants(old(leases), Acquire(owner, scope, ttl, id, now))
                   then Ok(Granted(id, owner, scope, ttl, now)) else Err(LeaseHeld)
      ensures r.Err? <==> exists held :: held in old(leases) && old(leases)[held].scope == scope
                                         && now < old(leases)[held].expiresAt
      ensures r.Ok? ==> r.value == Lease(id, owner, scope, SatAdd(now, if ttl == 0 then 1 else ttl))
      ensures forall other | other != id || r.Err? ::
                (other in leases <==> other in old(leases) && now < old(leases)[other].expiresAt)
                && (other in leases ==> leases[other] == old(leases)[other])
      ensures r.Ok? ==> id in leases && leases[id] == r.value
    {
      Expire(now);
      if exists held :: held in leases && leases[held].scope == scope {
        return Err(LeaseHeld);
      }
      var lease := Lease(id, owner, scope, SatAdd(now, Max(ttl, 1)));
      leases := leases[id := lease];
      r := Ok(lease);
    }

    method TryRelease(id: LeaseId, owner: Owner) returns (r: Result<(), ProtocolError>)
      modifies this`leases
      ensures forall tick :: leases == After(old(leases), Release(id, owner, tick))
      ensures r == if id !in old(leases) then Err(LeaseNotFound)
                   else if old(leases)[id].owner != owner then Err(LeaseOwnerMismatch) else Ok(())
      ensures leases == if r.Ok? then old(leases) - {id} else old(leases)
    {
      if id !in leases {
        return Err(LeaseNotFound);
      }
      if leases[id].owner != owner {
        return Err(LeaseOwnerMismatch);
      }
      leases := leases - {id};
      r := Ok(());
    }

    method ListActive(now: nat) returns (active: set<Lease>)
      modifies this`leases
      ensures leases == After(old(leases), Active(now))
      ensures forall lease :: lease in active <==>
                exists id :: id in old(leases) && old(leases)[id] == lease && now < lease.expiresAt
      ensures leases == map id | id in old(leases) && now < old(leases)[id].expiresAt :: old(leases)[id]
    {
      Expire(now);
      active := set id | id in leases :: leases[id];
    }
  }
}
