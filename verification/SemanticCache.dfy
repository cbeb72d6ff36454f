/** The semantic cache: least recently used eviction over a queue and a map. */
module SemanticCache {
  import opened Common

  /** Cache keys are compared for equality only. */
  datatype Key = Key(text: string)

  /** Cached render trees are opaque here. */
  type Tree = int

  // ---------------------------------------------------------- reference LRU

  /** One past the last position of `x` in a history, or zero if it is absent. */
  ghost function LastUse(history: seq<Key>, x: Key): (at: nat)
    ensures at <= |history|
    ensures at > 0 <==> x in history
  {
    if history == [] then 0
    else if history[|history| - 1] == x then |history|
    else LastUse(history[..|history| - 1], x)
  }

  ghost predicate UsedBefore(history: seq<Key>, x: Key, y: Key) {
    LastUse(history, x) < LastUse(history, y)
  }

  ghost predicate OrderedByUse(history: seq<Key>, s: seq<Key>) {
    forall i, j | 0 <= i < j < |s| :: UsedBefore(history, s[i], s[j])
  }

  /** The distinct keys of a history, least recently used first. */
  ghost function Recency(history: seq<Key>): (r: seq<Key>)
    ensures Distinct(r)
    ensures forall x :: x in r <==> x in history
  {
    if history == [] then []
    else
      var front, last := history[..|history| - 1], history[|history| - 1];
      assert history == front + [last];
      WithoutDistinct(Recency(front), {last});
      DistinctJoin(Without(Recency(front), {last}), [last]);
      Without(Recency(front), {last}) + [last]
  }

  /** `Recency` lists the used keys in the order of their last use. */
  lemma {:induction false} RecencyOrder(history: seq<Key>)
    ensures OrderedByUse(history, Recency(history))
  {
    if history == [] {
    } else {
      var front, last := history[..|history| - 1], history[|history| - 1];
      var older := Without(Recency(front), {last});
      RecencyOrder(front);
      WithoutOrder(Recency(front), last, front);
      forall i, j | 0 <= i < j < |older + [last]|
        ensures UsedBefore(history, (older + [last])[i], (older + [last])[j])
      {
        assert older[i] in older;
        if j < |older| {
          assert older[j] in older && UsedBefore(front, older[i], older[j]);
        }
      }
    }
  }

  /** The first of an ordered list was used before the others. */
  lemma OrderedTail(history: seq<Key>, s: seq<Key>)
    requires OrderedByUse(history, s) && s != []
    ensures OrderedByUse(history, s[1..])
    ensures forall x | x in s[1..] :: UsedBefore(history, s[0], x)
  {
    var rest := s[1..];
    forall i, j | 0 <= i < j < |rest|
      ensures UsedBefore(history, rest[i], rest[j])
    {
      assert UsedBefore(history, s[i + 1], s[j + 1]);
    }
    forall x | x in rest
      ensures UsedBefore(history, s[0], x)
    {
      var i :| 0 <= i < |rest| && rest[i] == x;
      assert UsedBefore(history, s[0], s[i + 1]);
    }
  }

  lemma OrderedCons(history: seq<Key>, x: Key, rest: seq<Key>)
    requires OrderedByUse(history, rest) && forall y | y in rest :: UsedBefore(history, x, y)
    ensures OrderedByUse(history, [x] + rest)
  {
    var s := [x] + rest;
    forall i, j | 0 <= i < j < |s|
      ensures UsedBefore(history, s[i], s[j])
    {
      if i == 0 {
        assert rest[j - 1] in rest;
      } else {
        assert UsedBefore(history, rest[i - 1], rest[j - 1]);
      }
    }
  }

  /** Dropping a key keeps the others in order of last use. */
  lemma {:induction false} WithoutOrder(s: seq<Key>, x: Key, history: seq<Key>)
    requires OrderedByUse(history, s)
    ensures OrderedByUse(history, Without(s, {x}))
  {
    if s == [] {
    } else {
      OrderedTail(history, s);
      WithoutOrder(s[1..], x, history);
      if s[0] != x {
        OrderedCons(history, s[0], Without(s[1..], {x}));
      }
    }
  }

  // ------------------------------------------------------------ touch algebra

  lemma {:induction false} WithoutSplit<T(!new)>(a: seq<T>, b: seq<T>, gone: set<T>)
    ensures Without(a + b, gone) == Without(a, gone) + Without(b, gone)
  {
    if a == [] {
      assert a + b == b;
    } else {
      assert (a + b)[1..] == a[1..] + b;
      WithoutSplit(a[1..], b, gone);
    }
  }

  lemma {:induction false} WithoutOne<T(!new)>(s: seq<T>, x: T)
    requires Distinct(s) && x in s
    ensures |Without(s, {x})| == |s| - 1
  {
    if s[0] == x {
      assert x !in s[1..];
      WithoutNothing(s[1..], {x});
    } else {
      WithoutOne(s[1..], x);
    }
  }

  lemma LastNSplit<T>(a: seq<T>, b: seq<T>, n: nat)
    requires |b| == n || (a == [] && |b| <= n)
    ensures LastN(a + b, n) == b
  {
  }

  lemma LastNTail<T>(s: seq<T>, n: nat)
    requires 0 < n <= |s|
    ensures LastN(s, n)[1..] == LastN(s, n - 1)
  {
  }

  /** Touching a recent key only moves it to the back. */
  lemma TouchRecent(s: seq<Key>, k: Key, n: nat)
    requires Distinct(s) && k in LastN(s, n)
    ensures LastN(Without(s, {k}) + [k], n) == Without(LastN(s, n), {k}) + [k]
  {
    var recent := LastN(s, n);
    var older := s[..|s| - |recent|];
    assert s == older + recent;
    WithoutRecent(older, recent, k);
    MovedBack(older, Without(recent, {k}), k, n);
  }

  lemma MovedBack(older: seq<Key>, kept: seq<Key>, k: Key, n: nat)
    requires |kept| + 1 == n || (older == [] && |kept| < n)
    ensures LastN(older + kept + [k], n) == kept + [k]
  {
    assert older + kept + [k] == older + (kept + [k]);
    LastNSplit(older, kept + [k], n);
  }

  lemma WithoutRecent(older: seq<Key>, recent: seq<Key>, k: Key)
    requires Distinct(older + recent) && k in recent
    ensures Without(older + recent, {k}) == older + Without(recent, {k})
    ensures |Without(recent, {k})| == |recent| - 1
  {
    var s := older + recent;
    assert Distinct(recent) by {
      assert forall i | 0 <= i < |recent| :: recent[i] == s[|older| + i];
    }
    var j :| 0 <= j < |recent| && recent[j] == k;
    assert s[|older| + j] == k;
    assert forall i | 0 <= i < |older| :: older[i] == s[i];
    WithoutSplit(older, recent, {k});
    WithoutNothing(older, {k});
    WithoutOne(recent, k);
  }

  /** Touching any other key pushes it to the back and drops the oldest. */
  lemma TouchOther(s: seq<Key>, k: Key, n: nat)
    requires Distinct(s) && k !in LastN(s, n) && n >= 1
    ensures LastN(Without(s, {k}) + [k], n) == LastN(LastN(s, n) + [k], n)
  {
    var recent := LastN(s, n);
    var older := s[..|s| - |recent|];
    assert s == older + recent;
    WithoutSplit(older, recent, {k});
    WithoutNothing(recent, {k});
    PushBack(Without(older, {k}), recent, k, n);
  }

  lemma PushBack(older: seq<Key>, recent: seq<Key>, k: Key, n: nat)
    requires n >= 1 && (|recent| == n || (older == [] && |recent| <= n))
    ensures LastN(older + recent + [k], n) == LastN(recent + [k], n)
  {
    if |recent| == n {
      var tail := recent[1..] + [k];
      assert older + recent + [k] == (older + [recent[0]]) + tail;
      assert recent + [k] == [recent[0]] + tail;
      LastNSplit(older + [recent[0]], tail, n);
      LastNSplit([recent[0]], tail, n);
    } else {
      assert older + recent + [k] == recent + [k];
    }
  }

  // -------------------------------------------------------------- the cache

  datatype Op = Insert(key: Key, tree: Tree) | Get(key: Key)

  datatype Cache = Cache(maxEntries: nat, order: seq<Key>, entries: map<Key, Tree>)

  /** The touch history of a run under a reference LRU of `n` keys: every insert
      counts, a lookup counts when its key is among the last `n` distinct ones. */
  ghost function Touches(ops: seq<Op>, n: nat): seq<Key> {
    if ops == [] then []
    else
      var before, op := Touches(ops[..|ops| - 1], n), ops[|ops| - 1];
      if op.Insert? || op.key in LastN(Recency(before), n) then before + [op.key] else before
  }

  /** The tree last inserted under `key`, if any. */
  ghost function LastInserted(ops: seq<Op>, key: Key): Option<Tree> {
    if ops == [] then None
    else
      var op := ops[|ops| - 1];
      if op.Insert? && op.key == key then Some(op.tree) else LastInserted(ops[..|ops| - 1], key)
  }

  /** The keys a reference LRU holds after the run `ops`, oldest first. */
  ghost function LruKeys(ops: seq<Op>, n: nat): seq<Key> {
    LastN(Recency(Touches(ops, n)), n)
  }

  /** The cache is exactly the reference LRU of the run `ops`. */
  ghost predicate IsLru(c: Cache, ops: seq<Op>) {
    && c.maxEntries >= 1
    && c.order == LruKeys(ops, c.maxEntries)
    && (forall k :: k in c.order <==> k in c.entries)
    && (forall k | k in c.entries :: LastInserted(ops, k) == Some(c.entries[k]))
  }

  /** Hence no key is queued twice and the capacity holds. */
  lemma {:induction false} LruShape(c: Cache, ops: seq<Op>)
    requires IsLru(c, ops)
    ensures Distinct(c.order) && |c.order| <= c.maxEntries
    ensures OrderedByUse(Touches(ops, c.maxEntries), c.order)
  {
    RecencyOrder(Touches(ops, c.maxEntries));
  }

  /** One touch of the reference LRU. */
  lemma {:induction false} LruTouch(ops: seq<Op>, op: Op, n: nat)
    requires n >= 1
    ensures var held := LruKeys(ops, n);
            LruKeys(ops + [op], n) ==
            if op.key in held then Without(held, {op.key}) + [op.key]
            else if op.Insert? then LastN(held + [op.key], n)
            else held
  {
    var all, touched := Recency(Touches(ops, n)), Touches(ops, n) + [op.key];
    assert (ops + [op])[..|ops|] == ops;
    assert touched[..|touched| - 1] == Touches(ops, n);
    assert Recency(touched) == Without(all, {op.key}) + [op.key];
    if op.key in LastN(all, n) {
      TouchRecent(all, op.key, n);
    } else if op.Insert? {
      TouchOther(all, op.key, n);
    }
  }

  lemma LastInsertedAfter(ops: seq<Op>, op: Op, k: Key)
    ensures LastInserted(ops + [op], k) ==
            if op.Insert? && op.key == k then Some(op.tree) else LastInserted(ops, k)
  {
    assert (ops + [op])[..|ops|] == ops;
  }

  /** The queue just before eviction. */
  ghost function Requeued(order: seq<Key>, key: Key): seq<Key> {
    (if key in order then Without(order, {key}) else order) + [key]
  }

  lemma InsertedQueue(c: Cache, ops: seq<Op>, key: Key)
    requires IsLru(c, ops)
    ensures Distinct(Requeued(c.order, key))
    ensures forall k :: k in Requeued(c.order, key) <==> k in c.entries || k == key
  {
    LruShape(c, ops);
    WithoutDistinct(c.order, {key});
    DistinctJoin(if key in c.order then Without(c.order, {key}) else c.order, [key]);
  }

  /** Requeueing, evicting and storing keeps the cache equal to the reference. */
  lemma LruAfterInsert(c: Cache, ops: seq<Op>, op: Op, c': Cache)
    requires IsLru(c, ops) && op.Insert? && c'.maxEntries == c.maxEntries
    requires c'.order == LastN(Requeued(c.order, op.key), c.maxEntries)
    requires forall k :: k in c'.order <==> k in c'.entries
    requires forall k | k in c'.entries ::
               k in c.entries[op.key := op.tree] && c'.entries[k] == c.entries[op.key := op.tree][k]
    ensures IsLru(c', ops + [op])
  {
    assert c'.order == LruKeys(ops + [op], c.maxEntries) by {
      LruTouch(ops, op, c.maxEntries);
      LruShape(c, ops);
      if op.key in c.order {
        WithoutOne(c.order, op.key);
      }
    }
    forall k | k in c'.entries
      ensures LastInserted(ops + [op], k) == Some(c'.entries[k])
    {
      LastInsertedAfter(ops, op, k);
    }
  }

  /** The first position of `key`, or the length of the queue. */
  function Position(s: seq<Key>, key: Key): (i: nat)
    ensures i <= |s| && (i < |s| <==> key in s)
    ensures i < |s| ==> s[i] == key
    ensures forall j | 0 <= j < i :: s[j] != key
  {
    if s == [] || s[0] == key then 0 else 1 + Position(s[1..], key)
  }

  lemma DistinctTail(s: seq<Key>)
    requires Distinct(s) && s != []
    ensures Distinct(s[1..]) && s[0] !in s[1..]
  {
  }

  lemma DropAtTail(s: seq<Key>, i: nat)
    requires 0 < i < |s|
    ensures s[..i] + s[i + 1..] == [s[0]] + (s[1..][..i - 1] + s[1..][i..])
  {
  }

  lemma {:induction false} DropAt(s: seq<Key>, i: nat)
    requires Distinct(s) && i < |s|
    ensures s[..i] + s[i + 1..] == Without(s, {s[i]})
  {
    DistinctTail(s);
    if i == 0 {
      WithoutNothing(s[1..], {s[0]});
    } else {
      assert s[1..][i - 1] == s[i];
      DropAt(s[1..], i - 1);
      DropAtTail(s, i);
    }
  }

  /** A hit moves the key to the back; nothing else changes. */
  lemma LruAfterHit(c: Cache, ops: seq<Op>, key: Key, c': Cache)
    requires IsLru(c, ops) && key in c.order
    requires c' == c.(order := Without(c.order, {key}) + [key])
    ensures IsLru(c', ops + [Get(key)])
  {
    LruTouch(ops, Get(key), c.maxEntries);
    LookupInsertsNothing(c, ops, key);
  }

  lemma LruHitAt(c: Cache, ops: seq<Op>, position: nat, order: seq<Key>)
    requires IsLru(c, ops) && position < |c.order|
    requires order == c.order[..position] + c.order[position + 1..] + [c.order[position]]
    ensures var key := c.order[position];
            && IsLru(c.(order := order), ops + [Get(key)])
            && key in c.entries && LastInserted(ops, key) == Some(c.entries[key])
  {
    var key := c.order[position];
    assert key in c.order;
    LruShape(c, ops);
    DropAt(c.order, position);
    LruAfterHit(c, ops, key, c.(order := order));
  }

  lemma LruAfterMiss(c: Cache, ops: seq<Op>, key: Key)
    requires IsLru(c, ops) && key !in c.order
    ensures IsLru(c, ops + [Get(key)])
  {
    LruTouch(ops, Get(key), c.maxEntries);
    LookupInsertsNothing(c, ops, key);
  }

  lemma LookupInsertsNothing(c: Cache, ops: seq<Op>, key: Key)
    ensures forall k | k in c.entries :: LastInserted(ops + [Get(key)], k) == LastInserted(ops, k)
  {
    forall k | k in c.entries
      ensures LastInserted(ops + [Get(key)], k) == LastInserted(ops, k)
    {
      LastInsertedAfter(ops, Get(key), k);
    }
  }

  /** Dropping keys from the front has come from `all` and `from` to `order` and
      `entries`. */
  ghost predicate Evicting(all: seq<Key>, from: map<Key, Tree>, order: seq<Key>, entries: map<Key, Tree>) {
    && |order| <= |all| && order == LastN(all, |order|) && Distinct(order)
    && (forall k :: k in order <==> k in entries)
    && (forall k | k in entries :: k in from && entries[k] == from[k])
  }

  lemma EvictOne(all: seq<Key>, from: map<Key, Tree>, order: seq<Key>, entries: map<Key, Tree>)
    requires Evicting(all, from, order, entries) && order != []
    ensures Evicting(all, from, order[1..], entries - {order[0]})
  {
    LastNTail(all, |order|);
    DistinctTail(order);
    assert order == [order[0]] + order[1..];
  }

  // ---------------------------------------------------------- implementation

  class LruCache {
    var maxEntries: nat
    var order: seq<Key>
    var entries: map<Key, Tree>
    /** The calls made so far. */
    ghost var ops: seq<Op>

    ghost function View(): Cache
      reads this
    {
      Cache(maxEntries, order, entries)
    }

    ghost predicate Valid()
      reads this
    {
      IsLru(View(), ops)
    }

    constructor WithCapacity(n: nat)
      ensures Valid() && ops == [] && maxEntries == Max(n, 1)
    {
      maxEntries, order, entries, ops := Max(n, 1), [], map[], [];
    }

    method InsertTree(key: Key, tree: Tree)
      requires Valid()
      modifies this
      ensures Valid() && ops == old(ops) + [Insert(key, tree)] && maxEntries == old(maxEntries)
    {
      if key in entries {
        order := Without(order, {key});
      }
      order := order + [key];
      entries := entries[key := tree];
      InsertedQueue(old(View()), ops, key);
      Evict();
      ops := ops + [Insert(key, tree)];
      LruAfterInsert(old(View()), old(ops), Insert(key, tree), View());
    }

    /** Drops queued keys from the front until the capacity holds. */
    method Evict()
      requires Distinct(order) && forall k :: k in order <==> k in entries
      modifies this`order, this`entries
      ensures order == LastN(old(order), maxEntries)
      ensures forall k :: k in order <==> k in entries
      ensures forall k | k in entries :: k in old(entries) && entries[k] == old(entries)[k]
    {
      while |order| > maxEntries
        invariant |order| >= Min(|old(order)|, maxEntries)
        invariant Evicting(old(order), old(entries), order, entries)
        decreases |order|
      {
        EvictOne(old(order), old(entries), order, entries);
        var oldest := order[0];
        order := order[1..];
        entries := entries - {oldest};
      }
    }

    /** A lookup returns the tree last inserted under a held key and makes that
        key the most recent one; a miss changes nothing. */
    method Lookup(key: Key) returns (r: Option<Tree>)
      requires Valid()
      modifies this
      ensures Valid() && ops == old(ops) + [Get(key)] && maxEntries == old(maxEntries)
      ensures entries == old(entries)
      ensures r == if key in old(order) then LastInserted(old(ops), key) else None
    {
      var position := Position(order, key);
      if position == |order| {
        LruAfterMiss(View(), ops, key);
        ops := ops + [Get(key)];
        return None;
      }
      LruHitAt(View(), ops, position, order[..position] + order[position + 1..] + [key]);
      order := order[..position] + order[position + 1..] + [key];
      ops := ops + [Get(key)];
      assert View() == old(View()).(order := order);
      r := Some(entries[key]);
    }
  }
}
