/** The IndexedDB store: versioned databases and buffered transactions. */
module IndexedDb {
  import opened Common

  type Bytes = seq<bv8>

  type Values = map<string, Bytes>

  type Stores = map<string, Values>

  datatype DatabaseKey = DatabaseKey(profile: string, origin: string, name: string)

  datatype Database = Database(version: nat, stores: Stores)

  datatype DatabaseInfo = DatabaseInfo(name: string, version: nat, stores: set<string>)

  datatype Error = NotFound | VersionTooLow | StoreMissing | TransactionInactive | QuotaExceeded

  datatype Event =
    | Opened(key: DatabaseKey, version: nat)
    | Upgraded(key: DatabaseKey, fromVersion: nat, toVersion: nat)
    | Committed(key: DatabaseKey)
    | Aborted(key: DatabaseKey)

  // ------------------------------------------------------------------- sizes

  /** The sum of a map's values. */
  ghost function Sum(m: map<string, nat>): nat {
    if m == map[] then 0
    else
      var k :| k in m;
      m[k] + Sum(m - {k})
  }

  /** The summation order does not matter. */
  lemma {:induction false} SumPick(m: map<string, nat>, k: string)
    requires k in m
    ensures Sum(m) == m[k] + Sum(m - {k})
    decreases |m|
  {
    var p :| p in m && Sum(m) == m[p] + Sum(m - {p});
    if p != k {
      var rest := m - {p};
      assert m.Keys == rest.Keys + {p};
      SumPick(rest, k);
      assert rest - {k} == (m - {k}) - {p};
      assert (m - {k}).Keys == m.Keys - {k};
      SumPick(m - {k}, p);
    }
  }

  ghost function Sizes(values: Values): map<string, nat> {
    map k | k in values :: |values[k]|
  }

  ghost function StoreSizes(stores: Stores): map<string, nat> {
    map s | s in stores :: Sum(Sizes(stores[s]))
  }

  /** The bytes held by all values of all stores. */
  ghost function TotalBytes(stores: Stores): nat {
    Sum(StoreSizes(stores))
  }

  /** Entries of size zero add nothing. */
  lemma {:induction false} SumExtended(m: map<string, nat>, wide: map<string, nat>)
    requires m.Keys <= wide.Keys
    requires forall k | k in wide :: wide[k] == if k in m then m[k] else 0
    ensures Sum(wide) == Sum(m)
    decreases |wide|
  {
    if wide.Keys == m.Keys {
      assert wide == m;
    } else {
      var k :| k in wide && k !in m;
      SumPick(wide, k);
      assert wide.Keys == (wide - {k}).Keys + {k};
      SumExtended(m, wide - {k});
    }
  }

  // ----------------------------------------------------------- specification

  datatype Cell = Cell(store: string, key: string)

  /** A write of one cell: a value, or nothing for a deletion. */
  datatype Write = Write(cell: Cell, value: Option<Bytes>)

  function SetCell(stores: Stores, w: Write): Stores
    requires w.cell.store in stores
  {
    stores[w.cell.store := SetValue(stores[w.cell.store], w.cell.key, w.value)]
  }

  function SetValue(values: Values, key: string, value: Option<Bytes>): Values {
    match value
    case Some(bytes) => values[key := bytes]
    case None => values - {key}
  }

  /** The writes applied one by one in program order. */
  ghost function ApplyLog(stores: Stores, log: seq<Write>): (r: Stores)
    requires forall i | 0 <= i < |log| :: log[i].cell.store in stores
    ensures r.Keys == stores.Keys
  {
    if log == [] then stores
    else SetCell(ApplyLog(stores, log[..|log| - 1]), log[|log| - 1])
  }

  type Buffer = map<Cell, Option<Bytes>>

  /** The coalesced buffer of a log: the last write of each cell. */
  ghost function Coalesce(log: seq<Write>): Buffer {
    if log == [] then map[]
    else
      var w := log[|log| - 1];
      Coalesce(log[..|log| - 1])[w.cell := w.value]
  }

  /** The stores seen through a buffer: a buffered cell wins over a stored one. */
  ghost function Overlay(stores: Stores, buffer: Buffer): Stores {
    map s | s in stores :: OverlayValues(stores[s], s, buffer)
  }

  ghost function OverlayValues(values: Values, s: string, buffer: Buffer): Values {
    map k | k in values.Keys + BufferedKeys(buffer, s) && (Cell(s, k) in buffer ==> buffer[Cell(s, k)].Some?) ::
      if Cell(s, k) in buffer then buffer[Cell(s, k)].value else values[k]
  }

  ghost function BufferedKeys(buffer: Buffer, s: string): (keys: set<string>)
    ensures forall k :: k in keys <==> Cell(s, k) in buffer
  {
    set p | p in buffer && p.store == s :: p.key
  }

  // ---------------------------------------------------------- refinement law

  lemma OverlayNothing(stores: Stores)
    ensures Overlay(stores, map[]) == stores
  {
    forall s | s in stores
      ensures OverlayValues(stores[s], s, map[]) == stores[s]
    {
    }
  }

  lemma OverlayElsewhere(values: Values, s: string, buffer: Buffer, w: Write)
    requires s != w.cell.store
    ensures OverlayValues(values, s, buffer[w.cell := w.value]) == OverlayValues(values, s, buffer)
  {
    var buffer' := buffer[w.cell := w.value];
    assert BufferedKeys(buffer', s) == BufferedKeys(buffer, s);
  }

  lemma OverlayHere(values: Values, buffer: Buffer, w: Write)
    ensures OverlayValues(values, w.cell.store, buffer[w.cell := w.value]) ==
            SetValue(OverlayValues(values, w.cell.store, buffer), w.cell.key, w.value)
  {
    var buffer' := buffer[w.cell := w.value];
    assert BufferedKeys(buffer', w.cell.store) == BufferedKeys(buffer, w.cell.store) + {w.cell.key};
    var left := OverlayValues(values, w.cell.store, buffer');
    var right := SetValue(OverlayValues(values, w.cell.store, buffer), w.cell.key, w.value);
    forall k
      ensures k in left <==> k in right
      ensures k in left && k in right ==> left[k] == right[k]
    {
      assert Cell(w.cell.store, k) == w.cell <==> k == w.cell.key;
    }
  }

  /** Buffering one more write is the same as applying it afterwards. */
  lemma OverlayStep(stores: Stores, buffer: Buffer, w: Write)
    requires w.cell.store in stores
    ensures Overlay(stores, buffer[w.cell := w.value]) == SetCell(Overlay(stores, buffer), w)
  {
    forall s | s in stores
      ensures OverlayValues(stores[s], s, buffer[w.cell := w.value]) == SetCell(Overlay(stores, buffer), w)[s]
    {
      OverlayStepAt(stores, buffer, w, s);
    }
    SameStores(Overlay(stores, buffer[w.cell := w.value]), SetCell(Overlay(stores, buffer), w));
  }

  lemma SameStores(left: Stores, right: Stores)
    requires left.Keys == right.Keys && forall s | s in left :: left[s] == right[s]
    ensures left == right
  {
  }

  lemma OverlayStepAt(stores: Stores, buffer: Buffer, w: Write, s: string)
    requires w.cell.store in stores && s in stores
    ensures OverlayValues(stores[s], s, buffer[w.cell := w.value]) == SetCell(Overlay(stores, buffer), w)[s]
  {
    if s == w.cell.store {
      OverlayHere(stores[s], buffer, w);
    } else {
      OverlayElsewhere(stores[s], s, buffer, w);
    }
  }

  /** Committing the coalesced buffer is applying the operations one by one. */
  lemma {:induction false} OverlayIsLog(stores: Stores, log: seq<Write>)
    requires forall i | 0 <= i < |log| :: log[i].cell.store in stores
    ensures Overlay(stores, Coalesce(log)) == ApplyLog(stores, log)
  {
    if log == [] {
      OverlayNothing(stores);
    } else {
      OverlayIsLog(stores, log[..|log| - 1]);
      OverlayStep(stores, Coalesce(log[..|log| - 1]), log[|log| - 1]);
    }
  }

  lemma {:induction false} CoalesceStores(log: seq<Write>, stores: Stores)
    requires forall i | 0 <= i < |log| :: log[i].cell.store in stores
    ensures forall p | p in Coalesce(log) :: p.store in stores
  {
    if log == [] {
    } else {
      CoalesceStores(log[..|log| - 1], stores);
    }
  }

  // ---------------------------------------------------------------- cell laws

  /** What a cell holds. */
  function CellValue(stores: Stores, cell: Cell): Option<Bytes> {
    if cell.store in stores && cell.key in stores[cell.store] then Some(stores[cell.store][cell.key]) else None
  }

  /** Write `i` is the last one of its cell. */
  ghost predicate LastOfCell(log: seq<Write>, i: nat, cell: Cell) {
    i < |log| && log[i].cell == cell && forall j | i < j < |log| :: log[j].cell != cell
  }

  ghost predicate Unwritten(log: seq<Write>, cell: Cell) {
    forall j | 0 <= j < |log| :: log[j].cell != cell
  }

  lemma SetCellDecides(stores: Stores, w: Write, cell: Cell)
    requires w.cell.store in stores
    ensures CellValue(SetCell(stores, w), cell) == if w.cell == cell then w.value else CellValue(stores, cell)
  {
  }

  lemma {:induction false} UnwrittenStays(stores: Stores, log: seq<Write>, cell: Cell)
    requires (forall i | 0 <= i < |log| :: log[i].cell.store in stores) && Unwritten(log, cell)
    ensures CellValue(ApplyLog(stores, log), cell) == CellValue(stores, cell)
  {
    if log == [] {
    } else {
      UnwrittenStays(stores, log[..|log| - 1], cell);
      SetCellDecides(ApplyLog(stores, log[..|log| - 1]), log[|log| - 1], cell);
    }
  }

  lemma {:induction false} LastWriteStays(stores: Stores, log: seq<Write>, i: nat, cell: Cell)
    requires (forall i | 0 <= i < |log| :: log[i].cell.store in stores) && LastOfCell(log, i, cell)
    ensures CellValue(ApplyLog(stores, log), cell) == log[i].value
  {
    var front, last := log[..|log| - 1], log[|log| - 1];
    SetCellDecides(ApplyLog(stores, front), last, cell);
    if i == |log| - 1 {
    } else {
      assert last.cell != cell && front[i] == log[i];
      LastWriteStays(stores, front, i, cell);
    }
  }

  /** After a log a cell holds the value of its last write, nothing if that was a
      deletion, and what it held before if it was never written. */
  lemma LogDecidesCell(stores: Stores, log: seq<Write>, cell: Cell)
    requires forall i | 0 <= i < |log| :: log[i].cell.store in stores
    ensures Unwritten(log, cell) ==> CellValue(ApplyLog(stores, log), cell) == CellValue(stores, cell)
    ensures forall i: nat | LastOfCell(log, i, cell) :: CellValue(ApplyLog(stores, log), cell) == log[i].value
  {
    if Unwritten(log, cell) {
      UnwrittenStays(stores, log, cell);
    }
    forall i: nat | LastOfCell(log, i, cell)
      ensures CellValue(ApplyLog(stores, log), cell) == log[i].value
    {
      LastWriteStays(stores, log, i, cell);
    }
  }

  /** The bytes of a cell. */
  function CellBytes(stores: Stores, cell: Cell): nat {
    if CellValue(stores, cell).Some? then |CellValue(stores, cell).value| else 0
  }

  lemma SumChanged(m: map<string, nat>, m': map<string, nat>, k: string)
    requires m - {k} == m' - {k}
    ensures Sum(m') + (if k in m then m[k] else 0) == Sum(m) + if k in m' then m'[k] else 0
  {
    if k in m {
      SumPick(m, k);
    } else {
      assert m - {k} == m;
    }
    if k in m' {
      SumPick(m', k);
    } else {
      assert m' - {k} == m';
    }
  }

  /** The total is exactly what the cells hold: a write replaces the bytes of its
      cell in it, and empty stores hold none. */
  lemma WriteChangesBytes(stores: Stores, w: Write)
    requires w.cell.store in stores
    ensures TotalBytes(SetCell(stores, w)) + CellBytes(stores, w.cell) ==
            TotalBytes(stores) + if w.value.Some? then |w.value.value| else 0
  {
    var store, values := w.cell.store, stores[w.cell.store];
    SetValueBytes(values, w.cell.key, w.value);
    ReplacedStoreBytes(stores, store, SetValue(values, w.cell.key, w.value));
  }

  lemma SetValueBytes(values: Values, key: string, value: Option<Bytes>)
    ensures Sum(Sizes(SetValue(values, key, value))) + (if key in values then |values[key]| else 0) ==
            Sum(Sizes(values)) + if value.Some? then |value.value| else 0
  {
    var sizes, sizes' := Sizes(values), Sizes(SetValue(values, key, value));
    assert sizes - {key} == sizes' - {key};
    SumChanged(sizes, sizes', key);
  }

  lemma ReplacedStoreBytes(stores: Stores, store: string, values: Values)
    requires store in stores
    ensures TotalBytes(stores[store := values]) + Sum(Sizes(stores[store])) ==
            TotalBytes(stores) + Sum(Sizes(values))
  {
    var sizes, sizes' := StoreSizes(stores), StoreSizes(stores[store := values]);
    assert sizes - {store} == sizes' - {store};
    SumChanged(sizes, sizes', store);
  }

  lemma {:induction false} EmptyStoresHoldNothing(stores: Stores)
    requires forall s | s in stores :: stores[s] == map[]
    ensures TotalBytes(stores) == 0
  {
    assert Sizes(map[]) == map[];
    SumExtended(map[], StoreSizes(stores));
  }

  // -------------------------------------------------------------------- runs

  datatype State = State(databases: map<DatabaseKey, Database>, maxBytes: nat, events: seq<Event>)

  function NewState(quota: nat): State {
    State(map[], Max(quota, 1), [])
  }

  /** Transactions borrow the whole store, so one runs from begin to commit with
      nothing in between. */
  datatype Operation =
    | Open(key: DatabaseKey, version: nat, stores: seq<string>)
    | Commit(key: DatabaseKey, log: seq<Write>)
    | Abort(key: DatabaseKey, log: seq<Write>)
    | DrainEvents

  function Entry(s: State, key: DatabaseKey): Database {
    if key in s.databases then s.databases[key] else Database(0, map[])
  }

  function AddStores(stores: Stores, names: seq<string>): Stores {
    map s | s in stores.Keys + (set n | n in names) :: if s in stores then stores[s] else map[]
  }

  function AfterOpen(s: State, key: DatabaseKey, version: nat, stores: seq<string>): State {
    var entry := Entry(s, key);
    if version < entry.version then s
    else
      var next := Database(Max(version, 1), AddStores(entry.stores, stores));
      var event := if next.version > entry.version then Upgraded(key, entry.version, next.version)
                   else Opened(key, next.version);
      s.(databases := s.databases[key := next], events := s.events + [event])
  }

  /** The operations of a log that the transaction accepts: those on known stores. */
  ghost predicate Admitted(s: State, key: DatabaseKey, log: seq<Write>) {
    key in s.databases && forall i | 0 <= i < |log| :: log[i].cell.store in s.databases[key].stores
  }

  ghost function AfterCommit(s: State, key: DatabaseKey, log: seq<Write>): State
    requires Admitted(s, key, log)
  {
    var result := ApplyLog(s.databases[key].stores, log);
    if TotalBytes(result) > s.maxBytes then s
    else s.(databases := s.databases[key := s.databases[key].(stores := result)], events := s.events + [Committed(key)])
  }

  ghost predicate Legal(s: State, op: Operation) {
    (op.Commit? || op.Abort?) ==> Admitted(s, op.key, op.log)
  }

  ghost function After(s: State, op: Operation): State
    requires Legal(s, op)
  {
    match op
    case Open(key, version, stores) => AfterOpen(s, key, version, stores)
    case Commit(key, log) => AfterCommit(s, key, log)
    case Abort(key, _) => s.(events := s.events + [Aborted(key)])
    case DrainEvents => s.(events := [])
  }

  ghost predicate LegalRun(s: State, ops: seq<Operation>)
    decreases ops
  {
    ops == [] || (Legal(s, ops[0]) && LegalRun(After(s, ops[0]), ops[1..]))
  }

  ghost function Run(s: State, ops: seq<Operation>): State
    requires LegalRun(s, ops)
    decreases ops
  {
    if ops == [] then s else Run(After(s, ops[0]), ops[1..])
  }

  /** Every database fits the quota and has been opened at version one or more. */
  ghost predicate WithinQuota(s: State) {
    forall key | key in s.databases ::
      TotalBytes(s.databases[key].stores) <= s.maxBytes && s.databases[key].version >= 1
  }

  /** No database disappears, loses a store or goes back in version. */
  ghost predicate Advances(s: State, t: State) {
    && s.maxBytes == t.maxBytes
    && forall key | key in s.databases ::
         && key in t.databases && s.databases[key].version <= t.databases[key].version
         && s.databases[key].stores.Keys <= t.databases[key].stores.Keys
  }

  lemma AddStoresAre(stores: Stores, names: seq<string>)
    ensures forall name :: name in AddStores(stores, names) <==> name in stores || name in names
    ensures forall name | name in AddStores(stores, names) ::
              AddStores(stores, names)[name] == if name in stores then stores[name] else map[]
  {
  }

  lemma AddStoresMore(stores: Stores, names: seq<string>, i: nat)
    requires i < |names|
    ensures var some, more := AddStores(stores, names[..i]), AddStores(stores, names[..i + 1]);
            more == if names[i] in some then some else some[names[i] := map[]]
  {
    assert names[..i + 1] == names[..i] + [names[i]];
  }

  lemma AddStoresBytes(stores: Stores, names: seq<string>)
    ensures TotalBytes(AddStores(stores, names)) == TotalBytes(stores)
  {
    assert Sizes(map[]) == map[];
    SumExtended(StoreSizes(stores), StoreSizes(AddStores(stores, names)));
  }

  /** An accepted commit leaves in each cell of its database the last value logged
      for it, and nothing else changes. */
  lemma CommitDecidesCells(s: State, key: DatabaseKey, log: seq<Write>, cell: Cell)
    requires Admitted(s, key, log) && TotalBytes(ApplyLog(s.databases[key].stores, log)) <= s.maxBytes
    ensures var t := After(s, Commit(key, log));
            && t.databases.Keys == s.databases.Keys
            && (forall other | other in s.databases && other != key :: t.databases[other] == s.databases[other])
            && t.databases[key].version == s.databases[key].version
            && (Unwritten(log, cell) ==>
                  CellValue(t.databases[key].stores, cell) == CellValue(s.databases[key].stores, cell))
            && (forall i: nat | LastOfCell(log, i, cell) ::
                  CellValue(t.databases[key].stores, cell) == log[i].value)
  {
    LogDecidesCell(s.databases[key].stores, log, cell);
  }

  /** Opening creates the named stores empty and touches no cell. */
  lemma OpenKeepsCells(s: State, key: DatabaseKey, version: nat, names: seq<string>, cell: Cell)
    requires key in s.databases ==> version >= s.databases[key].version
    ensures var t := After(s, Open(key, version, names));
            && key in t.databases && t.databases[key].version == Max(version, 1)
            && (forall name | name in names :: name in t.databases[key].stores)
            && (key in s.databases ==>
                  CellValue(t.databases[key].stores, cell) == CellValue(s.databases[key].stores, cell))
            && (key !in s.databases ==> CellValue(t.databases[key].stores, cell).None?)
            && (forall other | other in s.databases && other != key ::
                  other in t.databases && t.databases[other] == s.databases[other])
  {
  }

  /** What a reader of a database finds in a cell. */
  function DbValue(s: State, key: DatabaseKey, cell: Cell): Option<Bytes> {
    if key in s.databases then CellValue(s.databases[key].stores, cell) else None
  }

  /** The operation is a commit that fits the quota and writes the cell. */
  ghost predicate Overwrites(s: State, op: Operation, key: DatabaseKey, cell: Cell)
    requires Legal(s, op)
  {
    && op.Commit? && op.key == key && !Unwritten(op.log, cell)
    && TotalBytes(ApplyLog(s.databases[key].stores, op.log)) <= s.maxBytes
  }

  lemma StepKeepsCell(s: State, op: Operation, key: DatabaseKey, cell: Cell)
    requires Legal(s, op) && !Overwrites(s, op, key, cell)
    ensures DbValue(After(s, op), key, cell) == DbValue(s, key, cell)
  {
    match op
    case Open(k, version, names) =>
      if !(k in s.databases && version < s.databases[k].version) {
        OpenKeepsCells(s, k, version, names, cell);
      }
    case Commit(k, log) =>
      if TotalBytes(ApplyLog(s.databases[k].stores, log)) <= s.maxBytes {
        CommitDecidesCells(s, k, log, cell);
      }
    case Abort(_, _) =>
    case DrainEvents =>
  }

  /** No operation of the run overwrites the cell. */
  ghost predicate NeverOverwritten(s: State, ops: seq<Operation>, key: DatabaseKey, cell: Cell)
    requires LegalRun(s, ops)
    decreases ops
  {
    ops != [] ==> !Overwrites(s, ops[0], key, cell) && NeverOverwritten(After(s, ops[0]), ops[1..], key, cell)
  }

  lemma {:induction false} RunKeepsCell(s: State, ops: seq<Operation>, key: DatabaseKey, cell: Cell)
    requires LegalRun(s, ops) && NeverOverwritten(s, ops, key, cell)
    ensures DbValue(Run(s, ops), key, cell) == DbValue(s, key, cell)
    decreases ops
  {
    if ops == [] {
    } else {
      StepKeepsCell(s, ops[0], key, cell);
      RunKeepsCell(After(s, ops[0]), ops[1..], key, cell);
    }
  }

  /** Readers find in a cell what the last commit that wrote it wrote last, whatever
      is opened, aborted, refused or committed elsewhere in between. */
  lemma ReadsLastCommit(s: State, log: seq<Write>, ops: seq<Operation>, key: DatabaseKey, cell: Cell, i: nat)
    requires Admitted(s, key, log) && TotalBytes(ApplyLog(s.databases[key].stores, log)) <= s.maxBytes
    requires LastOfCell(log, i, cell)
    requires LegalRun(After(s, Commit(key, log)), ops)
    requires NeverOverwritten(After(s, Commit(key, log)), ops, key, cell)
    ensures DbValue(Run(After(s, Commit(key, log)), ops), key, cell) == log[i].value
  {
    CommitDecidesCells(s, key, log, cell);
    RunKeepsCell(After(s, Commit(key, log)), ops, key, cell);
  }

  lemma StepKeepsQuota(s: State, op: Operation)
    requires WithinQuota(s) && Legal(s, op)
    ensures WithinQuota(After(s, op)) && Advances(s, After(s, op))
  {
    match op
    case Open(key, version, stores) => OpenKeepsQuota(s, key, version, stores);
    case Commit(key, log) => CommitKeepsQuota(s, key, log);
    case Abort(_, _) =>
    case DrainEvents =>
  }

  lemma OpenKeepsQuota(s: State, key: DatabaseKey, version: nat, stores: seq<string>)
    requires WithinQuota(s)
    ensures WithinQuota(AfterOpen(s, key, version, stores)) && Advances(s, AfterOpen(s, key, version, stores))
  {
    AddStoresBytes(Entry(s, key).stores, stores);
    assert StoreSizes(map[]) == map[];
  }

  lemma CommitKeepsQuota(s: State, key: DatabaseKey, log: seq<Write>)
    requires WithinQuota(s) && Admitted(s, key, log)
    ensures WithinQuota(AfterCommit(s, key, log)) && Advances(s, AfterCommit(s, key, log))
  {
  }

  /** On every run the quota holds and versions never decrease. */
  lemma {:induction false} RunKeepsQuota(s: State, ops: seq<Operation>)
    requires WithinQuota(s) && LegalRun(s, ops)
    ensures WithinQuota(Run(s, ops)) && Advances(s, Run(s, ops))
    decreases ops
  {
    if ops == [] {
    } else {
      StepKeepsQuota(s, ops[0]);
      RunKeepsQuota(After(s, ops[0]), ops[1..]);
    }
  }

  /** In every reachable state each database holds at most the quota. */
  lemma ReachableWithinQuota(quota: nat, ops: seq<Operation>)
    requires LegalRun(NewState(quota), ops)
    ensures WithinQuota(Run(NewState(quota), ops)) && Run(NewState(quota), ops).maxBytes == Max(quota, 1)
  {
    RunKeepsQuota(NewState(quota), ops);
  }

  // ---------------------------------------------------------- implementation

  class Databases {
    var databases: map<DatabaseKey, Database>
    var maxBytes: nat
    var events: seq<Event>

    ghost function View(): State
      reads this
    {
      State(databases, maxBytes, events)
    }

    constructor WithQuota(quota: nat)
      ensures View() == NewState(quota)
      ensures databases == map[] && events == [] && maxBytes == if quota == 0 then 1 else quota
    {
      databases, maxBytes, events := map[], Max(quota, 1), [];
    }

    method OpenDatabase(key: DatabaseKey, version: nat, stores: seq<string>) returns (r: Result<DatabaseInfo, Error>)
      modifies this
      ensures View() == AfterOpen(old(View()), key, version, stores)
      ensures r.Err? <==> key in old(databases) && version < old(databases)[key].version
      ensures r.Err? ==> r.error == VersionTooLow && View() == old(View())
      ensures r.Ok? ==> key in databases && r.value ==
                        DatabaseInfo(key.name, databases[key].version, databases[key].stores.Keys)
      ensures r.Ok? ==> databases == old(databases)[key := databases[key]] && maxBytes == old(maxBytes)
      ensures r.Ok? ==> databases[key].version == if version == 0 then 1 else version
      ensures r.Ok? ==>
                var held := if key in old(databases) then old(databases)[key].stores else map[];
                && (forall name :: name in databases[key].stores <==> name in held || name in stores)
                && (forall name | name in databases[key].stores ::
                      databases[key].stores[name] == if name in held then held[name] else map[])
      ensures r.Ok? ==>
                var previous := if key in old(databases) then old(databases)[key].version else 0;
                events == old(events) + [if databases[key].version > previous
                                         then Upgraded(key, previous, databases[key].version)
                                         else Opened(key, databases[key].version)]
    {
      var database := if key in databases then databases[key] else Database(0, map[]);
      if version < database.version {
        return Err(VersionTooLow);
      }
      var previous := database.version;
      var named := CreateStores(database.stores, stores);
      database := Database(Max(Max(version, database.version), 1), named);
      databases := databases[key := database];
      events := events + [if database.version > previous then Upgraded(key, previous, database.version)
                          else Opened(key, database.version)];
      r := Ok(DatabaseInfo(key.name, database.version, named.Keys));
    }

    method TakeEvents() returns (drained: seq<Event>)
      modifies this
      ensures View() == After(old(View()), DrainEvents)
      ensures drained == old(events) && events == [] && databases == old(databases)
    {
      drained, events := events, [];
    }
  }

  /** Creates the named stores that do not exist yet. */
  method CreateStores(stores: Stores, names: seq<string>) returns (named: Stores)
    ensures named == AddStores(stores, names)
    ensures forall name :: name in named <==> name in stores || name in names
    ensures forall name | name in named :: named[name] == if name in stores then stores[name] else map[]
  {
    AddStoresAre(stores, names);
    named := stores;
    for i := 0 to |names|
      invariant named == AddStores(stores, names[..i])
    {
      AddStoresMore(stores, names, i);
      if names[i] !in named {
        named := named[names[i] := map[]];
      }
    }
    assert names[..|names|] == names;
  }

  /** A transaction on one database, with its writes buffered per cell. */
  class Transaction {
    const owner: Databases
    const key: DatabaseKey
    var writes: Buffer
    var active: bool
    /** The accepted operations in program order. */
    ghost var log: seq<Write>

    ghost predicate Valid()
      reads this, owner
    {
      writes == Coalesce(log) && Admitted(owner.View(), key, log)
    }

    constructor Begin(owner: Databases, key: DatabaseKey)
      requires key in owner.databases
      ensures this.owner == owner && this.key == key && active && log == [] && Valid()
    {
      this.owner, this.key := owner, key;
      writes, active, log := map[], true, [];
    }

    /** Reads see committed data only: the buffer plays no part. */
    method Get(store: string, k: string) returns (r: Result<Option<Bytes>, Error>)
      requires Valid()
      ensures var stores := owner.databases[key].stores;
              r == if !active then Err(TransactionInactive)
                   else if store !in stores then Err(StoreMissing)
                   else Ok(if k in stores[store] then Some(stores[store][k]) else None)
    {
      var stores := owner.databases[key].stores;
      if !active {
        return Err(TransactionInactive);
      }
      if store !in stores {
        return Err(StoreMissing);
      }
      r := Ok(if k in stores[store] then Some(stores[store][k]) else None);
    }

    /** Buffers a put, or a deletion when there is no value. */
    method Record(store: string, k: string, value: Option<Bytes>) returns (r: Result<(), Error>)
      requires Valid()
      modifies this
      ensures Valid() && active == old(active)
      ensures r == if !active then Err(TransactionInactive)
                   else if store !in owner.databases[key].stores then Err(StoreMissing) else Ok(())
      ensures log == if r.Ok? then old(log) + [Write(Cell(store, k), value)] else old(log)
    {
      if !active {
        return Err(TransactionInactive);
      }
      if store !in owner.databases[key].stores {
        return Err(StoreMissing);
      }
      writes := writes[Cell(store, k) := value];
      log := log + [Write(Cell(store, k), value)];
      assert log[..|log| - 1] == old(log);
      r := Ok(());
    }

    /** A commit either changes nothing or leaves the database as if the logged
        operations had been applied one by one. */
    method CommitWrites() returns (r: Result<(), Error>)
      requires Valid()
      modifies this, owner
      ensures owner.View() == AfterCommit(old(owner.View()), key, old(log))
      ensures r == if TotalBytes(ApplyLog(old(owner.databases[key].stores), old(log))) > owner.maxBytes
                   then Err(QuotaExceeded) else Ok(())
      ensures r.Ok? ==> !active
      ensures r.Err? ==> owner.View() == old(owner.View()) && active == old(active)
      ensures r.Ok? ==> owner.databases == old(owner.databases)[
                          key := old(owner.databases[key]).(
                            stores := ApplyLog(old(owner.databases[key].stores), old(log)))]
      ensures r.Ok? ==> owner.events == old(owner.events) + [Committed(key)] && owner.maxBytes == old(owner.maxBytes)
    {
      var database := owner.databases[key];
      var proposed := ApplyWrites(database.stores, writes, log);
      var bytes := CountBytes(proposed);
      if bytes > owner.maxBytes {
        return Err(QuotaExceeded);
      }
      var committed := ApplyWrites(database.stores, writes, log);
      owner.databases := owner.databases[key := database.(stores := committed)];
      active := false;
      owner.events := owner.events + [Committed(key)];
      r := Ok(());
    }

    method AbortWrites()
      requires Valid()
      modifies this, owner
      ensures owner.View() == After(old(owner.View()), Abort(key, old(log))) && !active
      ensures owner.databases == old(owner.databases) && owner.events == old(owner.events) + [Aborted(key)]
    {
      active := false;
      owner.events := owner.events + [Aborted(key)];
    }
  }

  /** Starts a transaction on a database that has been opened. */
  method BeginTransaction(owner: Databases, key: DatabaseKey) returns (r: Result<Transaction, Error>)
    ensures r.Ok? <==> key in owner.databases
    ensures r.Err? ==> r.error == NotFound
    ensures r.Ok? ==>
              && fresh(r.value) && r.value.owner == owner && r.value.key == key
              && r.value.active && r.value.log == [] && r.value.Valid()
  {
    if key !in owner.databases {
      return Err(NotFound);
    }
    var transaction := new Transaction.Begin(owner, key);
    r := Ok(transaction);
  }

  /** Applies the buffered writes of a log.  The stores were checked when each
      write was recorded, so none is missing here. */
  method ApplyWrites(stores: Stores, buffer: Buffer, ghost log: seq<Write>) returns (result: Stores)
    requires buffer == Coalesce(log) && forall i | 0 <= i < |log| :: log[i].cell.store in stores
    ensures result == ApplyLog(stores, log)
  {
    CoalesceStores(log, stores);
    OverlayIsLog(stores, log);
    result := ApplyBuffer(stores, buffer);
  }

  /** Applies the buffered cells in some order; the result does not depend on it. */
  method ApplyBuffer(stores: Stores, buffer: Buffer) returns (result: Stores)
    requires forall p | p in buffer :: p.store in stores
    ensures result == Overlay(stores, buffer)
  {
    result := stores;
    OverlayNothing(stores);
    var pending := buffer.Keys;
    ghost var done: Buffer := map[];
    while pending != {}
      invariant pending <= buffer.Keys
      invariant PartOf(done, buffer, pending)
      invariant result == Overlay(stores, done)
    {
      var p :| p in pending;
      OverlayStep(stores, done, Write(p, buffer[p]));
      result := SetCell(result, Write(p, buffer[p]));
      done := done[p := buffer[p]];
      pending := pending - {p};
    }
    WholeBuffer(done, buffer);
  }

  /** `done` is `buffer` without the pending cells. */
  ghost predicate PartOf(done: Buffer, buffer: Buffer, pending: set<Cell>) {
    forall p :: (p in done <==> p in buffer && p !in pending) && (p in done ==> done[p] == buffer[p])
  }

  lemma WholeBuffer(done: Buffer, buffer: Buffer)
    requires PartOf(done, buffer, {})
    ensures done == buffer
  {
  }

  method CountBytes(stores: Stores) returns (bytes: nat)
    ensures bytes == TotalBytes(stores)
  {
    var sizes: map<string, nat> := map[];
    var pending := stores.Keys;
    while pending != {}
      invariant pending <= stores.Keys
      invariant sizes == StoreSizes(stores) - pending
    {
      var s :| s in pending;
      var n := AddUp(map k | k in stores[s] :: |stores[s][k]|);
      sizes := sizes[s := n];
      pending := pending - {s};
    }
    assert sizes == StoreSizes(stores);
    bytes := AddUp(sizes);
  }

  method AddUp(m: map<string, nat>) returns (total: nat)
    ensures total == Sum(m)
  {
    total := 0;
    var rest := m;
    while rest != map[]
      invariant total + Sum(rest) == Sum(m)
      decreases |rest|
    {
      var k :| k in rest;
      SumPick(rest, k);
      total := total + rest[k];
      assert rest.Keys == (rest - {k}).Keys + {k};
      rest := rest - {k};
    }
  }
}
