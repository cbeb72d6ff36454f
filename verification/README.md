# BrowsAI: verified models of the browser's state machines

BrowsAI is an agent-facing browser. Around its engine it keeps a set of small
state machines: document and frame trees, storage, caches, streams, layout,
leases, sessions, takeovers, an audit journal, a scheduler and metrics. This
project models those machines in Dafny and proves what they promise over every
input and every run. `dafny verify dfyconfig.toml` checks all of it.

## How the models are built

A component that updates fields in place is a `class` with those fields. Each of
its methods is proved against a function on values (`After`, `Verdict`,
`Refusal`, ...), and the laws of the component are lemmas over whole runs of that
function, or an invariant that relates the fields to a ghost history of the calls
made. Code that only computes is a function with lemmas about it. In the table
below a row whose third cell begins with "Step:" is such a method: its contract
ties one call of the code to one case of the function on values, and states the
new fields and the answer outright besides. The other rows are the laws.

- `Common`, `Decimal`, `Sorting`, `Json`: options and results, saturating and
  wrapping 64-bit addition, list helpers, decimal numerals, stable sorting, JSON
  values.
- `TreeLinks`: trees stored as a map of parent and child links; used by
  `DomObserver` (raw documents) and `Frames` (frame registry).
- `NodeContent`, `AgentTree`, `TreeDiff`: role, name, value and actions of an
  agent node, flattening of a DOM projection into agent nodes, and keyed diffs
  between two such trees.
- `IndexedDb`, `SemanticCache`, `DiffStream`, `Paging`: buffers, caches, streams
  and pages that must agree with a simpler object.
- `Layout`: layout snapshots, hit testing, dirty regions and the compositor.
- `Leases`, `AgentRuntime`, `Takeover`, `AuditJournal`, `Scheduler`,
  `NetworkIdle`: protocols over whole runs.
- `Metrics`: interpolated percentiles and registry merging.

Conventions: UUIDs are numbers passed in as the id drawn next, assumed new where
the text says so; clocks are parameters; coordinates and samples are reals; the
saturating operations of the source are written out; the audit hash is any
function; the iteration order of ordered maps is left open wherever it cannot be
observed.

Results worth noting:

- An inserted DOM node keeps the document a tree exactly when it brings no
  children (`DomObserver.InsertKeepsTreeIffLeaf`); a node record with a filled
  child list is accepted by `apply` and breaks the links.
- An accepted removal comes back if and only if the child lists reachable from
  its target do not loop (`DomObserver.RemovalReturnsIffNoLoop`). Two accepted
  inserts are enough to make one that never does
  (`DomObserver.AcceptedRemovalNeedNotReturn`); no run of leaf inserts can
  (`DomObserver.ReachableIsTree`).
- `set_facts` records no dirty region. It moves the hit at a point if and only if
  the node starts or stops accepting the point while above all other accepting
  boxes (`Layout.FactsMoveHitIff`), which happens on snapshots reached by insert
  and drain (`Layout.FactsAloneAreNotRecorded`). Over whole runs the recorded
  regions cover every changed hit except inside boxes whose facts were set and
  which were not replaced or invalidated afterwards (`Layout.DirtyRegionsSound`).
- `retain_last` chains the kept records anew, so a journal that failed
  verification passes it once anything has been removed
  (`AuditJournal.Journal.RetainLast`).
- The byte quota compares with saturation and adds without it. Every run keeps the
  byte counter exact and the output within the limit if and only if the limit is
  below the largest 64-bit value (`AgentRuntime.ExactBytesIff`); at that value
  three accepted captures, none longer than a string can be, bring the counter
  back to zero (`AgentRuntime.OverflowIsAccepted`). The addition wraps here, as in a build
  without overflow checks; a build with them would stop at that call.
- The session clock saturates. On every run the runtime limit bounds the time
  elapsed since a start if and only if start and limit together stay within the
  clock (`AgentRuntime.RuntimeLimitIff`); script ids stay distinct if and only if
  no more scripts are started than the id counter holds
  (`AgentRuntime.ScriptIdsDistinctIff`).
- The page node carries the address unredacted, so the list an agent receives is
  free of secrets if and only if the address is (`AgentTree.AssembledIsCleanIff`).
- An empty tree diff accounts for every node if and only if the nodes' keys are
  distinct (`TreeDiff.EmptyPinsIffDistinctKeys`); elements sharing an `id` hide
  each other's changes (`TreeDiff.HiddenChange`).

## Model

| member | source | states |
|---|---|---|
| TreeLinks.NotBelowItself | crates/dom-observer/src/lib.rs:294-301 | in a rooted tree no node is its own proper ancestor, so the recursive descent cannot loop |
| TreeLinks.EndsIffNoLoop | crates/dom-observer/src/lib.rs:294-301 | on any links, trees or not, the recursive descent from a node ends if and only if no walk along child lists from it meets a node twice |
| TreeLinks.DescentIsReached | crates/dom-observer/src/lib.rs:294-301 | an ending descent collects exactly the ids that child lists reach |
| TreeLinks.TreeDescentEnds | crates/dom-observer/src/lib.rs:294-301 | in a rooted tree every descent ends |
| TreeLinks.VisitsOnce | crates/dom-observer/src/lib.rs:294-301 | in a rooted tree the collected list holds every proper descendant exactly once and nothing else |
| TreeLinks.PruneKeepsTree | crates/dom-observer/src/lib.rs:234-254 | deleting any downward closed set of nodes leaves a rooted tree, empty exactly when the root was deleted |
| TreeLinks.GraftKeepsTreeIffLeaf | crates/dom-observer/src/lib.rs:211-233 | a fresh node attached to a tree leaves a tree if and only if it arrives without children |
| DomObserver.InsertKeepsTreeIffLeaf | crates/dom-observer/src/lib.rs:211-233 | an accepted insert keeps the document a rooted tree if and only if the node lists no children |
| DomObserver.RemovalIsExact | crates/dom-observer/src/lib.rs:234-254 | in a tree a removal deletes exactly the target and its descendants by parent links; only the parent changes, losing the target; the document empties exactly when the root is removed |
| DomObserver.RemovalReturnsIffNoLoop | crates/dom-observer/src/lib.rs:234-254 | on any document an accepted removal comes back if and only if no walk along child lists from the target loops |
| DomObserver.RemovalDeletesReached | crates/dom-observer/src/lib.rs:234-254 | on any document a removal that comes back deletes exactly the target and what child lists reach from it |
| DomObserver.AcceptedRemovalNeedNotReturn | crates/dom-observer/src/lib.rs:206-254 | two accepted inserts lead from `new` to a document whose accepted removal of the root never comes back |
| DomObserver.RemovalFollowsChildLists | crates/dom-observer/src/lib.rs:234-254 | three inserts lead from `new` to a document where a removal takes along a node whose parent is another one |
| DomObserver.VerdictIsPlain | crates/dom-observer/src/lib.rs:206-291 | a destroyed document refuses everything; otherwise edits and removals need a known node, inserts a new id and either a known parent or a document without root |
| DomObserver.EffectIsPlain | crates/dom-observer/src/lib.rs:211-291 | a refused mutation changes nothing; an accepted insert stores the node and lists it last with its parent, an edit changes exactly its one entry, a removal takes the target and what it reaches, and each is a new generation |
| DomObserver.ReachableIsTree | crates/dom-observer/src/lib.rs:198-330 | every step of a run from `new` by leaf inserts, removals, edits, lifecycle changes and navigations comes back, and the document is a rooted tree with inverse links and no root exactly when it has no nodes |
| DomObserver.GenerationCountsAccepted | crates/dom-observer/src/lib.rs:290-291 | the generation grows by the number of accepted steps of a run, and a run without accepted steps changes nothing |
| DomObserver.ReferenceResolvesIffUnchanged | crates/dom-observer/src/lib.rs:307-319 | after any run a node reference resolves, to the node it was taken from, exactly when nothing was accepted in between; otherwise it is stale |
| DomObserver.RawDocument.Apply | crates/dom-observer/src/lib.rs:206-292 | Step: every mutation that comes back is answered and takes effect in the plain terms of `VerdictIsPlain` and `EffectIsPlain`, and trees stay trees |
| DomObserver.RawDocument.RemoveSubtree | crates/dom-observer/src/lib.rs:234-254 | Step: on any links, collecting along child lists, deleting and unlinking from the parent leaves exactly the other nodes |
| DomObserver.RawDocument.CollectDescendants | crates/dom-observer/src/lib.rs:294-301 | wherever the descent ends, tree or not, the recursion terminates and appends what it collects, each id after what is below it |
| DomObserver.RawDocument.TakeReference | crates/dom-observer/src/lib.rs:307-312 | Step: a reference exists for known nodes only and carries the current generation |
| DomObserver.RawDocument.ResolveReference | crates/dom-observer/src/lib.rs:313-319 | Step: a reference of another generation is stale before its node is looked up |
| DomObserver.RawDocument.Advance | crates/dom-observer/src/lib.rs:320-323 | Step: a lifecycle change is a step of its own and outdates references |
| DomObserver.RawDocument.Navigate | crates/dom-observer/src/lib.rs:324-330 | Step: a navigation empties the document, sets it loading and outdates references |
| Frames.NavigationKeepsTree | crates/frames/src/lib.rs:143-163 | navigating a frame deletes exactly its proper descendants and leaves a tree whose frames carry their address's origin |
| Frames.ReachableIsTree | crates/frames/src/lib.rs:52-163 | every registry reached from `new` with fresh ids is a tree below its first frame, which never changes |
| Frames.FrameTree.Add | crates/frames/src/lib.rs:70-88 | Step: a child is attached under an existing parent; a missing parent changes nothing |
| Frames.FrameTree.NavigateTo | crates/frames/src/lib.rs:143-163 | deletes exactly the proper descendants, keeps every other frame, gives the frame its new address and no children |
| Frames.FrameTree.CollectDescendants | crates/frames/src/lib.rs:165-172 | wherever the descent ends the recursion terminates and appends what it collects, each id after what is below it |
| Frames.FrameTree.ScopedIds | crates/frames/src/lib.rs:116-123 | the scope lists the frame first, every frame within it once, and nothing else |
| Frames.FrameTree.AgentScope | crates/frames/src/lib.rs:125-133 | the agent's scope carries the origin of the current address and exactly the descendants |
| Frames.FrameTree.RequireAccess | crates/frames/src/lib.rs:174-186 | Step: access is granted exactly between known frames whose current addresses have one origin |
| Decimal.NumeralRoundTrip | crates/engine-servo/src/lib.rs:1681 | decimal index numerals are read back unchanged, hence are distinct |
| Decimal.NumeralIsPositional | crates/engine-servo/src/lib.rs:1681 | a numeral denotes its number in decimal place value, without leading zeros |
| NodeContent.RedactSettles | crates/provenance/src/lib.rs:73-83 | redacted text mentions no secret, redacting again changes nothing, and text passes unchanged exactly when it mentioned none |
| NodeContent.ContentIsClean | crates/engine-servo/src/lib.rs:1584-1663 | name and value of an element mention no secret, sensitive fields show no value, addresses appear on links and images only, and buttons and links alone can be activated |
| NodeContent.TellsIffMentions | crates/provenance/src/lib.rs:73-83 | a text is redacted if and only if one of five words stands somewhere in it, in any case |
| NodeContent.SensitiveIffWithheld | crates/engine-servo/src/lib.rs:1613-1638 | a value is withheld if and only if the field is a password or hidden one or one of eleven words stands in its name, field name or autocomplete hint; joining the three by spaces adds and loses no match |
| NodeContent.ContentIsShown | crates/engine-servo/src/lib.rs:1584-1711 | a node's name is its element's name or else its text, its value the address, the own value or else the text, its role what the explicit role or else the tag means, each redacted, and missing exactly when all sources are |
| AgentTree.BuildAgentNode | crates/engine-servo/src/lib.rs:1574-1744 | succeeds exactly on projections without a fault, otherwise reports the first fault met; on success returns the node with its content, state, geometry and child ids and appends the post-order of what is below it; on a fault appends exactly what was built before it |
| AgentTree.Assemble | crates/engine-servo/src/lib.rs:1494-1509 | the node list is the page node, named by the address, whose only child is the DOM root, followed by the post-order of the projection |
| AgentTree.FlatteningIsClean | crates/engine-servo/src/lib.rs:1584-1663 | no node of a flattened projection, at any depth, mentions a secret in its name or value |
| AgentTree.AssembledIsCleanIff | crates/agent-tree/src/lib.rs:145-176 | no node of the assembled list mentions a secret in its name or value if and only if the address, the page node's name, is not empty and mentions none |
| AgentTree.UnderOneChild | crates/engine-servo/src/lib.rs:1680-1684 | the path encoding is injective: an id lies under at most one sibling |
| AgentTree.PostOrderIds | crates/engine-servo/src/lib.rs:1679-1685 | all ids of a flattened projection differ and lie under its path id |
| AgentTree.AssembledIdsUnique | crates/engine-servo/src/lib.rs:1499-1505 | all ids of the assembled list differ if and only if the page id is none of the path ids |
| AgentTree.RebuildPart | crates/engine-servo/src/lib.rs:1679-1685 | wherever a flattened projection sits among unique ids, each listed child id resolves to exactly the matching child's node, at every depth |
| AgentTree.FlatteningIsLossless | crates/engine-servo/src/lib.rs:1494-1509 | from the flat list alone the whole projection, nodes with their content and shape, is rebuilt |
| AgentTree.RebuiltShowsProjection | crates/engine-servo/src/lib.rs:1574-1744 | what is rebuilt from the assembled list shows the projection at every depth: each node has path id, identity key, role, name, value, actions, flags, geometry and origin of its element, child over child in order |
| AgentTree.PageIsShown | crates/agent-tree/src/lib.rs:145-176 | the page node carries the given id and generation, the address as its name and the DOM root as its only child |
| AgentTree.FaultIffMalformed | crates/engine-servo/src/lib.rs:1580-1686 | a projection is refused if and only if some element is not an object with a list of children |
| AgentTree.FirstFaultIsReported | crates/engine-servo/src/lib.rs:1580-1686 | the refusal names the kind of the first malformed element in document order |
| TreeDiff.PatchIsCorrect | crates/diff/src/lib.rs:134-173 | removing, adding and replacing what the diff says turns the last-node-per-key view of `before` into exactly that of `after` |
| TreeDiff.DiffKeysDisjoint | crates/diff/src/lib.rs:147-167 | added, removed and changed nodes have pairwise disjoint keys, each key once |
| TreeDiff.EmptyIffSameView | crates/diff/src/lib.rs:134-173 | the diff is empty if and only if the two views are equal |
| TreeDiff.AddedIff | crates/diff/src/lib.rs:147-151 | a node is added if and only if it is the last of its concept afterwards and its concept, the identity key or else the id, was unknown before |
| TreeDiff.RemovedIff | crates/diff/src/lib.rs:152-156 | a node is removed if and only if it is the last of its concept before and its concept is unknown afterwards |
| TreeDiff.ChangedIff | crates/diff/src/lib.rs:157-167 | a change pairs exactly the differing last nodes of one concept under the later node's id |
| TreeDiff.EmptyPinsIffDistinctKeys | crates/diff/src/lib.rs:130-173 | every list seen without change holds all nodes of `before` if and only if the keys of `before` are distinct |
| TreeDiff.HiddenChange | crates/diff/src/lib.rs:130-173 | replacing a node whose key recurs later by any node with that key gives an empty diff |
| IndexedDb.OverlayIsLog | crates/indexeddb/src/lib.rs:214-261 | applying the coalesced buffer equals applying the recorded operations one by one in program order |
| IndexedDb.LogDecidesCell | crates/indexeddb/src/lib.rs:216-229 | after a log a cell holds the value of its last write, nothing if that was a deletion, and what it held before if it was never written |
| IndexedDb.CommitDecidesCells | crates/indexeddb/src/lib.rs:239-253 | an accepted commit leaves exactly that in every cell of its database and changes no other database and no version |
| IndexedDb.ReadsLastCommit | crates/indexeddb/src/lib.rs:93-269 | over any further run readers find in a cell what the last commit that wrote it wrote last |
| IndexedDb.OpenKeepsCells | crates/indexeddb/src/lib.rs:93-143 | opening creates the named stores, sets the version and touches no cell and no other database |
| IndexedDb.WriteChangesBytes | crates/indexeddb/src/lib.rs:230-235 | a write replaces exactly the bytes of its cell in the total |
| IndexedDb.RunKeepsQuota | crates/indexeddb/src/lib.rs:93-143 | over any run every database stays within the quota, no version decreases and no store disappears |
| IndexedDb.ReachableWithinQuota | crates/indexeddb/src/lib.rs:86-92 | from a new store every reachable state holds at most the quota, itself at least one |
| IndexedDb.Databases.OpenDatabase | crates/indexeddb/src/lib.rs:93-143 | Step: refused exactly when the requested version is below the current one; otherwise creates missing stores, never drops data, and records an upgrade or an opening |
| IndexedDb.Transaction.Get | crates/indexeddb/src/lib.rs:176-187 | Step: reads see committed data only; buffered writes play no part |
| IndexedDb.BeginTransaction | crates/indexeddb/src/lib.rs:144-168 | Step: a transaction starts, active and empty, exactly on an opened database |
| IndexedDb.Transaction.Record | crates/indexeddb/src/lib.rs:188-213 | an accepted put or delete extends the transaction's log, a refused one leaves it, and the buffer stays the coalesced log |
| IndexedDb.Transaction.CommitWrites | crates/indexeddb/src/lib.rs:214-261 | a commit that fits the quota leaves the database with the log applied in order and records it; any other changes nothing |
| IndexedDb.Transaction.AbortWrites | crates/indexeddb/src/lib.rs:262-269 | Step: an abort leaves every database unchanged and records the event |
| IndexedDb.Databases.TakeEvents | crates/indexeddb/src/lib.rs:170-172 | Step: hands over all events and touches no database |
| IndexedDb.ApplyBuffer | crates/indexeddb/src/lib.rs:216-229 | the buffered cells may be applied in any order: the result is the buffered view |
| IndexedDb.CountBytes | crates/indexeddb/src/lib.rs:230-235 | the loop sums the bytes of all values of all stores, independent of order |
| SemanticCache.RecencyOrder | crates/application-ir/src/lib.rs:218-237 | the reference recency list of a history is ordered by the last use of each key |
| SemanticCache.LruTouch | crates/application-ir/src/lib.rs:218-237 | one insert or hit moves its key to the back of the last distinct keys or pushes it there dropping the oldest; a miss changes nothing |
| SemanticCache.LruShape | crates/application-ir/src/lib.rs:218-237 | a cache equal to the reference has no duplicate keys, respects its capacity and is ordered by last use |
| SemanticCache.LruCache.InsertTree | crates/application-ir/src/lib.rs:218-230 | after the insert the queue is exactly the last `max_entries` distinct keys of the touch history and every key maps to its last inserted tree |
| SemanticCache.LruCache.Lookup | crates/application-ir/src/lib.rs:232-237 | returns the last tree inserted under a held key and keeps the cache equal to the reference LRU |
| SemanticCache.LruCache.Evict | crates/application-ir/src/lib.rs:225-229 | the eviction loop keeps the longest recent suffix that fits and drops exactly the evicted keys' trees |
| Layout.HitTestIsTop | crates/layout-observer/src/lib.rs:104-129 | hit testing returns the unique accepting box above all others by z-index and node id, and none exactly when no box accepts the point |
| Layout.HitExplained | crates/layout-observer/src/lib.rs:104-129 | the hit in plain inequalities: a visible, unclipped, enabled box taking pointer events that holds the point, and one of its hit regions if it has any, with no such box above it by z-index and then id; none exactly without such a box in sight |
| Layout.DirtyRegionsSound | crates/layout-observer/src/lib.rs:62-97 | over any run of inserts, removals, invalidations, facts changes and drains every point whose hit changed lies in a region recorded during the run or in the box of a node whose facts were set and which was neither replaced nor invalidated afterwards |
| Layout.SettledRunsAreCovered | crates/layout-observer/src/lib.rs:62-97 | when every facts change was followed up the recorded regions cover every changed hit |
| Layout.NoFactsRunsAreCovered | crates/layout-observer/src/lib.rs:62-97 | on runs without facts changes the recorded regions cover every changed hit |
| Layout.DrainsLoseNothing | crates/layout-observer/src/lib.rs:95-97 | over any run what drains handed out and what is left make up what was there and what was recorded, in order |
| Layout.RunKeepsKeyed | crates/layout-observer/src/lib.rs:62-97 | on every run boxes stay stored under their own ids |
| Layout.LastTouchDecides | crates/layout-observer/src/lib.rs:62-85 | after any run a box is there if and only if its last insert or removal was an insert, and is then the inserted one |
| Layout.LastFactsDecide | crates/layout-observer/src/lib.rs:71-74 | after any run a node has the hit regions of its last facts change |
| Layout.RemovedIsNeverHit | crates/layout-observer/src/lib.rs:80-129 | a removed node is hit nowhere until it is inserted again |
| Layout.FactsMoveHitIff | crates/layout-observer/src/lib.rs:71-74 | a facts change moves the hit at a point if and only if the point is in view and the node starts or stops accepting it while lying above every other accepting box |
| Layout.FactsAloneAreNotRecorded | crates/layout-observer/src/lib.rs:71-74 | on a snapshot reached by an insert and a drain a facts change moves a hit while nothing is recorded |
| Layout.Compose | apps/browsai-desktop/src/lib.rs:115-136 | the paint commands are exactly the visible unclipped boxes, each painted once, sorted by z-index and node id |
| Layout.HitIsLastPainted | apps/browsai-desktop/src/lib.rs:115-136 | at every point in view the hit is the node of the last painted command whose box accepts the point, and none if there is no such command |
| Layout.LayoutSnapshot.InsertBox | crates/layout-observer/src/lib.rs:62-69 | Step: records the old and the new rectangle and keeps boxes stored under their ids |
| Layout.LayoutSnapshot.RemoveBox | crates/layout-observer/src/lib.rs:80-85 | Step: returns and deletes a known box and records its rectangle; an unknown id changes nothing |
| Layout.LayoutSnapshot.InvalidateBox | crates/layout-observer/src/lib.rs:87-93 | Step: records the rectangle of a known box and changes nothing else |
| Layout.LayoutSnapshot.SetHitRegions | crates/layout-observer/src/lib.rs:71-74 | Step: replaces the node's hit regions and records no region |
| Layout.LayoutSnapshot.DrainDirtyRegions | crates/layout-observer/src/lib.rs:95-97 | Step: hands over all recorded regions and starts empty |
| Paging.FillPage | apps/browsai-cli/src/main.rs:1764-1786 | a page advances whenever items remain, holds exactly the fitting items it passed, respects count and bytes, and stops early only for count, time, bytes or one oversized item |
| Paging.BoundedStringPage | apps/browsai-cli/src/main.rs:1757-1795 | the page and its decimal cursor describe the same split of the values, within the byte limit |
| Paging.FollowCursors | apps/browsai-cli/src/main.rs:1757-1795 | for any clocks, following the cursor ends after at most one page per item and one more and delivers every item that fits a page, once and in order |
| Paging.QueryPagesConcatenate | crates/agent-protocol/src/lib.rs:406-446 | chained pages of a query concatenate to the unpaged query |
| Paging.PageOf | crates/agent-protocol/src/lib.rs:406-446 | a page starts at the offset within the list, is as long as the limit unless the list ends, reports its total, and its cursor reads back as the next offset |
| Paging.SelectJoins | crates/agent-protocol/src/lib.rs:406-446 | selection joins over lists, hence keeps the matching items in order |
| Paging.AllPagesFrom | crates/application-ir/src/lib.rs:383-422 | the pages from any offset concatenate to the rest of the matches |
| DiffStream.MergedMeaning | crates/diff/src/lib.rs:74-93 | merging publishes of one generation loses and reorders no operation, leaves neighbours of different generations and keeps sequence numbers increasing |
| DiffStream.MergedGrows | crates/diff/src/lib.rs:77-82 | coalescing into the last entry is the same as merging the extended run of publishes |
| DiffStream.Stream.Publish | crates/diff/src/lib.rs:74-93 | the retained entries stay the longest suffix within capacity of the merged log since the last drain and `dropped` counts exactly the missing ones; returns the sequence of the entry holding the operations |
| DiffStream.Stream.Drain | crates/diff/src/lib.rs:95-106 | returns the whole merged log when it fits the capacity, otherwise exactly how many entries were lost |
| DiffStream.Stream.DrainWithLoss | crates/diff/src/lib.rs:109-114 | returned and lost entries together make up the merged log |
| DiffStream.Stream.Replay | crates/diff/src/lib.rs:116-118 | a replay shows the retained suffix with strictly increasing sequence numbers |
| Leases.ScopesStayUnique | crates/agent-protocol/src/lib.rs:135-154 | on any run no two stored leases share a scope |
| Leases.TraceGrant | crates/agent-protocol/src/lib.rs:128-166 | every stored lease is a grant of the run that was not released since |
| Leases.GrantedIffAllEnded | crates/agent-protocol/src/lib.rs:135-182 | an acquire is granted if and only if every earlier grant of its scope has expired by now or saw a release call with its id and its owner |
| Leases.ReleasedByOwner | crates/agent-protocol/src/lib.rs:156-166 | a lease is released only by a call naming its id and its owner |
| Leases.ForeignReleaseChangesNothing | crates/agent-protocol/src/lib.rs:156-166 | a release of an unknown lease or by a stranger leaves every lease in place |
| Leases.ActiveIffNotEnded | crates/agent-protocol/src/lib.rs:175-182 | listing the active leases shows a grant if and only if it has not ended |
| Leases.EndIsEarliest | crates/agent-protocol/src/lib.rs:156-182 | a granted lease stops holding at its expiry or at the first release by its owner, whichever comes first |
| Leases.HoldingIntervalsDisjoint | crates/agent-protocol/src/lib.rs:135-182 | of two grants of one scope the earlier has stopped holding when the later is granted |
| Leases.LeaseManager.TryAcquire | crates/agent-protocol/src/lib.rs:135-154 | Step: expired leases go first; then the lease is granted with its saturating expiry or refused as held |
| Leases.LeaseManager.TryRelease | crates/agent-protocol/src/lib.rs:156-166 | Step: only the owner of a stored lease releases it; every refusal names its reason and changes nothing |
| Leases.LeaseManager.Expire | crates/agent-protocol/src/lib.rs:180-182 | Step: exactly the leases running past now stay |
| Leases.LeaseManager.ListActive | crates/agent-protocol/src/lib.rs:175-178 | Step: lists and keeps exactly the leases running past now |
| AgentRuntime.UsageIsAccepted | crates/agent-runtime/src/lib.rs:549-595 | on every run a session's counters stay within its limits, actions and events equal the totals of its accepted calls, bytes equal them up to whole wraps of the counter, and exactly for byte limits below the largest 64-bit value |
| AgentRuntime.ExactBytesIff | crates/agent-runtime/src/lib.rs:577-595 | every run keeps an exact byte counter and the output within the limit if and only if the limit is below the largest 64-bit value |
| AgentRuntime.OverflowIsAccepted | crates/agent-runtime/src/lib.rs:577-595 | under the largest limit two captures of the greatest text length and one of two bytes are all accepted and leave the counter at zero |
| AgentRuntime.StartedAtFirstStart | crates/agent-runtime/src/lib.rs:513-535 | the recorded start is the clock at the first start; pausing and resuming never move it |
| AgentRuntime.NothingAcceptedOutOfTime | crates/agent-runtime/src/lib.rs:751-786 | an accepted metered call comes within the runtime limit since the first start by the clock, and by the sum of elapsed times whenever start and limit stay within the clock |
| AgentRuntime.ActionsNeedBothGrants | crates/agent-runtime/src/lib.rs:549-565 | on every run an accepted action has its capability, and a started script the script capability, both in the policy and in the set its session was opened with |
| AgentRuntime.ActionAcceptedIff | crates/agent-runtime/src/lib.rs:549-565 | an action is accepted if and only if its session runs in time, both grants are there and its accepted actions leave one free |
| AgentRuntime.OpenDecidesGrants | crates/agent-runtime/src/lib.rs:486-507 | a session keeps the capabilities and limits it was opened with |
| AgentRuntime.RuntimeLimitIff | crates/agent-runtime/src/lib.rs:751-786 | every run keeps metered calls within the limit of elapsed time since a start if and only if start and limit together are at most the largest 64-bit value |
| AgentRuntime.CancelledIsAbsorbing | crates/agent-runtime/src/lib.rs:513-547 | a cancelled session stays cancelled for the rest of the run and none of its metered calls is accepted |
| AgentRuntime.ScriptsStayPartitioned | crates/agent-runtime/src/lib.rs:364-438 | while no more scripts are started than the id counter holds, each started script is in exactly one of active, finished and cancelled and the counter counts the starts |
| AgentRuntime.ScriptIdsDistinctIff | crates/agent-runtime/src/lib.rs:385-398 | on every run the ids of started scripts are distinct if and only if no more scripts are started than the id counter holds |
| AgentRuntime.FailedFinishKeepsScripts | crates/agent-runtime/src/lib.rs:400-424 | a refused finish leaves every script and the id counter as they were |
| AgentRuntime.SessionRuntime.OpenSession | crates/agent-runtime/src/lib.rs:486-507 | Step: a new session is created unused and unstarted, other sessions untouched |
| AgentRuntime.SessionRuntime.StartSession | crates/agent-runtime/src/lib.rs:513-526 | Step: starts created and paused sessions only and keeps an earlier start time |
| AgentRuntime.SessionRuntime.PauseSession | crates/agent-runtime/src/lib.rs:528-535 | Step: pauses running sessions only |
| AgentRuntime.SessionRuntime.CancelSession | crates/agent-runtime/src/lib.rs:537-547 | Step: cancels any session that is not over |
| AgentRuntime.SessionRuntime.RequireRunning | crates/agent-runtime/src/lib.rs:771-786 | Step: the gate passes running sessions within their time and cancels the ones it finds out of time |
| AgentRuntime.SessionRuntime.ConsumeOne | crates/agent-runtime/src/lib.rs:549-565 | Step: an action needs the gate, both capability grants and a free action, checked in that order; a refusal charges nothing |
| AgentRuntime.SessionRuntime.Record | crates/agent-runtime/src/lib.rs:567-575 | Step: an event needs the gate and a free event; a refusal charges nothing |
| AgentRuntime.SessionRuntime.Capture | crates/agent-runtime/src/lib.rs:577-595 | Step: captured text needs the gate and room for its bytes under saturating comparison; its bytes are added with wrap-around; a refusal charges nothing |
| AgentRuntime.SessionRuntime.Advance | crates/agent-runtime/src/lib.rs:751-769 | Step: advances the saturating clock and cancels exactly the running sessions that are out of time |
| AgentRuntime.ScriptRuntime.BeginScript | crates/agent-runtime/src/lib.rs:364-398 | Step: a valid request on a running session is charged one action and becomes active under a new id with its UTF-8 length; refusals start nothing |
| AgentRuntime.ScriptRuntime.EndScript | crates/agent-runtime/src/lib.rs:400-431 | Step: a finish by the owning session within the output limit retires the script and adds its bytes with wrap-around; any failure leaves it active |
| AgentRuntime.ScriptRuntime.DropScript | crates/agent-runtime/src/lib.rs:433-438 | Step: only the owning session cancels an active script |
| Takeover.RunConsistent | crates/agent-runtime/src/lib.rs:162-266 | after any run the last audit event of each id is its session's state, terminal events are last, and the human owns exactly the active, paused and completed sessions |
| Takeover.TerminalOncePerId | crates/agent-runtime/src/lib.rs:242-266 | a completed or expired event occurs at most once per id and is its last event |
| Takeover.SweepEndsDueSessions | crates/agent-runtime/src/lib.rs:198-210 | after an expiry sweep every session due by then is completed or expired |
| Takeover.StepBrings | crates/agent-runtime/src/lib.rs:162-266 | a session changes only from an open state to the state the call stands for, keeping agent, reason and deadline |
| Takeover.MoveTakesEffect | crates/agent-runtime/src/lib.rs:186-197 | accept and resume make an open session active, pause paused and complete completed, owned by the human |
| Takeover.ExpiredAllConsistent | crates/agent-runtime/src/lib.rs:198-210 | a sweep ends exactly the listed sessions that are not over and leaves the others as they were |
| Takeover.TakeoverManager.RequestTakeover | crates/agent-runtime/src/lib.rs:162-185 | Step: a request opens an agent-owned session with a saturating deadline and logs it |
| Takeover.TakeoverManager.MoveSession | crates/agent-runtime/src/lib.rs:186-197 | Step: the human moves change a session and log it exactly when it is known and not over |
| Takeover.TakeoverManager.ExpireSessions | crates/agent-runtime/src/lib.rs:198-210 | Step: the sweep expires exactly the due sessions, each logged once, in the order the map lists them |
| Takeover.TakeoverManager.ChangeState | crates/agent-runtime/src/lib.rs:242-266 | Step: terminal sessions never change; every change is logged |
| AuditJournal.ChainOrCollision | crates/audit/src/lib.rs:130-168 | for any integrity function, two nonempty verifying journals of any lengths with equal last integrity are identical record for record or contain two records with different contents and one hash |
| AuditJournal.ChainDeterminesJournal | crates/audit/src/lib.rs:130-168 | the corollary for an integrity function without collisions: equal last integrity means equal journals |
| AuditJournal.Journal.Append | crates/audit/src/lib.rs:68-83 | Step: the new record continues numbering and chain; the journal verifies afterwards exactly if it did before |
| AuditJournal.Journal.RetainLast | crates/audit/src/lib.rs:113-128 | keeps exactly the last ids and events in order; the result verifies whenever something was removed or it verified before |
| AuditJournal.Journal.VerifyIntegrity | crates/audit/src/lib.rs:130-142 | accepts exactly the journals whose records are numbered, linked and sealed throughout |
| Scheduler.PendingIndices | crates/compatibility-check/src/lib.rs:318-326 | lists exactly the pending and retry-pending sites, in increasing order |
| Scheduler.RunInv | crates/compatibility-check/src/lib.rs:558-573 | on every run each held site is pending and held once, its attempt number counts its earlier runs, and a site let go has run within the limit |
| Scheduler.RunBounded | crates/compatibility-check/src/lib.rs:558-573 | every step uses up work, so runs are finite |
| Scheduler.BatchesFillWorkers | crates/compatibility-check/src/lib.rs:558-561 | a batch is the front of the queue, never exceeds the workers, and only the last one is smaller |
| Scheduler.RetryIff | crates/compatibility-check/src/lib.rs:563-573 | a site is retried if and only if attempts remain and a timeout, hang or crash is among its failures |
| Scheduler.SchedulerTheorem | crates/compatibility-check/src/lib.rs:506-573 | for any distinct list of sites, runs have at most twice (maximum attempts + 1) steps per site; only listed sites run, each at least once by the end and at most maximum attempts + 1 times; no index is held twice |
| Scheduler.OnlyPendingSitesRun | crates/compatibility-check/src/lib.rs:318-573 | of a corpus exactly the pending and retry-pending sites run, each within the same bounds |
| Scheduler.PersistentFailureUsesEveryAttempt | crates/compatibility-check/src/lib.rs:506-573 | if every run fails retryably and is reported, each pending site runs exactly maximum attempts + 1 times |
| Scheduler.RunScheduler.NextBatch | crates/compatibility-check/src/lib.rs:558-561 | Step: takes a nonempty front part of a nonempty queue, bounded by the workers, and keeps the rest in order |
| Scheduler.RunScheduler.Retry | crates/compatibility-check/src/lib.rs:563-573 | Step: requeues a site at the back with the next attempt exactly when a timeout, hang or crash leaves attempts |
| NetworkIdle.WaitForNetworkIdle | crates/engine-servo/src/lib.rs:2024-2114 | ends within the effective maximum over 70 ms plus one iterations; ends early exactly at the first poll closing an unbroken run of polls, all meeting the five quiet conditions, that spans the effective idle time |
| NetworkIdle.PollUntilIdle | crates/engine-servo/src/lib.rs:2045-2113 | the loop for given bounds: terminates, times out exactly when the maximum has passed, and never overlooks an earlier quiet span |
| NetworkIdle.QuietIff | crates/engine-servo/src/lib.rs:2045-2113 | the five quiet conditions in plain terms |
| NetworkIdle.BoundsAreWidened | crates/engine-servo/src/lib.rs:2024-2044 | the maximum is widened to the quiet floor and one millisecond, the idle time to fifty, and neither further |
| Sorting.SortForgetsOrder | crates/metrics/src/lib.rs:92-93 | lists with the same elements in any order sort to the same list |
| Metrics.OneAscendingOrder | crates/metrics/src/lib.rs:92-93 | a multiset of samples has exactly one ascending arrangement |
| Metrics.ValueMonotone | crates/metrics/src/lib.rs:94-102 | the interpolated value never decreases along the positions of a sorted list |
| Metrics.PercentileMonotone | crates/metrics/src/lib.rs:82-103 | percentiles never decrease with the rank |
| Metrics.PercentileWithinSamples | crates/metrics/src/lib.rs:82-103 | every percentile lies between the least and the greatest sample, which the end ranks attain |
| Metrics.PercentileInterpolates | crates/metrics/src/lib.rs:94-102 | a rank a fraction of the way between two neighbouring samples gives their mean weighed by that fraction |
| Metrics.PercentileExistsIff | crates/metrics/src/lib.rs:82-91 | there is a percentile if and only if there are samples and the rank lies between zero and one |
| Metrics.PercentileOfMultiset | crates/metrics/src/lib.rs:92-102 | a percentile depends only on the multiset of samples |
| Metrics.MergeOrderIrrelevant | crates/metrics/src/lib.rs:123-135 | for a name with samples on both sides the percentiles after merging are the same in either order |
| Metrics.MetricRegistry.Merge | crates/metrics/src/lib.rs:123-135 | counters add up, gauges are replaced, samples are appended, mismatched kinds stay, names on one side only are kept or copied |
| Metrics.MetricRegistry.Observe | crates/metrics/src/lib.rs:69-77 | Step: a sample is appended to a sample metric, starts a new one, and leaves other kinds and names alone |
| Metrics.MetricRegistry.PercentileFor | crates/metrics/src/lib.rs:82-103 | Step: gives the interpolated percentile of a sample metric and nothing for bad ranks, other kinds or no samples |

## Left out

- The embedded engine, injected page scripts, the HTTP server, the command line and file stores: foreign calls and input/output.
- Relationships, provenance, confidence, descriptions, semantic roles and selection state of agent nodes: constants, or the node's own id.
- The match predicates of node and entity queries: paging is stated for any predicate.
- `FrameTree::from_json`: it does not check acyclicity, so tree laws are stated for runs from `new`.
- The duplicate-id error of `add_child` and id collisions elsewhere: ids are drawn fresh.
- The missing-store errors inside `commit`: stores are checked when a write is recorded and never removed, so they cannot occur.
- Scroll offsets, transforms and overlaps of layout facts, and the viewport size carried by a compositor frame: they take no part in hit testing or paint order.
- The order in which ordered maps are iterated (order of diff entries, of expiry events and of summation): any order is allowed.
- Challenge solving, trajectories, fingerprints, credentials, the identity vault, clipboard and file broker.
- Floating-point rounding and NaN, exhaustion of 64-bit counters other than the saturating ones and the byte counter, and the accuracy of clocks.
- Serialization, `query_shaped`, `render`, `records_for`, lease interruption, metric domains and other one-line views: they would only add easy members.
- DomObserver.RawDocument.Apply: speaks of calls that come back; when an accepted removal does not is said by `DomObserver.RemovalReturnsIffNoLoop`.
