# Verified model of the Loom-team core

A Dafny model of the algorithms of this repository whose correctness is least visible from reading one function: the
cycle checker of the architecture suite, the DAG layout of the canvas, the browser's session connection, the JSON-RPC
bridge, the transcript builder, the delta compactor, the icon codemod and the A2UI message processor.
`dafny verify dfyconfig.toml` checks all of it (Dafny 4.11).

Code that changes variables or fields step by step is a method or a class with `modifies` clauses, proved against
specification functions and predicates; what those promise is proved in lemmas over every input, every run or every
interleaving of events.

Each main result is also told over inputs and results alone, naming no function the code is proved against: the gate's
verdict in walks of input edges (`CycleRule.InputVerdict`), the layout in its options (`DagLayout.LayoutOverInput`), the
timer of the connection in milliseconds (`AcpConnection.ConflictArmsTimer`), settlements in the members of messages
(`Bridge.SettledIff`), the transcript in its history (`Transcript.ShowsHistory`), surfaces in their messages
(`A2uiSurfaces.RunsTo`), the compactor in its table (`Compaction.Rewritten`, `Compaction.Counts`), the bridge's lines in
its output (`Framing.Arrived`), the codemod in nodes, statements and text (`IconCodemod.IconsAreExposed`,
`IconCodemod.ImportsNeeded`, `TextEdits.EditLands`).

| files | what they model |
|---|---|
| `Graphs` | walks, reachability, cycles, closed sets: the vocabulary of both cycle detectors |
| `Sorting` | the stable sort of the JavaScript runtime |
| `TarjanTheory`, `CycleRule` | `executeCycleRule`: scoped adjacency, Tarjan's recursion, violations |
| `BackEdges`, `SearchOrders`, `EdgeKeys`, `Ranks`, `DagLayout` | `computeDAGLayout`: depth-first back-edge removal, its dependence on the order of ids and edges, flags by key, Kahn ranking, coordinates |
| `DetectorsAgree` | the cycle rule and the layout judge a graph alike |
| `AcpConnection`, `BrowserAcpClient` | attach, probe, reconnect timer and event source of `BrowserAcpClient` |
| `Framing` | the `\n\n` splitter of the prompt stream and the line framing of the bridge |
| `Bridge` | pending requests of `OpenCodeSession`: responses, timeouts, exit |
| `Transcript` | `historyNotificationsToMessages` |
| `Compaction` | the keyset pagination loop that rewrites the rows it reads |
| `TextEdits`, `IconCodemod` | the icon codemod: visitor, local names, text edits |
| `A2uiSurfaces` | path updates and the per-surface fold of `processA2UIMessages` |
| `Wrappers`, `Seqs`, `Text` | optional values, sequences, white space and numerals |

Where the code falls short of what one would expect, the code is modelled as it is and the exact condition is proved:

- An empty node id is read as the end of Tarjan's stack (`check-backend-architecture.ts:290`). The components partition
  the scope if and only if no scoped id is empty; the verdict is right if and only if no cycle leads to an empty id. For
  every graph it is settled which ids a report names (`CycleRule.Named`), and silence alone is reliable if and only if
  the graph has no cycle or names some id (`CycleRule.ExecuteCycleRule`); a cycle through an empty id and one other id
  goes unreported (`CycleRule.EmptyPairIsSilent`).
- Two edges whose ids contain the separator of `edgeKey` can share a key, and an edge on no cycle is then flagged
  (`DagLayout.CollidingIdsMisflag`). For one layout the flags are exact if and only if no other edge shares a key with a
  back edge (`DagLayout.FlagsExactIff`); in whatever order the ids and edges of a graph are listed they are exact if and
  only if no edge on a cycle shares its key with another edge (`EdgeKeys.CyclicKeysIff`). Ids without the separator meet
  it.
- `newSession` and `loadSession` set the session id before attaching, so a new session can resume from an event id of
  the old one: exactly when one was held (`AcpConnection.CursorOwnedIff`).
- An attached client falls idle not only on a final conflict: an empty session id lets the reconnect timer fire into
  nothing (`AcpConnection.EmptySessionStalls`). These are the only two ways (`AcpConnection.FallsIdleIff`). A conflict
  that arrives after its session was left still counts (`AcpConnection.LateConflictCounts`).
- A chunk reaches back to an older message exactly when it continues the kind seen last and its stream is no longer the
  newest message (`Transcript.TouchesLastIff`), which an empty chunk can bring about (`Transcript.AfterEmptyChunk`);
  cutting a run differently changes the transcript exactly when the first piece is all newlines and the next text
  starts with one (`Transcript.PiecesIffWhole`).
- Arrays are written under the segment itself but read under the integer it parses to. Every value set under a path is
  read back if and only if the segments that meet arrays are plain numerals (`A2uiSurfaces.ReadBackIff`); another path
  reads as before if and only if, resolved against the data, it parts from the updated one
  (`A2uiSurfaces.ElsewhereIff`). Setting the length of an array does not commute with writing into it
  (`A2uiSurfaces.CommuteIff`).
- The server puts an id line before the data line of a frame that carries an event id, and the client passes over
  frames that do not begin with their data line: the payloads sent are the payloads handed on if and only if no frame
  has an id and no payload has an empty line or a line break at its end (`Framing.PayloadsArriveIff`).
- An icon that the file imports as a type only gets no value import: all icons are bound as values if and only if none
  of them is imported that way (`IconCodemod.BoundAsValuesIff`).
- Rows with a rowid of 0 or below are never compacted (`Compaction.CompactsEverythingIff`).

## Model

| member | source | states |
|---|---|---|
| CycleRule.ExecuteCycleRule | scripts/fitness/check-backend-architecture.ts:233-319 | the verdict is right (silent iff the scoped graph is acyclic; every id on a cycle is on exactly one reported path; each path is a whole multi-node component or a self-edge) if and only if no id on a cycle reaches an empty id, which is so whenever no scoped id is empty; for every graph the ids on reported paths are exactly the named ones, and silence is right if and only if the graph has no cycle or some id is named; all of it also told over `graph.nodes` and `graph.edges` alone (`InputVerdict`) |
| CycleRule.VerdictOverInput | scripts/fitness/check-backend-architecture.ts:233-319 | in terms of the input alone, for every graph: an id on a reported path is that of a node the selector accepts, and which ids are on paths is settled. With no empty accepted id: nothing is reported iff no walk of input edges between accepted ids closes; an id is on a path iff such a walk leads from it to itself, an edge to itself being enough; two ids share a path iff such walks join them both ways; each path lists ids in order without repeats, two at least or one twice; no id is on two paths, and no earlier path leads to a later one |
| CycleRule.NamedIsInput | scripts/fitness/check-backend-architecture.ts:286-318 | the ids a report names, told in walks of input edges between accepted nodes |
| CycleRule.ReportNames | scripts/fitness/check-backend-architecture.ts:286-318 | for every graph, with an empty id or without: an id is on a reported path iff it is not empty, lies on a cycle and either shares the component of the empty id with a third id or has a self-edge there, or is outside it and has no way to the empty id around the other ids that one reaches |
| CycleRule.VerdictIff | scripts/fitness/check-backend-architecture.ts:306-318 | the verdict on the lists the search emits is right iff no id on a cycle reaches an empty id |
| CycleRule.EmptyPairIsSilent | scripts/fitness/check-backend-architecture.ts:288-293 | a cycle of an empty id and one other id names nobody |
| CycleRule.FindComponents | scripts/fitness/check-backend-architecture.ts:262-304 | the components partition the scope iff no scoped id is empty, and are then the classes of mutual reachability; every emitted list but one is a whole component, in reverse topological order; the one, emitted for an empty id, holds the other ids of its component; missing are the empty id and the ids that lead to it around the other ids it reaches |
| CycleRule.DoneComponents | scripts/fitness/check-backend-architecture.ts:270-304 | the lists emitted before and after that one partition the ids that keep their component into classes of mutual reachability in the whole graph |
| CycleRule.EmptyEmitted | scripts/fitness/check-backend-architecture.ts:286-298 | popping the empty id empties the stack and leaves it in the on-stack set; from then on the search is one whose call for it never ends, on the edges out of ids not visited yet |
| CycleRule.FirstPhaseEnds | scripts/fitness/check-backend-architecture.ts:286-298 | at that point the visited ids are those the empty id reaches, the components those that do not reach it, and the list emitted those that do |
| CycleRule.AheadReach | scripts/fitness/check-backend-architecture.ts:270-298 | walks to ids that the empty id does not reach are not affected by what was visited before |
| CycleRule.Tarjan.StrongConnect | scripts/fitness/check-backend-architecture.ts:270-298 | one recursive call keeps the search invariant, numbers exactly ids it reaches, leaves older stack entries, indices and low-links alone, and its low-link is a witnessed bound on edges back into the old stack; the call for an empty id starts the second phase |
| CycleRule.Tarjan.SeeNeighbor | scripts/fitness/check-backend-architecture.ts:277-284 | one neighbour, in each of the three cases, keeps the loop invariant of the call |
| CycleRule.Tarjan.Open | scripts/fitness/check-backend-architecture.ts:271-275 | numbering and pushing an id starts the loop invariant |
| CycleRule.Tarjan.PopComponent | scripts/fitness/check-backend-architecture.ts:287-294 | collects, as a multiset, the stack segment from the root upwards without an empty id, and takes exactly these ids out of the on-stack set |
| CycleRule.Tarjan.Finish | scripts/fitness/check-backend-architecture.ts:286-298 | the tail of a call either emits a component or leaves its id on the stack, and in both cases meets the contract of the call |
| CycleRule.SortDedupe | scripts/fitness/check-backend-architecture.ts:253-260 | the in-place sort and truncation keep the set of targets, ordered, without repeats |
| CycleRule.BuildAdjacency | scripts/fitness/check-backend-architecture.ts:245-260 | b is listed for a iff the edge from a to b is in the input and both ids are scoped; every scoped id has a list and no other id |
| CycleRule.ScopedNodes | scripts/fitness/check-backend-architecture.ts:238-242 | the ids of exactly the nodes whose path the selector accepts, in ascending order |
| Sorting.StringLeMeaning | scripts/fitness/check-backend-architecture.ts:238-241 | the order of ids: one is a prefix of the other, or smaller at the first character in which they differ |
| CycleRule.ReportIsCorrect | scripts/fitness/check-backend-architecture.ts:306-318 | reporting the components of a set S that holds with an id its component is a right verdict if and only if every id on a cycle is in S |
| CycleRule.CyclicIffReported | scripts/fitness/check-backend-architecture.ts:307-316 | an id lies on a cycle iff its component yields a violation |
| CycleRule.ReportedPathIsComponent | scripts/fitness/check-backend-architecture.ts:308-315 | a reported path is a whole strongly connected component or a self-edge, and proves a cycle |
| CycleRule.EmptyIdIsNeverReported | scripts/fitness/check-backend-architecture.ts:288-293 | an empty id is on no reported path, so a cycle through it makes the verdict wrong |
| TarjanTheory.EnterKeeps | scripts/fitness/check-backend-architecture.ts:271-275 | entering an unvisited id keeps the invariant: stack free of duplicates with increasing indices, components closed and strongly connected, finished stack ids anchored to older ones |
| TarjanTheory.SeeVisited | scripts/fitness/check-backend-architecture.ts:278-280 | after a recursive call the lowered low-link still bounds every edge back into the old stack and is still attained |
| TarjanTheory.SeeOnStack | scripts/fitness/check-backend-architecture.ts:281-283 | the same for a neighbour that is on the stack |
| TarjanTheory.LeaveKeeps | scripts/fitness/check-backend-architecture.ts:286-298 | an id whose low-link is below its index stays on the stack, anchored to an older id it reaches |
| TarjanTheory.SegmentClosed | scripts/fitness/check-backend-architecture.ts:286-296 | when low-link equals index, no edge leaves the stack segment except into finished components |
| TarjanTheory.SegmentReachesRoot | scripts/fitness/check-backend-architecture.ts:286-296 | every id of that segment reaches the root of the component |
| TarjanTheory.EmitKeeps | scripts/fitness/check-backend-architecture.ts:286-297 | emitting the segment as a component keeps the invariant |
| TarjanTheory.StackIsReaching | scripts/fitness/check-backend-architecture.ts:288-304 | if the bottom entry of the stack is never popped, the ids left on it are exactly those that reach it |
| TarjanTheory.StackIsEmpty | scripts/fitness/check-backend-architecture.ts:300-304 | between root calls the stack is empty |
| TarjanTheory.CondensedMeaning | scripts/fitness/check-backend-architecture.ts:262-304 | the recursive invariant on the component list means partition, mutual reachability and reverse topological order |
| BackEdges.DetectBackEdges | src/client/canvas-sdk/dag-layout.ts:83-118 | the keys are those of the back edges that the search finds in the given order of ids and edges; these are an inclusion-minimal feedback set, each closed into a cycle by the edges kept; there is none iff the graph is acyclic; dropping the flagged keys leaves no cycle |
| BackEdges.BackEdgesAreMinimal | src/client/canvas-sdk/dag-layout.ts:83-118 | for every order of ids and edges the back edges are a minimal feedback set whose members close cycles with the edges kept |
| BackEdges.Finder.Visit | src/client/canvas-sdk/dag-layout.ts:96-109 | the recursive calls with their mutable sets compute the search as a function of orders and open ids |
| BackEdges.VisitKeeps | src/client/canvas-sdk/dag-layout.ts:96-109 | one call of visit leaves the path of open ids alone, finishes its id, only adds finished ids and edges between them, and keeps the invariant of the search |
| BackEdges.SeeKeeps | src/client/canvas-sdk/dag-layout.ts:98-106 | each of the three cases of the edge loop keeps its invariant: every open id reaches the current one along tree edges |
| BackEdges.LeaveKeeps | src/client/canvas-sdk/dag-layout.ts:107-108 | leaving an id gives it a finishing number above those of all targets of its kept edges |
| BackEdges.ClosingIsMinimal | src/client/canvas-sdk/dag-layout.ts:96-118 | a feedback set whose edges each close a cycle with kept edges is minimal |
| BackEdges.NoBackEdgesIffAcyclic | src/client/canvas-sdk/dag-layout.ts:83-118 | a minimal feedback set is empty iff the graph is acyclic |
| EdgeKeys.FlaggedIff | src/client/canvas-sdk/dag-layout.ts:56-118 | the edges flagged by key are a minimal feedback set, and then the back edges themselves, if and only if no other edge shares a key with a back edge |
| EdgeKeys.CyclicKeysIff | src/client/canvas-sdk/dag-layout.ts:56-118 | without self-edges, the flags are the back edges in whatever order the ids and edges are listed if and only if no edge on a cycle shares its key with another edge |
| SearchOrders.Separates | src/client/canvas-sdk/dag-layout.ts:96-118 | of an edge on a cycle and any other edge, the search takes exactly one for a back edge in some order of ids and edges that lists each once |
| SearchOrders.SpineExact | src/client/canvas-sdk/dag-layout.ts:96-109 | where the first edge of each id leads to the next, an edge from an id of that path is a back edge iff it leads to an open id or up the path |
| SearchOrders.AlongPath | src/client/canvas-sdk/dag-layout.ts:83-118 | for every simple path some order makes the search follow it from a first root, and settles the edges out of its ids and those back to the root |
| SearchOrders.FromTwoRoots | src/client/canvas-sdk/dag-layout.ts:111-115 | with v and then an id x it does not reach as first roots, edges back to v are back edges and edges out of x are not |
| EdgeKeys.NulFreeKeysDistinct | src/client/canvas-sdk/dag-layout.ts:56-58 | ids without the separator meet that condition |
| EdgeKeys.KeyInjective | src/client/canvas-sdk/dag-layout.ts:56-58 | keys of edges whose source has no separator determine the edge |
| DagLayout.CollidingIdsMisflag | src/client/canvas-sdk/dag-layout.ts:56-118 | options with separators in their ids for which every layout flags an edge that is on no cycle, whatever the search finds |
| Ranks.BuildRanks | src/client/canvas-sdk/dag-layout.ts:120-155 | without cycles every id is processed and its rank is the length of the longest walk that ends at it |
| Ranks.DrainQueue | src/client/canvas-sdk/dag-layout.ts:134-146 | the queue empties, with counts equal to the edges from unprocessed ids and ranks supported by processed ones |
| Ranks.DrainNode | src/client/canvas-sdk/dag-layout.ts:137-145 | handling the out-edges of one id, parallel edges included, restores the queue invariant |
| Ranks.CountSplit | src/client/canvas-sdk/dag-layout.ts:138-141 | the count of an id splits into edges from the id being processed and from the others |
| Ranks.DrainedIsComplete | src/client/canvas-sdk/dag-layout.ts:134-152 | in an acyclic graph an empty queue means everything was processed, so the rank-0 fallback never fires |
| Ranks.LocalIsLongest | src/client/canvas-sdk/dag-layout.ts:134-154 | ranks that every edge raises and that are tight at some predecessor are longest-walk lengths |
| Ranks.RanksContiguous | src/client/canvas-sdk/dag-layout.ts:120-155 | below a rank in use every smaller rank is in use |
| Ranks.ReachRaisesRank | src/client/canvas-sdk/dag-layout.ts:134-154 | along kept edges every id that can be reached has a higher rank |
| DagLayout.ComputeDAGLayout | src/client/canvas-sdk/dag-layout.ts:157-261 | every distinct non-empty id is placed exactly once; lanes list exactly the boxes of their rank; edges are drawn in order from box to box; ranks are longest paths over unflagged edges; boxes are disjoint, in the frame and in their lane; unflagged edges advance by at least the rank gap; no edge is flagged iff the graph is acyclic; the flags are exact iff no other edge shares a key with a back edge, as when no edge on a cycle shares its key or no id contains the separator; gaps, centring and frame are exact, told over the options and the layout alone (`LayoutOverInput`) |
| DagLayout.LayoutMeetsInput | src/client/canvas-sdk/dag-layout.ts:157-261 | in terms of the options and the result alone, with the defaults as numbers: which ids have boxes, in which order within and across ranks, exact gaps between neighbours and lanes, lanes centred in the frame, a tight frame, and which edges are drawn, from where to where |
| DagLayout.AssembledTight | src/client/canvas-sdk/dag-layout.ts:182-192 | with boxes, some box starts at the padding and some box ends a padding before the far side of the frame, in both directions; without boxes the frame is one box and twice the padding |
| DagLayout.AssembledSpaced | src/client/canvas-sdk/dag-layout.ts:194-224 | neighbours in a lane are a node size and a node gap apart, lanes a node size and a rank gap, and each lane has equal room on both sides |
| DagLayout.UniqueNodes | src/client/canvas-sdk/dag-layout.ts:60-71 | exactly the non-empty ids, each once |
| DagLayout.NormalizeEdges | src/client/canvas-sdk/dag-layout.ts:73-81 | exactly the edges between known, non-empty, different ids |
| DagLayout.FillBuckets | src/client/canvas-sdk/dag-layout.ts:169-176 | each bucket holds the ids of its rank in input order, and only ranks in use have one |
| DagLayout.SortedRanks | src/client/canvas-sdk/dag-layout.ts:178-179 | with contiguous ranks the r-th sorted entry is the non-empty bucket of rank r |
| DagLayout.PlaceRank | src/client/canvas-sdk/dag-layout.ts:194-224 | the boxes of a rank are those of its bucket in order, at the centred positions, in the lane of the rank |
| DagLayout.MainGap | src/client/canvas-sdk/dag-layout.ts:199-204 | a later rank starts at least a rank gap behind the end of an earlier one |
| DagLayout.CrossGap | src/client/canvas-sdk/dag-layout.ts:206-213 | a later box of a lane starts at least a node gap behind the end of an earlier one |
| DagLayout.PlacedDisjoint | src/client/canvas-sdk/dag-layout.ts:194-224 | boxes of different ids do not overlap |
| DagLayout.PlacedInFrame | src/client/canvas-sdk/dag-layout.ts:180-204 | every box is inside the padded frame |
| DagLayout.PlacedInLane | src/client/canvas-sdk/dag-layout.ts:195-223 | every box is inside the rectangle of its rank's lane |
| DagLayout.DrawnAdvance | src/client/canvas-sdk/dag-layout.ts:227-251 | an edge to a higher rank advances by at least the rank gap between its drawn ends |
| DagLayout.FlagsExactIff | src/client/canvas-sdk/dag-layout.ts:157-251 | the flags mark a minimal feedback set whose edges go down in rank, all others up, if and only if no other edge shares a key with a back edge |
| DagLayout.DrawnEnds | src/client/canvas-sdk/dag-layout.ts:226-251 | every edge leaves the middle of the far side of its source box and enters the middle of the near side of its target box |
| DetectorsAgree.ProgramsAgree | src/client/canvas-sdk/dag-layout.ts:83-118 | on one graph, when no cycle leads to an empty id, the cycle rule reports nothing iff the layout flags no edge and there is no self-edge, which the layout drops |
| DetectorsAgree.DetectTwice | scripts/fitness/check-backend-architecture.ts:233-319 | the results of the two programs on one graph without self-edges: no violation iff no flagged edge |
| DetectorsAgree.TrimmedAcyclic | src/client/canvas-sdk/dag-layout.ts:73-81 | dropping self-edges and edges at empty ids hides no cycle but the self-edges when no cycle leads to an empty id |
| DetectorsAgree.BackEdgeIsReported | scripts/fitness/check-backend-architecture.ts:306-318 | both ends of every back edge lie on one reported path |
| DetectorsAgree.ReportedHoldsBackEdge | src/client/canvas-sdk/dag-layout.ts:96-109 | every reported path contains a back edge |
| AcpConnection.ExactlyOnePhase | src/client/acp-client.ts:756-904 | in every reachable state an attached client is in exactly one phase (probing, streaming, waiting, idle), at most one source is live, and it is the newest attempt's for the current session |
| AcpConnection.OpenedByNewest | src/client/acp-client.ts:774-788 | a source is opened only by the newest probe of the attached session, resuming from the last event id held |
| AcpConnection.FallsIdleIff | src/client/acp-client.ts:774-834 | in every run an attached client falls idle iff its newest probe reports a non-retryable issue, which is an ownership conflict of the session, or the timer fires for an empty session id |
| AcpConnection.EmptySessionStalls | src/client/acp-client.ts:774-834 | a run from the start in which the second case happens: attached to the empty id, idle, with no final issue |
| AcpConnection.RetriesCountConflicts | src/client/acp-client.ts:846-859 | over every run the retry table counts the conflicts of a session since they were last forgotten, modulo five |
| AcpConnection.ConflictDelays | src/client/acp-client.ts:846-898 | the k-th conflict waits 1200 * 2^(k-1) ms for k up to 4, below the cap; the fifth is not retryable |
| AcpConnection.ConflictArmsTimer | src/client/acp-client.ts:774-898 | over every run: when the newest probe of the attached session delivers its k-th conflict since the last clearing, the timer is then armed with 1200, 2400, 4800 or 9600 ms, and with nothing for the fifth; the issue is reported with that delay and nothing else changes |
| AcpConnection.RefusalArmsTimer | src/client/acp-client.ts:774-834 | any other refusal delivered by it arms the timer with 2000 ms and is reported as retryable |
| AcpConnection.AnswerOpensSource | src/client/acp-client.ts:774-812 | a probe that was answered, or whose fetch failed, opens the source from the event it resumes from, and nothing else changes |
| AcpConnection.StaleProbeIsDropped | src/client/acp-client.ts:774-776 | a probe that is not the newest, or whose session was left, has no effect, however long it was under way |
| AcpConnection.SettleChangesProbe | src/client/acp-client.ts:861-904 | the end of a fetch changes the probe and the retries of its session only, and leaves an issue iff it was refused |
| AcpConnection.ClosedSourceArmsTimer | src/client/acp-client.ts:812-834 | the failure of a live source closes it and arms the timer with 2000 ms; any other failure does nothing |
| AcpConnection.TimerChanges | src/client/acp-client.ts:824-834 | in every run only a delivery by the newest probe and the failure of a live source arm the timer, and an armed one stays as it is until it fires, or the client attaches or disconnects |
| AcpConnection.TimerReconnects | src/client/acp-client.ts:828-833 | the timer of a session starts a new probe of it from the last event held |
| AcpConnection.AttachProbes | src/client/acp-client.ts:370-469 | attaching closes what was open and starts a probe; the last event id is kept where the session id is the same already, so always when the session was created or loaded |
| AcpConnection.CursorMoves | src/client/acp-client.ts:460-469 | in every run the last event id is that of the newest message with one from the open source, and is dropped when the client attaches to another session or disconnects; nothing else changes it |
| AcpConnection.DisconnectClears | src/client/acp-client.ts:738-752 | disconnecting closes the source and forgets timer, session, cursor and retries, and leaves the probes under way to be dropped |
| AcpConnection.LateConflictCounts | src/client/acp-client.ts:846-852 | a conflict settled after its session was left still uses up a retry |
| AcpConnection.CursorStep | src/client/acp-client.ts:370-469 | a step hands one session's event id to another exactly when a session is created or loaded while one is held |
| AcpConnection.CursorOwnedIff | src/client/acp-client.ts:370-469 | over a run the cursor always belongs to the attached session iff that never happens |
| AcpConnection.ForeignCursorRun | src/client/acp-client.ts:370-373 | a run in which a new session's probe resumes from the old session's event |
| AcpConnection.StepKeepsInv | src/client/acp-client.ts:756-904 | every atomic step keeps the invariant of probes, timer, source and retry table |
| AcpConnection.RunKeepsInv | src/client/acp-client.ts:756-904 | so does every run |
| BrowserAcpClient.AcpClient.constructor | src/client/acp-client.ts:244-261 | a new client is in the initial state |
| BrowserAcpClient.AcpClient.ConnectSource | src/client/acp-client.ts:756-774 | the fields after starting a probe are those of the specified step |
| BrowserAcpClient.AcpClient.AttachSession | src/client/acp-client.ts:460-469 | attaching is the specified step and keeps the invariant |
| BrowserAcpClient.AcpClient.SessionReady | src/client/acp-client.ts:370-390 | so is the end of newSession and loadSession |
| BrowserAcpClient.AcpClient.DisconnectClient | src/client/acp-client.ts:738-752 | so is disconnect |
| BrowserAcpClient.AcpClient.ScheduleReconnectIn | src/client/acp-client.ts:824-834 | a pending timer is kept, otherwise one is armed with the delay |
| BrowserAcpClient.AcpClient.OwnershipConflictRetryDelayMs | src/client/acp-client.ts:846-855 | delay and retry table are those of a refused probe; no delay iff not retryable |
| BrowserAcpClient.AcpClient.ProbeSettled | src/client/acp-client.ts:861-904 | the end of a probe's fetch is the specified step and yields the issue delivered later |
| BrowserAcpClient.AcpClient.ProbeDelivered | src/client/acp-client.ts:774-788 | the continuation of a probe is the specified step |
| BrowserAcpClient.AcpClient.ReconnectTimerFired | src/client/acp-client.ts:828-833 | the timer callback is the specified step |
| BrowserAcpClient.AcpClient.SourceClosed | src/client/acp-client.ts:812-820 | the error handler of a closed source is the specified step |
| BrowserAcpClient.AcpClient.MessageReceived | src/client/acp-client.ts:790-794 | a message moves the cursor of a live source only |
| Framing.Feed | src/client/acp-client.ts:603-655 | the read loop dispatches and keeps over what one split of the whole text gives, for every way to cut it into chunks |
| Framing.FeedStep | src/client/acp-client.ts:613-617 | one chunk extends the pieces and the leftover to those of the longer text |
| Framing.SplitLater | src/client/acp-client.ts:616-617 | splitting more text later equals splitting it all at once, also when the cut falls inside a delimiter |
| Framing.SplitJoins | src/client/acp-client.ts:616-617 | joining the pieces gives the text back, and no piece contains the delimiter |
| Framing.DispatchLines | src/client/acp-client.ts:619-623 | pieces without a payload are skipped, the others passed on in order |
| Framing.PromptEvents | src/client/acp-client.ts:603-655 | the events of a prompt response (data lines of section 9.2.6 of the WHATWG HTML Standard) depend on its text only |
| Framing.PayloadsArriveIff | src/core/acp/session-prompt.ts:99-105 | the payloads of a list of frames are the payloads the client hands on, for every way to cut the stream, iff no frame has an id and every payload is clean: newlines are single and do not come last |
| Framing.EventsAreUnnumbered | src/client/acp-client.ts:619-623 | of clean frames the client hands on exactly those without an id, in order |
| Framing.EventsAreClean | src/client/acp-client.ts:616-623 | whatever the stream, a payload handed on has no empty line and does not end in a line break |
| Framing.LineBuffer.DrainBuffer | docker/opencode-bridge/server.js:161-282 | after each chunk the lines passed on so far and the buffer are those of all output received, split once: the output is lines that end in a newline and the buffer, and of the lines those that are not blank were passed on, unchanged and in order |
| Framing.DrainedArrives | docker/opencode-bridge/server.js:161-282 | of every output, the lines that hold more than white space arrive unchanged and in order, and the buffer is what follows the last newline |
| Framing.LinesUnique | docker/opencode-bridge/server.js:161-282 | an output has one such reading |
| Bridge.EveryRequestOnce | docker/opencode-bridge/server.js:132-575 | in every run each id issued is pending, with its timer armed and in one session, or settled, and settled at most once |
| Bridge.OutcomeIsFinal | docker/opencode-bridge/server.js:298-312 | once settled, a request keeps its outcome for the rest of the run |
| Bridge.SettledIff | docker/opencode-bridge/server.js:132-575 | over every run a request is settled with an outcome iff such an event occurred while it was pending: a response with an error object rejects it with the code of that object, one with a result and no error object resolves it with that result, its timeout as timed out, the exit of its process as exited |
| Bridge.PendingNext | docker/opencode-bridge/server.js:298-575 | a request becomes pending when it is sent in an open session and stays so, with its timer armed, until one of these events; ids are handed out in order |
| Bridge.ExitSettlesAll | docker/opencode-bridge/server.js:171-178 | exit rejects what the session had pending, in order, clears its timers and touches no other session |
| Bridge.SettleAllEffect | docker/opencode-bridge/server.js:174-177 | rejecting a list of ids one by one has exactly that effect |
| Bridge.StepKeepsInv | docker/opencode-bridge/server.js:132-575 | every event keeps the invariant and only appends to the settlements |
| Bridge.RunKeepsInv | docker/opencode-bridge/server.js:132-575 | so does every run |
| Bridge.Tables.SendRequest | docker/opencode-bridge/server.js:565-575 | a request gets an id never settled, is pending and has a timer |
| Bridge.Tables.TimeoutFired | docker/opencode-bridge/server.js:568-571 | a timeout settles its request and removes it |
| Bridge.Tables.HandleMessage | docker/opencode-bridge/server.js:298-324 | a message settles a request iff its id is the number of a pending one and it has a result or an error member; otherwise it goes to the agent if it has an id and a method, is broadcast if it has no id and is an update, and is ignored if neither |
| Bridge.Tables.ProcessExited | docker/opencode-bridge/server.js:171-178 | the exit handler is the specified step |
| Transcript.HistoryNotificationsToMessages | src/core/session-transcript.ts:190-293 | the transcript is the fold of the history, with at most one message per non-empty call id and no repeated adjacent user message; told from the history (`ShowsHistory`), its user messages and consolidated agent messages are the texts given that are not empty and not a repeat, its plans the plans given, all in order, and the message of a tool call shows the last that was given for it |
| Transcript.TextsAreShown | src/core/session-transcript.ts:212-247 | over every history: the contents of the user messages, in order, are the user texts that are not empty and not a repeat, where a repeat has the words of the newest entry, itself a user message; and the same for consolidated agent messages |
| Transcript.PlansAreShown | src/core/session-transcript.ts:272-288 | every plan is shown, in order |
| Transcript.ToolIsShown | src/core/session-transcript.ts:106-177 | a tool call that the history speaks of has exactly one message, which shows the last name, status, kind, input, output, task and content given for it, or the first; the input of a permission request collects the fields given |
| Transcript.StepShows | src/core/session-transcript.ts:199-289 | in every state the invariant allows, a notification changes the transcript as its members say, field by field |
| Transcript.SameUpToSpace | src/core/session-transcript.ts:179-181 | normalised texts are equal iff the texts have the same words |
| Transcript.WordsHoldAll | src/core/session-transcript.ts:179-181 | the words of a text hold all its characters but white space |
| Transcript.StripMeaning | src/core/session-transcript.ts:41 | what is stripped are carriage returns and newlines, all that come first |
| Transcript.StepKeepsInv | src/core/session-transcript.ts:199-290 | one notification appends one message, rewrites one non-user message in place keeping id, role and call id, or does nothing, and keeps the invariant |
| Transcript.FoldKeepsInv | src/core/session-transcript.ts:199-290 | over every history entries keep position, id and role, and user messages never change |
| Transcript.TranscriptInvariant | src/core/session-transcript.ts:190-293 | at most one message per non-empty call id; adjacent user messages differ up to white space |
| Transcript.RunBecomesOneMessage | src/core/session-transcript.ts:27-54 | a run of non-empty chunks of one kind becomes one message: the first text without leading newlines, then the rest |
| Transcript.PiecesIffWhole | src/core/session-transcript.ts:27-54 | delivering a text in pieces equals delivering it whole iff the first piece is not all newlines with newlines to follow |
| Transcript.PiecesExample | src/core/session-transcript.ts:41 | a text of a newline and one more line whose pieces keep a newline that the whole loses |
| Transcript.StripFirstPiece | src/core/session-transcript.ts:41 | stripping the first piece is stripping the whole, exactly in that case |
| Transcript.OpenRunsTouchLast | src/core/session-transcript.ts:248-289 | when every run opens with text, a chunk only appends a message or extends the newest one |
| Transcript.TouchesLastIff | src/core/session-transcript.ts:27-54 | in every state the invariant allows, a chunk touches the newest message iff it does not continue a stream that is no longer newest |
| Transcript.AllTouchLastIff | src/core/session-transcript.ts:199-290 | over a history chunks only touch newest messages iff none of them does |
| Transcript.AfterEmptyChunk | src/core/session-transcript.ts:248-289 | after an empty chunk the next one touches the newest message iff there is no stream of its kind or that stream is the newest message |
| Transcript.EmptyChunkExample | src/core/session-transcript.ts:248-289 | a history in which a text lands in front of a plan that came before it |
| Transcript.TranscriptBuilder.AppendChunk | src/core/session-transcript.ts:27-54 | the in-place update of messages and stream id is the specified one |
| Transcript.TranscriptBuilder.AppendTextMessage | src/core/session-transcript.ts:212-247 | user and consolidated agent messages are appended unless empty or repeated |
| Transcript.TranscriptBuilder.AppendToolCallMessage | src/core/session-transcript.ts:106-124 | a tool call is appended unless its non-empty call id is known |
| Transcript.TranscriptBuilder.ApplyToolCallUpdate | src/core/session-transcript.ts:126-177 | an update rewrites the message of its call id in place or appends one |
| Transcript.TranscriptBuilder.Notify | src/core/session-transcript.ts:199-289 | one iteration of the loop is the specified step and keeps the invariant |
| Compaction.CompactRows | scripts/maintenance/compact-tool-call-param-deltas.ts:113-207 | for every batch size: a matching row of positive rowid whose payload is valid JSON ends up with the compacted payload and every other row as it was (all of them in a dry run); the statistics are those of one visit of each matching row in order, and count what they name |
| Compaction.RunCounts | scripts/maintenance/compact-tool-call-param-deltas.ts:113-207 | the statistics in terms of the table: how many positive matching rows there are, how many have a payload that changes, how many have one that is no valid JSON, and the bytes of the valid ones before and after |
| Compaction.CompactPage | scripts/maintenance/compact-tool-call-param-deltas.ts:142-151 | one page counts its rows and schedules exactly the changed ones |
| Compaction.RowStep | scripts/maintenance/compact-tool-call-param-deltas.ts:143-155 | writing one row moves the table from one cursor to the next |
| Compaction.MatchingStable | scripts/maintenance/compact-tool-call-param-deltas.ts:134-140 | rewriting rows up to the cursor does not change which rows are still to come |
| Compaction.RestOfOrder | scripts/maintenance/compact-tool-call-param-deltas.ts:118-125 | above the cursor remain exactly the later rowids of the order |
| Compaction.CompactsEverythingIff | scripts/maintenance/compact-tool-call-param-deltas.ts:132-156 | all matching rows are compacted iff none at or below rowid 0 would change |
| Compaction.ZeroRowIsMissed | scripts/maintenance/compact-tool-call-param-deltas.ts:132-156 | a table of one row with rowid 0 that would change is not compacted |
| Compaction.SecondPassIsStill | scripts/maintenance/compact-tool-call-param-deltas.ts:113-207 | a second pass changes nothing when compacting twice is compacting once |
| Compaction.Table.Select | scripts/maintenance/compact-tool-call-param-deltas.ts:118-139 | a page is the first matching rows above the cursor in rowid order |
| Compaction.Table.Flush | scripts/maintenance/compact-tool-call-param-deltas.ts:126-131 | the pending updates are written one after the other |
| TextEdits.AppliesAllAtOnce | tools/codemods/replace-inline-svg-with-lucide.ts:612-616 | for edits that do not overlap, an empty one possibly at the start of an earlier one in the list, back-to-front application is the simultaneous substitution of all ranges |
| TextEdits.ReduceIsSubstitute | tools/codemods/replace-inline-svg-with-lucide.ts:615 | applying descending edits one by one is substituting them at once |
| TextEdits.EditLands | tools/codemods/replace-inline-svg-with-lucide.ts:612-616 | the text of an edit stands in the output where the edit starts, moved by what the edits before it added or took |
| TextEdits.StretchStays | tools/codemods/replace-inline-svg-with-lucide.ts:612-616 | every stretch between two edits, before the first and behind the last is kept, moved by the same amount |
| TextEdits.OrderDoesNotMatter | tools/codemods/replace-inline-svg-with-lucide.ts:612-616 | with different starts the result does not depend on the order in which the edits were collected |
| Sorting.SortByStable | tools/codemods/replace-inline-svg-with-lucide.ts:614 | the sort permutes its input and keeps the order of equal elements |
| IconCodemod.TransformSourceFile | tools/codemods/replace-inline-svg-with-lucide.ts:618-699 | the edits replace exactly the visited icons under fresh, pairwise different names, there is an import edit iff a name is new, and the output substitutes all edits at once; an icon is replaced iff it is exposed, and the import edit is as told over the statements and the text |
| IconCodemod.IconsAreExposed | tools/codemods/replace-inline-svg-with-lucide.ts:650-678 | an element is replaced iff it is an icon that a path of child positions reaches past no ignored or replaced element |
| IconCodemod.ImportEditMeans | tools/codemods/replace-inline-svg-with-lucide.ts:545-603 | the import edit covers exactly the declaration that takes more names, or is empty and stands behind the leading directives and imports, with a newline in front iff one is missing there; there is none iff nothing is needed |
| IconCodemod.BoundAsValuesIff | tools/codemods/replace-inline-svg-with-lucide.ts:471-497 | every icon put into a file is bound by a value import, old or new, iff the file imports none of these icons as a type only |
| IconCodemod.BuildImportEdit | tools/codemods/replace-inline-svg-with-lucide.ts:545-603 | the import edit rewrites the declaration that can take more names or inserts behind the leading directives and imports; it is missing iff nothing is needed |
| IconCodemod.FindImportInsertOffset | tools/codemods/replace-inline-svg-with-lucide.ts:499-519 | the offset is the end of the last of the leading directives and imports, behind which no further one comes at once, or 0 without any |
| IconCodemod.ImportIsApart | tools/codemods/replace-inline-svg-with-lucide.ts:545-603 | the import edit overlaps no replaced element; at most it is empty and starts where one starts |
| IconCodemod.CollectEdits | tools/codemods/replace-inline-svg-with-lucide.ts:623-680 | one edit per icon in source order, each rendered with the final local name of its icon |
| IconCodemod.IconsInOrder | tools/codemods/replace-inline-svg-with-lucide.ts:650-678 | not entering replaced or ignored elements makes the replaced ranges disjoint and ordered |
| IconCodemod.PickName | tools/codemods/replace-inline-svg-with-lucide.ts:605-610 | the base name if unused, else the base name, Icon and the first number for which the name is unused; the search ends |
| IconCodemod.TriedSize | tools/codemods/replace-inline-svg-with-lucide.ts:607-608 | i - 1 numbered names are i - 1 different names |
| Text.DecimalInjective | tools/codemods/replace-inline-svg-with-lucide.ts:608-609 | different numbers give different numerals |
| Text.DecimalForm | tools/codemods/replace-inline-svg-with-lucide.ts:608-609 | a numeral has no leading zero |
| IconCodemod.Transformer.ResolveImportName | tools/codemods/replace-inline-svg-with-lucide.ts:637-648 | known names keep their local name, new ones get a fresh one: their own, or a numbered one if that is in use; the lookup among the needed imports never finds anything |
| IconCodemod.Transformer.Visit | tools/codemods/replace-inline-svg-with-lucide.ts:650-678 | visiting a subtree appends exactly the edits of its icons |
| A2uiSurfaces.UpdateWrites | src/client/a2ui/renderer.tsx:565-579 | an update gives a value iff the value differs from the old one as the update says: assigned or gone at the end of the path, objects in place of what is missing or a leaf on the way, all else unchanged, and for the length of an array exactly the entries under numerals from it on gone; it throws iff there is no such value |
| A2uiSurfaces.SetSucceedsIff | src/client/a2ui/renderer.tsx:565-579 | exactly which updates go through, over objects, arrays and array lengths, and so which throw |
| A2uiSurfaces.ReadBackIff | src/client/a2ui/renderer.tsx:45-62 | for a path that can be assigned to, every value set is read back iff the segments that meet arrays are plain numerals |
| A2uiSurfaces.GetAfterSet | src/client/a2ui/renderer.tsx:45-62 | with plain numerals at arrays, a path just set gives the value and a path just deleted gives undefined |
| A2uiSurfaces.PaddedIndexMissed | src/client/a2ui/renderer.tsx:45-62 | one input: in an array with an index 1, a value set under the segment 01 is not read there, and setting 1 changes what 01 reads |
| A2uiSurfaces.NumeralsArePlain | src/client/a2ui/renderer.tsx:54-56 | the numeral of an index is read as itself |
| A2uiSurfaces.IndexRead | src/client/a2ui/renderer.tsx:54-56 | a segment is read as an index by its leading white space, sign and digits, whatever follows, and not at all without digits |
| A2uiSurfaces.ElsewhereIff | src/client/a2ui/renderer.tsx:45-62 | for a path that can be assigned to, another path reads the same after every update of it iff, resolved against the data as it is, it leads past what these updates write |
| A2uiSurfaces.GetElsewhere | src/client/a2ui/renderer.tsx:565-579 | a path with plain numerals at arrays that is no prefix of the updated one, nor the other way round, reads as before, unless the update sets a length |
| A2uiSurfaces.SetTwice | src/client/a2ui/renderer.tsx:565-579 | the later update of one path wins, unless the path is the length of an array |
| A2uiSurfaces.LengthsMin | src/client/a2ui/renderer.tsx:565-579 | of two lengths set one after the other the smaller decides what is kept |
| A2uiSurfaces.CommuteIff | src/client/a2ui/renderer.tsx:565-579 | independent paths commute under all updates iff neither sets the length of an array that the other enters by an index |
| A2uiSurfaces.SetsCommute | src/client/a2ui/renderer.tsx:565-579 | any two updates of such paths that go through do so in both orders, with one result |
| A2uiSurfaces.SurfaceDependsOnOwnMessages | src/client/a2ui/renderer.tsx:536-585 | a surface ends up as if only the messages naming it had been processed |
| A2uiSurfaces.SucceedsIffEachSurfaceDoes | src/client/a2ui/renderer.tsx:536-585 | processing goes through iff the messages of each surface do on their own |
| A2uiSurfaces.MessageHandled | src/client/a2ui/renderer.tsx:536-585 | a message gives surfaces iff it does what its members say: a created surface is fresh, a deleted one gone, of the components with one id the last stays and one called root sets the root, the root path stores the value or an empty object, other paths are updated by their segments, and all other surfaces stay; it throws iff nothing would |
| A2uiSurfaces.SegmentsOfPath | src/client/a2ui/renderer.tsx:565 | a path written with slashes is read as its segments |
| A2uiSurfaces.PartsAroundSlash | src/client/a2ui/renderer.tsx:565 | a slash separates: the segments are those before it and those behind it |
| A2uiSurfaces.SlashesOnly | src/client/a2ui/renderer.tsx:565-579 | a path of slashes only, other than a single one, updates the key undefined |
| A2uiSurfaces.ProcessMessages | src/client/a2ui/renderer.tsx:533-588 | the loop computes the fold and gives each surface what its own messages give; told over the messages, each was handled in turn from no surfaces, or the run ended with the first that nothing can handle |

## Left out

- The remaining rules of the architecture suite, its reports and the dependency analyzer; `selectorMatches` is an arbitrary predicate on paths.
- Node ids are sequences of characters compared code point by code point; `Array.prototype.sort` compares UTF-16 code units, which orders some characters outside the basic plane differently. Only the place of the empty id and the reported order depend on it.
- DagLayout.ComputeDAGLayout: coordinates are reals, so rounding of floating-point numbers is not modelled.
- Layout boxes are disjoint and framed for sizes and gaps that are not negative; the source accepts others.
- AcpConnection.ExactlyOnePhase: handlers do not call back into the client, and `fetch`, URLs, `EventSource` and timers are events that may arrive in any order; messages, server fields of an issue and the update handlers themselves are not modelled.
- Framing.PayloadsArriveIff: event ids have no empty line and no line break at the end; that serialised payloads have no line breaks at all is not derived.
- Framing.Feed: text is already decoded; decoding across chunk boundaries, JSON parsing and the extraction of embedded JSON objects are left out. What is still in the buffer when the stream ends is dropped by the source too.
- Prompt results (stop reason, usage) and agent requests, terminals and event-stream clients of the bridge; the `error` event of its process; ids that are fractions.
- Transcript: labels, previews and serialised values are given texts; generated ids are fresh; timestamps, plan entries, trace records and the choice between history and traces are left out.
- Compaction: SQLite, its transactions and VACUUM; the filter and the compaction are arbitrary functions, ids are unique as the primary key makes them.
- IconCodemod.TransformSourceFile: the TypeScript parser, signatures, the printer, the search for the declaration to extend and the texts of import declarations are given.
- A2uiSurfaces.ReadBackIff: indices are read as integers of any size; above 2^53 the source rounds them.
- A2uiSurfaces.SetSucceedsIff: the length an assigned value stands for is given with it; keys inherited from Object.prototype and deleting own keys of a string that is itself the data model are left out, as are relative scopes and values shared between messages and surfaces.
- Rendering, styling, page wiring, argument parsing and report printing.
