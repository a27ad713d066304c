# Verified model of the zohar-rs server core

A Dafny model of the parts of the zohar-rs game server whose correctness spans several functions or
whole runs: map navigation, player persistence and ownership, the player outbox, the visibility graph,
packet framing, the death lifecycle, the SQL splitter and the ticker clock. Code the server writes as
loops over mutable state is a class or a method here, proved equal to a function; what the server
promises is then proved about that function.

| file | component |
|---|---|
| `Grid.dfy` | cells, points, walkability, 4-connectivity |
| `Segment.dfy`, `LineOfSight.dfy` | the Amanatides/Woo traversal, what it says about the segment |
| `Sight.dfy`, `Clip.dfy` | line of sight and clipping exactly, from the segment's geometry |
| `Reachability.dfy`, `Navigation.dfy` | flood-fill labels, local planning, pruning, path queries |
| `Database.dfy`, `Sessions.dfy` | player rows fenced by an epoch, session leases; every statement an atomic step; what each does to its session, and logins by token over whole runs |
| `Worker.dfy`, `WorkerLoop.dfy` | the persistence worker with its database as steps, and its loop over mutable state |
| `WorkerSafety.dfy`, `WorkerReplies.dfy`, `WorkerSaves.dfy`, `WorkerRetries.dfy` | what every run of it keeps, what becomes of every request and of each player's newest snapshot, what is tried again and when |
| `Outbox.dfy`, `Replication.dfy` | outbox under backpressure, the two visibility indexes |
| `Framing.dfy`, `ControlPackets.dfy`, `GamePackets.dfy` | incremental decoder, sequence table, phases; control packets; each phase's client packets |
| `Life.dfy`, `LifeStories.dfy`, `LifeTicks.dfy`, `LifeSystems.dfy` | death lifecycle, restarts and rewards; what every run keeps; what a tick does to an actor; the systems as loops |
| `SqlSplit.dfy`, `SqlScripts.dfy` | statement splitter; every script read as quotes, comments and semicolons |
| `Ticker.dfy` | phased clock |
| `Common.dfy` | `Option`, saturating 64-bit addition, division and sequence facts |

## Modelling choices

- Coordinates are exact `real`s; an axis without motion has crossing time `Never` instead of infinity.
  `hypot` enters as a number `len` with `len >= 0` and `len * len == dx * dx + dy * dy`.
- Safety is stated over open cell interiors. What exactly is tested is stated over the cells the line is in
  right after each moment (`Passes`: a coordinate on an edge counts to the side it moves to) and the cells
  beside the corners it goes through (`Cuts`). The goal may lie anywhere, also on cell edges.
- The foreign A* search is a parameter `found` with the contract `SearchAnswer`; the packet readers are
  parameters with the contract `ReaderOk`, which the readers of control packets and of all five game phases are
  proved to meet.
- A run interleaves worker steps, task executions, statements of any other servers and lost replies
  (before or after the statement took effect). A statement takes effect before its task completes: one that
  lands after its error was reported, and after a newer one ran, is not modelled. Spawned tasks finish without
  panicking. Database times are those of the database clock; `i64` epochs are unbounded here.
- The phase the server moves to after the n-th packet is an arbitrary function of n, the phase and the packet,
  so it may depend on earlier packets, the database and the clock. A disconnect ends the run.
- The channel answers `try_send` with sent, full or closed at will, and with closed ever after. Hash-map and
  query orders are arbitrary.
- Every actor has a life component and is either a player or a mob, as both spawn paths make them.
  Damage is a drop in hit points. Between ticks actors spawn, players leave and hit points change at will.
- What applying a reward answers, and the hit points after a restart, come from the stat rules and are inputs
  of the tick. A claim is settled as `Paid`, as `Refused` when applying it gives nothing or fails, or as
  `Dropped` when the killer has left.
- The traversal is that of a release build: an overshot goal can lead it off the grid, where a debug build
  stops at the assertions of `segment.rs:83` and `segment.rs:246`.
- `entered`, `left`, `targets` and `observers` are sets here and vectors in hash order in the source.

## Findings

- A goal exactly on a grid corner that one axis reaches downwards and the other upwards is stepped past:
  line of sight is denied there on every map, and granted elsewhere exactly when every cell it should test is
  walkable (`SegmentClearExact`, `ClearOnOpenGround`). `clip_segment` then answers a point beyond the goal
  exactly when the line is open to more than the backoff distance past it and the segment is not negligible
  (`ClipPastGoal`); with cells wider than the backoff only the cells up to the goal and the two at its corner
  matter, not the goal's own cell unless it is one of them (`ClipPastGoalWideCells`, `OvershootExample`).
  Past the goal the walk goes on to the first blocked cell or the edge of the map, where a debug build panics.
- The reachability grid fails from 255 components on, one earlier than its message says: the counter is
  advanced after the 255th label is used (`BuildReachability`, and `StripedComponents` and
  `LabelCounterExample` for maps with 254 and 255 components).
- `acquire_session` compares connection ids only, so it answers `Acquired` for a fresh lease of another
  server with an equal connection id, exactly then wrongly (`AcquiredMeansHeld`, `AcquiredClashExample`).
- An autosave that arrives while a flush of its player is pending joins it, and is lost without a retry if that
  flush fails, until the next save (`AutosaveLostExample`); one that finds no flush pending is never given up
  (`NewestTracked`).
- A chat packet that announces fewer bytes than its own header is read as an empty message; every other packet
  is read only from the bytes it would be written as (`GameReadExact`).
- `advance_past` never ends at `now == u64::MAX` (`CatchUpEnds`).
- `save_player_snapshot` writes the rows of a soft-deleted player whose epoch matches and then reports an
  error; in every other case it reports `Saved` exactly when it wrote (`SavedMeansWritten`,
  `DeletedSaveExample`).

## Model

| member | source | states |
|---|---|---|
| Grid.CellForPointBounds | crates/zohar-sim/src/navigation/grid.rs:63-68 | exactly the points of the map get a cell, and it is the half-open square that holds them |
| Grid.AxisCellBounds | crates/zohar-sim/src/navigation/grid.rs:117-129 | an index exactly for the coordinates on the axis, and then the half-open strip holding the coordinate |
| Grid.IndexInjective | crates/zohar-sim/src/navigation/grid.rs:87-90 | row-major indexing sends no two cells to one slot |
| Grid.Neighbors4Exact | crates/zohar-sim/src/navigation/grid.rs:96-106 | exactly the in-grid cells at Manhattan distance one |
| Segment.NewTraversalOk | crates/zohar-sim/src/navigation/segment.rs:126-151 | the initial crossing times are those of the next boundaries on the line from start to goal |
| Segment.StepOk | crates/zohar-sim/src/navigation/segment.rs:223-242 | a step keeps incremental crossing times equal to the geometry: the line is in the old cell until the step and in the new one from it |
| Segment.CrossingVersusGoal | crates/zohar-sim/src/navigation/segment.rs:279-295 | while cells remain the next crossing is not after the goal, once none do it is not before it, with the tie cases |
| Segment.SegmentTraversal.StepCursor | crates/zohar-sim/src/navigation/segment.rs:223-242 | the in-place step is the step of the traversal, with its kind |
| Segment.SegmentTraversal.Trace | crates/zohar-sim/src/navigation/segment.rs:153-209 | the loop ends for every goal and gives the verdict of the recursive walk |
| Segment.TraceSegment | crates/zohar-sim/src/navigation/segment.rs:251-258 | None exactly when an end point is off the map, else the walk's verdict |
| LineOfSight.WalkSound | crates/zohar-sim/src/navigation/segment.rs:169-208 | from any loop state the verdict speaks for the rest of the line: complete means clear to the end, blocked names an unwalkable cell touched at the entry time with all before it clear |
| LineOfSight.SegmentClearSound | crates/zohar-sim/src/navigation/segment.rs:24-35 | a clear verdict for any two points means no blocked open cell meets the segment |
| LineOfSight.StepOnTrack | crates/zohar-sim/src/navigation/segment.rs:219-242 | unless the goal is overshot, every step gets strictly nearer the target inside the box and not after time 1 |
| LineOfSight.TraversalBounded | crates/zohar-sim/src/navigation/segment.rs:126-209 | at most abs(dx) + abs(dy) loop rounds, all inside the box of start and goal cells, unless the goal is overshot |
| LineOfSight.SegmentClearConnects | crates/zohar-sim/src/navigation/segment.rs:181-204 | a clear segment joins 4-connected cells, thanks to the extra corner test |
| Sight.StepSeen | crates/zohar-sim/src/navigation/segment.rs:181-204 | the cells a step tests are one the line passes at that moment and, at a corner, the one it cuts |
| Sight.StepPending | crates/zohar-sim/src/navigation/segment.rs:223-242 | no corner of the line is stepped over untested |
| Sight.WalkExact | crates/zohar-sim/src/navigation/segment.rs:169-208 | from any well-aimed loop state the walk completes exactly when everything passed or cut from there on, and the target, is walkable |
| Sight.SegmentClearExact | crates/zohar-sim/src/navigation/segment.rs:24-35 | on every map and for all points, clear exactly when the goal is not overshot and the end cells and all cells passed or cut are walkable |
| Sight.ClearOnOpenGround | crates/zohar-sim/src/navigation/segment.rs:24-35 | where every touched cell is walkable, clear exactly when the goal is not a corner approached downwards and upwards |
| Sight.MissedWalkExact | crates/zohar-sim/src/navigation/segment.rs:234-241 | an overshot goal is never reported reached, and the walk goes on past time hi exactly while everything passed or cut is walkable |
| Sight.OvershotExact | crates/zohar-sim/src/navigation/segment.rs:126-209 | the blocked time of an overshot walk from its start, exactly |
| Clip.BlockedMeans | crates/zohar-sim/src/navigation/segment.rs:62-66 | what a blocked verdict promises, with its entry time within the segment unless overshot |
| Clip.ClipSegmentSafe | crates/zohar-sim/src/navigation/segment.rs:37-60 | the clipped point is on the line, everything up to it is clear, it is on the segment unless overshot, and it is the goal when clear |
| Clip.ClipSegmentTight | crates/zohar-sim/src/navigation/segment.rs:46-57 | a millimetre before the entry into an unwalkable cell is given up, or all there is up to the start |
| Clip.ClipNegligible | crates/zohar-sim/src/navigation/segment.rs:46-48 | a segment that is not clear and negligibly short is clipped to its start |
| Clip.ClipFromBlockedStart | crates/zohar-sim/src/navigation/segment.rs:50-58 | from a start nobody can stand on, the result is the start |
| Clip.ClipPastGoal | crates/zohar-sim/src/navigation/segment.rs:49-56 | on every map, the point lies past the goal exactly when the goal is overshot, the segment is not negligible and the line is open to more than the backoff distance past it |
| Clip.ClipPastGoalWideCells | crates/zohar-sim/src/navigation/segment.rs:49-56 | the same with only what the line meets up to the goal, when cells are wider than the backoff |
| Clip.OvershootExample | crates/zohar-sim/src/navigation/segment.rs:234-241 | a four-cell map, the goal's cell blocked or not, that shows both effects |
| Reachability.FloodFillComponent | crates/zohar-sim/src/navigation/reachability.rs:93-120 | labels exactly the cells connected to the seed and nothing else |
| Reachability.VisitNeighbor | crates/zohar-sim/src/navigation/reachability.rs:105-118 | an unlabelled walkable neighbour is labelled and queued, keeping the frontier invariant |
| Reachability.FloodReaches | crates/zohar-sim/src/navigation/reachability.rs:104-119 | with an empty queue no walk from the seed leaves the labelled region |
| Reachability.FoundGrows | crates/zohar-sim/src/navigation/reachability.rs:52-65 | one flood fill finds exactly one component not found before |
| Reachability.BuildReachability | crates/zohar-sim/src/navigation/reachability.rs:38-72 | completes exactly on maps of at most 254 components, and then same_component is 4-connectivity |
| Reachability.LookupExact | crates/zohar-sim/src/navigation/reachability.rs:74-91 | the label lookup of a finished labelling answers connectivity for all cells, in or off the grid |
| Reachability.StripedComponents | crates/zohar-sim/src/navigation/reachability.rs:38-72 | a map with any wanted number of components |
| Reachability.LabelCounterExample | crates/zohar-sim/src/navigation/reachability.rs:59-64 | a map of 254 components builds, one of 255 does not |
| Navigation.AnchorPositions | crates/zohar-sim/src/navigation/planner.rs:100-112 | the anchor loop yields start, centres and goal |
| Navigation.GreedyWaypoints | crates/zohar-sim/src/navigation/planner.rs:114-127 | the nested loops yield the recursive pruning, whose waypoints are greedily picked anchors |
| Navigation.PruneCellsToPath | crates/zohar-sim/src/navigation/planner.rs:86-133 | the cells are kept, and the waypoints are anchors picked from first to last, every anchor beyond the next one up to each pick in sight of the pick before it, and the one after it not; none for an empty path |
| Navigation.PrunedExact | crates/zohar-sim/src/navigation/planner.rs:117-127 | waypoints are the pruned ones exactly if they are picked greedily; there is only one such pick |
| Navigation.WaypointsSafe | crates/zohar-sim/src/navigation/planner.rs:117-127 | pruning safe anchors gives safe legs ending at the last anchor |
| Navigation.HopSafe | crates/zohar-sim/src/navigation/planner.rs:119-125 | an untested hop between neighbouring walkable cells avoids every blocked interior |
| Navigation.ChainPathSafe | crates/zohar-sim/src/navigation/planner.rs:86-133 | a pruned chain runs from start to goal over safe legs |
| Navigation.FindPathSafe | crates/zohar-sim/src/navigation.rs:78-157 | every returned path runs from start to goal, each leg avoids every blocked interior, and both ends share a component |
| Navigation.FindPathExact | crates/zohar-sim/src/navigation.rs:95-126 | a path exactly when both points are on the map and the segment is clear or the goal is in scope and reachable inside the search window |
| Navigation.WindowExact | crates/zohar-sim/src/navigation/grid.rs:108-115 | the search window is the map within the radius on each axis |
| Navigation.RadiusExact | crates/zohar-sim/src/navigation/planner.rs:23-34 | the radius in cells is the least whole number of cells that covers it |
| Navigation.ScopeExact | crates/zohar-sim/src/navigation/planner.rs:36-39 | in scope exactly if the distance is at most the radius |
| Navigation.ScopeInWindow | crates/zohar-sim/src/navigation/planner.rs:57-60 | the window never cuts off a goal that is in scope |
| Navigation.NextWaypointAgrees | crates/zohar-sim/src/navigation.rs:60-76 | next_waypoint is the second waypoint of find_path, or its only one |
| Database.RunNeverBack | crates/zohar-db/src/postgres_backend/queries.rs:533-545 | over any run of statements epochs and playtime never decrease, and a deleted player stays deleted |
| Database.RowsChange | crates/zohar-db/src/postgres_backend/queries.rs:505-583 | a player's rows change only by being created, marked deleted, or written by a snapshot of their epoch, everything taken over but a smaller playtime, an exit bringing the next epoch |
| Database.CreateDeleteExact | crates/zohar-db/src/postgres_backend/queries.rs:359-462 | a player is created exactly if there is none and deleted exactly if it is there and is not yet |
| Database.ExitFences | crates/zohar-db/src/postgres_backend/queries.rs:519-531 | after an exit at epoch e, in any interleaving, no write carrying e or older changes the rows or reports success |
| Database.ExitAllOrNothing | crates/zohar-db/src/postgres_backend/queries.rs:820-910 | an exit stores the snapshot, bumps the epoch and frees the lease, touching no other row, exactly when the player is live at that epoch and the caller holds the lease; otherwise nothing changes |
| Database.RunSessionsOk | crates/zohar-db/src/postgres_backend/queries.rs:585-924 | in every reachable state a row is ACTIVE exactly when server and connection are set, and otherwise neither is |
| Database.HandoverCause | crates/zohar-db/src/postgres_backend/queries.rs:592-671 | a lease leaves its holder only by its own release or exit, or to a claimer finding it stale |
| Database.LeaseEnded | crates/zohar-db/src/postgres_backend/queries.rs:585-924 | in any run a lost lease was ended at a step by its holder or by a claimer that found it stale right then |
| Database.LeaseHeld | crates/zohar-db/src/postgres_backend/queries.rs:912-924 | after a heartbeat the holder keeps the lease for the whole threshold against any claimers |
| Database.AcquiredMeansHeld | crates/zohar-db/src/postgres_backend/queries.rs:630-641 | Acquired names the caller holder exactly unless a fresh lease elsewhere has an equal connection id |
| Database.AcquiredClashExample | crates/zohar-db/src/postgres_backend/queries.rs:633-634 | such a lease, and the wrong answer |
| Database.SavedMeansWritten | crates/zohar-db/src/postgres_backend/queries.rs:505-583 | a save writes exactly its own row when the epoch matches, and its report is the truth exactly unless that row is a deleted player's |
| Database.DeletedSaveExample | crates/zohar-db/src/postgres_backend/queries.rs:519-531 | a deleted player's row rewritten while an error is reported |
| Database.GameDatabase.SavePlayerSnapshot | crates/zohar-db/src/postgres_backend/queries.rs:505-583 | the statement's effect and its three outcomes, sessions well-formed throughout |
| Database.GameDatabase.CommitPlayerExit | crates/zohar-db/src/postgres_backend/queries.rs:820-910 | two guarded updates with rollback are one atomic exit |
| Database.GameDatabase.AcquireSession | crates/zohar-db/src/postgres_backend/queries.rs:585-642 | insert, take over or leave alone, and the reported result |
| Database.GameDatabase.SetSessionLoginToken | crates/zohar-db/src/postgres_backend/queries.rs:687-744 | a new token keeps an active lease and resets any other row |
| Database.GameDatabase.UpdateSession | crates/zohar-db/src/postgres_backend/queries.rs:644-924 | resume, validate, mark stale, release and heartbeat run as the statements of which the Sessions rows say when they apply and what they leave |
| Database.GameDatabase.ExecuteAll | crates/zohar-db/src/postgres_backend/queries.rs:505-924 | any sequence of statements keeps sessions well-formed and takes no epoch or playtime back |
| Sessions.ResumeExact | crates/zohar-db/src/postgres_backend/queries.rs:644-685 | a resume succeeds exactly with this token, issued within the ttl and bound to no other address, on a row that nobody or the caller holds or whose holder is silent; the caller then holds it, and no other row changes |
| Sessions.ValidateExact | crates/zohar-db/src/postgres_backend/queries.rs:746-773 | a token is validated exactly under the same token rules while nobody holds the row, and is renewed and bound |
| Sessions.SetTokenExact | crates/zohar-db/src/postgres_backend/queries.rs:687-744 | a new token is issued now and bound to no address; a holder keeps the row with its heartbeat |
| Sessions.AcquireExact | crates/zohar-db/src/postgres_backend/queries.rs:585-642 | acquiring takes exactly a row that nobody holds or whose holder is silent, starts its heartbeat and leaves the token |
| Sessions.HeartbeatExact | crates/zohar-db/src/postgres_backend/queries.rs:912-924 | a heartbeat counts exactly while somebody holds the row |
| Sessions.ReleaseExact | crates/zohar-db/src/postgres_backend/queries.rs:799-818 | a release works exactly for the holder and leaves the token |
| Sessions.MarkStaleExact | crates/zohar-db/src/postgres_backend/queries.rs:775-797 | marking stale works exactly for the holder, who keeps the row, one second past the threshold |
| Sessions.StaleIsTaken | crates/zohar-db/src/postgres_backend/queries.rs:775-797 | a lease marked stale goes to whoever asks next with no longer a threshold |
| Sessions.TokenOpensOnly | crates/zohar-db/src/postgres_backend/queries.rs:644-773 | over any run after a token is set and until the next one is, a login succeeds exactly with that token, within its ttl of the setting or the login before, from the address of all logins before, and on a row free for the caller, who holds it after a resume |
| WorkerLoop.PersistenceWorker.Handle | crates/zohar-core/src/runtime/player_persistence.rs:73-137 | coalescing, refusals and exit replacement |
| WorkerLoop.PersistenceWorker.ReadyPlayerIds | crates/zohar-core/src/runtime/player_persistence.rs:201-229 | the collected and sorted lanes are a ready order, as ReadyOrderExact tells it |
| Worker.ReadyOrderExact | crates/zohar-core/src/runtime/player_persistence.rs:201-229 | from the lanes' contents: listed once each are exactly the lanes not in flight with an exit, a flush, or an autosave that need not wait, exits before flushes before autosaves |
| WorkerLoop.PersistenceWorker.DispatchReadyOps | crates/zohar-core/src/runtime/player_persistence.rs:139-199 | the capped dispatch loop down that order |
| WorkerLoop.PersistenceWorker.HandleCompletedDispatch | crates/zohar-core/src/runtime/player_persistence.rs:240-295 | retry, reply and lane removal |
| WorkerLoop.PersistenceWorker.NextRetryDeadline | crates/zohar-core/src/runtime/player_persistence.rs:231-238 | the least retry time of a lane that waits for one, None if none waits |
| WorkerLoop.PersistenceWorker.Turn | crates/zohar-core/src/runtime/player_persistence.rs:31-38 | the top of the loop is one dispatch step and keeps everything proved of the worker |
| WorkerLoop.PersistenceWorker.Wake | crates/zohar-core/src/runtime/player_persistence.rs:40-53 | each branch of the select is one step and keeps it |
| WorkerLoop.PersistenceWorker.Work | crates/zohar-core/src/runtime/player_persistence.rs:26-55 | the loop under any schedule around it is a run of those steps |
| WorkerSafety.ReceiveKeeps | crates/zohar-core/src/runtime/player_persistence.rs:73-137 | a request keeps the worker invariant |
| WorkerSafety.ExecuteKeeps | crates/zohar-core/src/runtime/player_persistence.rs:162-197 | a statement running, answered or lost, keeps it |
| WorkerSafety.JoinKeeps | crates/zohar-core/src/runtime/player_persistence.rs:240-295 | a completion keeps it |
| WorkerSafety.DispatchKeeps | crates/zohar-core/src/runtime/player_persistence.rs:31-38 | the dispatch loop keeps it and places every lane |
| WorkerSafety.PriorityRespected | crates/zohar-core/src/runtime/player_persistence.rs:148-159 | the loop dispatches the front of the order up to the cap of eight; a lane that could start and is left behind has no exit unless all dispatched ones do, and no flush unless they have an exit or a flush |
| WorkerSafety.WritesAreReal | crates/zohar-core/src/runtime/player_persistence.rs:164-190 | a logged write left its snapshot in a row whose epoch it matched, and without one the rows are unchanged |
| WorkerSafety.NeverOutOfOrder | crates/zohar-core/src/runtime/player_persistence.rs:73-137 | in every run, per player, dispatches and row writes follow arrival order |
| WorkerSafety.NeverStuck | crates/zohar-core/src/runtime/player_persistence.rs:26-55 | at most one operation per player and eight in all, no idle lane, every waiting lane covered by the deadline, some select branch enabled, and return only with nothing left |
| WorkerSafety.RepliesAreHonest | crates/zohar-core/src/runtime/player_persistence.rs:164-197 | Ok to a flush means that or a later snapshot of the player was written at a matching epoch, Ok to an exit that very snapshot was committed |
| WorkerReplies.AnsweredOnce | crates/zohar-core/src/runtime/player_persistence.rs:73-137 | in every run a request is answered at most once, through coalescing, replacement by an exit, dispatch and retry |
| WorkerReplies.RequestsAccountedFor | crates/zohar-core/src/runtime/player_persistence.rs:73-137 | in every run each exit and each flush with a reply channel is answered, with a lane, with a task, or superseded by a later exit of the player; after the worker returned, answered or superseded |
| WorkerSaves.NewestTracked | crates/zohar-core/src/runtime/player_persistence.rs:73-281 | in every run each player's newest accepted snapshot is in its lane, with a task, written, found stale, or given up with a failed flush or exit; never given up if an autosave that found no flush pending |
| WorkerSaves.AutosaveLostExample | crates/zohar-core/src/runtime/player_persistence.rs:91-104 | a run in which the newest autosave joins a pending flush and is lost with it |
| WorkerRetries.AcceptedIsReady | crates/zohar-core/src/runtime/player_persistence.rs:73-137 | an accepted request replaces what its lane had waiting, a flush if either was one, and its lane may start at once unless something is in flight |
| WorkerRetries.AcceptanceNoted | crates/zohar-core/src/runtime/player_persistence.rs:84-104 | refused are exactly saves behind an exit, and a save joins a flush exactly if one is waiting |
| WorkerRetries.RetryWaits | crates/zohar-core/src/runtime/player_persistence.rs:251-276 | a failed autosave with nothing newer behind it is ready exactly from a second later on, whatever happens to other players |
| WorkerRetries.StaleNotRetried | crates/zohar-core/src/runtime/player_persistence.rs:164-178 | in every run a snapshot found stale is in no lane and in no task still to run |
| WorkerSafety.ExitEndsEpoch | crates/zohar-db/src/postgres_backend/queries.rs:832-848 | whatever other servers do, the worker never again writes a row at the epoch of an exit it committed |
| Outbox.SetLatestKeeps | crates/zohar-sim/src/outbox.rs:60-74 | replacing or queueing a movement loses no reliable event, keeps order, and keeps the newest movement pending |
| Outbox.PushRemoteKeeps | crates/zohar-sim/src/outbox.rs:76-89 | the same for the remote queue, which ends with the movement and is left alone if it did before |
| Outbox.SendRemoteKeeps | crates/zohar-sim/src/outbox.rs:187-207 | sending the remote queue keeps entity order once no coalesced movement is left ahead of it |
| Outbox.RunKeeps | crates/zohar-sim/src/outbox.rs:52-207 | over any run reliable events sent then queued are those pushed, and each entity's movements keep order and end with the newest |
| Outbox.PlayerOutbox.SetLatestMovementWithPriority | crates/zohar-sim/src/outbox.rs:60-74 | the in-place update and its history |
| Outbox.PlayerOutbox.PushRemoteMovement | crates/zohar-sim/src/outbox.rs:76-89 | the in-place push and its history |
| Outbox.PlayerOutbox.FlushReliable | crates/zohar-sim/src/outbox.rs:94-117 | sends the queue in order as long as the channel says sent, stops with the rest exactly at full, clears at closed |
| Outbox.PlayerOutbox.FlushMovementBucket | crates/zohar-sim/src/outbox.rs:163-185 | sends the bucket in any order as long as the channel says sent and restores the rest exactly at full |
| Outbox.PlayerOutbox.FlushRemoteMovementQueue | crates/zohar-sim/src/outbox.rs:187-207 | sends the queue in order as long as the channel says sent and keeps the rest exactly at full |
| Outbox.PlayerOutbox.Flush | crates/zohar-sim/src/outbox.rs:91-161 | keeps the outbox guarantee under any channel answers, counts what it sent, sends everything if the channel always says sent, and empties the queues of a receiver that is gone |
| Replication.ReplicationGraph.ReconcileObserver | crates/zohar-sim/src/replication.rs:48-92 | the row becomes (old and retain) or spawn, the diffs are exact, and the indexes stay inverse with no empty rows |
| Replication.ReplicationGraph.RemoveObserver | crates/zohar-sim/src/replication.rs:95-110 | the row and its reverse edges go, and the targets are reported |
| Replication.ReplicationGraph.RemoveTarget | crates/zohar-sim/src/replication.rs:113-128 | the column and its reverse edges go, and the observers are reported |
| Replication.ReplicationGraph.RemoveVisibility | crates/zohar-sim/src/replication.rs:131-149 | one directed edge goes, and whether it was there is reported |
| Replication.ReplicationGraph.IsVisible | crates/zohar-sim/src/replication.rs:168-172 | both indexes agree with the edge set |
| Replication.DiffsAreChanges | crates/zohar-sim/src/replication.rs:66-67 | entered targets were not visible, left ones were, and no other observer's row changes |
| Replication.EdgeAfter | crates/zohar-sim/src/replication.rs:48-149 | which edges each operation leaves, edge by edge |
| Replication.EdgeReported | crates/zohar-sim/src/replication.rs:48-149 | a report names exactly the edges that are new, gone, or were there to be removed |
| Replication.ReplayRebuilds | crates/zohar-sim/src/replication.rs:48-149 | over any run, replaying the reports rebuilds the graph |
| Replication.ApplyAll | crates/zohar-sim/src/replication.rs:48-149 | any run of operations on the graph object; replaying its reports gives its edges |
| Framing.PacketSequencer.Check | crates/zohar-protocol/src/pkt_seq.rs:26-31 | the k-th byte is compared with table byte k modulo the length, and the mismatch is kept |
| Framing.CursorIsMod | crates/zohar-protocol/src/pkt_seq.rs:12-19 | the wrapping cursor after k bytes is k modulo the length |
| Framing.Connection.Decode | crates/zohar-net/src/codec.rs:111-177 | one decoder call on the buffer and cursor, with the phase change its packet brings |
| Framing.Connection.Advance | crates/zohar-net/src/connection.rs:57-120 | a phase change rebuilds the stream with its buffer, and with its sequencer between sequenced phases |
| Framing.DecodeStable | crates/zohar-net/src/codec.rs:111-177 | later bytes never change what the decoder does with earlier ones |
| Framing.ChunkingIrrelevant | crates/zohar-net/src/connection.rs:88-120 | any chunking and any schedule of decoder calls, across phase changes, gives the frames of the whole stream |
| Framing.Serve | crates/zohar-net/src/connection.rs:57-120 | a whole run of arrivals and decoder calls on the connection object |
| Framing.DrainConserves | crates/zohar-net/src/codec.rs:156-174 | frames taken followed by the buffer are the stream |
| Framing.ConnectionExact | crates/zohar-net/src/connection.rs:57-120 | over a whole connection no byte is lost, the k-th sequenced packet met table byte k modulo the length, 0xFE and 0xFF not counted, and the connection fails exactly at a malformed packet or a wrong sequence byte and else waits only for bytes still to come |
| Framing.PhasesForward | crates/zohar-net/src/connection/game_conn.rs:25-130 | over a whole connection packets are read first as handshake packets, then in phases that follow one another, never again as handshake or login packets once those are over |
| Framing.ClientIsHeard | crates/zohar-net/src/codec.rs:111-177 | everything a client sends, each packet in a phase it belongs to and with its sequence byte, is received through every phase change, with nothing left |
| ControlPackets.ControlRoundTrip | crates/zohar-protocol/src/control_pkt.rs:97-152 | reading a written control packet gives it back and takes exactly its bytes |
| ControlPackets.ControlReaderStable | crates/zohar-protocol/src/control_pkt.rs:37-54 | once the reader has decided, later bytes do not matter |
| ControlPackets.ControlReadExact | crates/zohar-protocol/src/control_pkt.rs:37-54 | nothing is read but the bytes that would be written |
| ControlPackets.ControlClientIsHeard | crates/zohar-protocol/src/control_pkt.rs:15-20 | control packets with correct sequence bytes are heard in any chunking from any phase and position |
| GamePackets.GameReaderStable | crates/zohar-protocol/src/route_packets.rs:25-65 | once the reader of a phase has decided, later bytes do not matter, chat with its size field included |
| GamePackets.GameRoundTrip | crates/zohar-protocol/src/game_pkt/select.rs:14-42 | every packet of the handshake, login, select, loading and in-game enums is read back in its own phase, taking exactly its bytes |
| GamePackets.GameReadExact | crates/zohar-protocol/src/route_packets.rs:25-65 | in every phase nothing is read but packets of the phase with their own bytes, bad discriminants refused, except a chat packet announcing less than its header, read as an empty message |
| GamePackets.WireSizes | crates/zohar-protocol/src/game_pkt/select.rs:14-42 | opcode and size of every packet on the wire |
| GamePackets.SessionIsHeard | crates/zohar-net/src/connection.rs:57-120 | a whole game session from its first byte, in any chunking, is received exactly |
| GamePackets.SessionExample | crates/zohar-gamesrv/src/handlers/select.rs:291-315 | a session from handshake to chat meets its assumptions, one choice of a player staying and the next moving on |
| LifeStories.BeginDyingOk | crates/zohar-sim/src/runtime/life.rs:199-229 | dying starts exactly for a living actor with that net id, and the story stays sensible |
| LifeStories.FinalizeDyingOk | crates/zohar-sim/src/runtime/life.rs:231-266 | death is made final exactly for a dying actor with that net id, and the story stays sensible |
| LifeStories.TickOk | crates/zohar-sim/src/runtime/plugins.rs:299-324 | one tick of the scheduled chain keeps every story sensible and leaves no claim on a death open |
| LifeStories.StoriesHold | crates/zohar-sim/src/runtime/life.rs:129-341 | over any run, players leaving included, the events of an entity come in a sensible order and tell its phase, deadlines and claim |
| LifeStories.DeathsAddUp | crates/zohar-sim/src/runtime/rewards.rs:51-96 | departures, finalisations and restarts differ by at most the one under way, and a kill is claimed and settled at most once |
| LifeStories.ClaimsSettled | crates/zohar-sim/src/runtime/rewards.rs:51-96 | every claim is settled in the tick that makes the death final: an open claim belongs to a dying mob |
| LifeStories.ClaimsSettledRightly | crates/zohar-sim/src/runtime/rewards.rs:67-95 | a settled claim was made by one who depleted the mob, and is dropped exactly when that player has left by then |
| LifeStories.RestartsWait | crates/zohar-sim/src/runtime/player/restart.rs:50-80 | a player comes back only from a final death and not before the delay for its way of coming back has passed |
| LifeTicks.DeadlinesMet | crates/zohar-sim/src/runtime/life.rs:292-341 | an actor a tick visits is not left dying or waiting for its forced respawn past the deadline, and a mob's corpse whose time had come is gone |
| LifeTicks.ComebackExact | crates/zohar-sim/src/runtime/life.rs:343-356 | in every run, once a player's death is final, a tick brings it back exactly if it asks to restart here after ten seconds or in town after seven, or is visited after three minutes, with the hit points of the first request or of the forced respawn |
| LifeTicks.RestartsExact | crates/zohar-sim/src/runtime/player/restart.rs:50-80 | the first restart of the player that is due is done, with its hit points, and nothing after it |
| LifeTicks.CorpseExact | crates/zohar-sim/src/runtime/life.rs:358-362 | in every run, once a mob's death is final, a tick removes it exactly if it is visited after six seconds plus its net id modulo 4000 milliseconds |
| LifeTicks.DyingExact | crates/zohar-sim/src/runtime/life.rs:129-138 | in every run a dying actor dies in a tick exactly if a living one strikes it or it is visited after three seconds |
| LifeTicks.HitsAddUp | crates/zohar-sim/src/runtime/combat.rs:251-272 | over the attacks of a tick a living fighter loses what living fighters deal it and is depleted exactly if that takes its last hit point |
| LifeTicks.ClaimsExact | crates/zohar-sim/src/runtime/rewards.rs:19-49 | of the kills of a tick exactly those of a mob with experience by a player are claimed, each by its killer |
| LifeTicks.FatesExact | crates/zohar-sim/src/runtime/rewards.rs:51-96 | rewards only settle claims, and one not dropped is refused exactly if applying it gives nothing |
| LifeTicks.LeaveExact | crates/zohar-sim/src/runtime/player/lifecycle.rs:214-239 | a leave takes away exactly the player it names, and nobody if the net id is another's |
| LifeStories.NothingAfterRemoval | crates/zohar-sim/src/runtime/rewards.rs:67-78 | once an entity was removed nothing happens to it, and a claim it held is dropped |
| LifeStories.DroppedClaimExample | crates/zohar-sim/src/runtime/rewards.rs:67-78 | a run in which the killer leaves and the claim is dropped |
| LifeSystems.MapWorld.BeginActorDying | crates/zohar-sim/src/runtime/life.rs:199-229 | the in-place transition with its fact |
| LifeSystems.MapWorld.FinalizeDyingActorDeath | crates/zohar-sim/src/runtime/life.rs:231-266 | the in-place transition with its fact |
| LifeSystems.MapWorld.ProcessAttackCommand | crates/zohar-sim/src/runtime/combat.rs:251-289 | finalise a dying victim, or hit a living one and report the depletion |
| LifeSystems.MapWorld.ProcessAttackCommands | crates/zohar-sim/src/runtime/combat.rs:176-183 | the loop over the commands |
| LifeSystems.MapWorld.ProcessLifeEvents | crates/zohar-sim/src/runtime/life.rs:180-197 | the loop over depletion facts |
| LifeSystems.MapWorld.RecordMobDeathRewardClaims | crates/zohar-sim/src/runtime/rewards.rs:19-49 | the loop that records last-hit claims |
| LifeSystems.MapWorld.ProcessActorLifecycle | crates/zohar-sim/src/runtime/life.rs:292-341 | the query loop for timed deaths and corpse cleanup |
| LifeSystems.MapWorld.GrantMobDeathRewards | crates/zohar-sim/src/runtime/rewards.rs:51-96 | the loop that pays, refuses or drops claims |
| LifeSystems.MapWorld.ProcessPlayerRestarts | crates/zohar-sim/src/runtime/player/restart.rs:19-31 | the restarts asked for that are due, then the forced respawns that are due |
| LifeSystems.MapWorld.ProcessCleanupEvents | crates/zohar-sim/src/runtime/cleanup.rs:10-24 | the loop that destroys corpses |
| LifeSystems.MapWorld.RunTick | crates/zohar-sim/src/runtime/plugins.rs:299-324 | the whole chain, from a world between ticks to another |
| LifeSystems.MapWorld.HandlePlayerLeave | crates/zohar-sim/src/runtime/player/lifecycle.rs:214-239 | a leave with the right net id removes the player, any other is ignored |
| SqlSplit.SplitSqlStatements | crates/zohar-content/src/migrations/private_data.rs:221-297 | the four-flag character loop is the one-mode scanner, of which SplitExact tells what it makes of every script |
| SqlSplit.SplitAtSemicolon | crates/zohar-content/src/migrations/private_data.rs:279-286 | a semicolon outside quotes and comments separates completely |
| SqlSplit.PlainScan | crates/zohar-content/src/migrations/private_data.rs:262-277 | quote-balanced comment-free text passes through whole, doubled quotes included |
| SqlSplit.SplitJoin | crates/zohar-content/src/migrations/private_data.rs:221-297 | joining statements with semicolons and splitting gives them back |
| SqlSplit.OutputTrimmed | crates/zohar-content/src/migrations/private_data.rs:280-294 | every statement that comes out is trimmed and not empty |
| SqlSplit.TrimExact | crates/zohar-content/src/migrations/private_data.rs:280-294 | trimming takes whitespace off both ends and nothing else |
| SqlScripts.SplitExact | crates/zohar-content/src/migrations/private_data.rs:221-297 | however a script is put together from characters, quotes, comments and semicolons, splitting gives what is kept between semicolons outside quotes and comments: quotes whole, of a line comment its newline, of a block comment nothing |
| SqlScripts.EveryScriptReads | crates/zohar-content/src/migrations/private_data.rs:221-297 | every script, well-formed or not, is put together like that, ending inside at most one open quote or comment |
| SqlScripts.LineCommentGoes | crates/zohar-content/src/migrations/private_data.rs:232-238 | a line comment after a script that is not inside anything, and does not end in a dash, counts as its newline |
| SqlScripts.BlockCommentGoes | crates/zohar-content/src/migrations/private_data.rs:240-246 | a block comment there counts for nothing, unless it keeps two dashes, or slash and star, apart |
| SqlScripts.OpenLineGoes | crates/zohar-content/src/migrations/private_data.rs:232-238 | a line comment that never ends takes only the rest |
| SqlScripts.OpenBlockGoes | crates/zohar-content/src/migrations/private_data.rs:240-246 | so does a block comment that never ends |
| Ticker.CatchUpEnds | crates/zohar-sim/src/runtime/time.rs:182-186 | the catch-up loop ends exactly when now is below the largest instant |
| Ticker.CatchUpClosedForm | crates/zohar-sim/src/runtime/time.rs:182-186 | the loop in closed form, saturation included |
| Ticker.CatchUpLeast | crates/zohar-sim/src/runtime/time.rs:182-186 | no later instant of the residue class is passed over |
| Ticker.CatchUpInPhase | crates/zohar-sim/src/runtime/time.rs:182-186 | the result is after now and, without saturation, in the residue class |
| Ticker.PhasedOnResidue | crates/zohar-sim/src/runtime/time.rs:118-138 | a phased clock is next due at the least later instant on its seed's residue, at most one cadence away, or at the largest instant if that overflows |
| Ticker.SimTickerClock.AdvanceDue | crates/zohar-sim/src/runtime/time.rs:166-175 | the in-place advance and its elapsed time |
| Ticker.ElapsedExact | crates/zohar-sim/src/runtime/time.rs:166-175 | a clock is advanced exactly when due, and reports the time since it was last processed, none if that is still to come |
| Ticker.SimTickerClock.AdvancePast | crates/zohar-sim/src/runtime/time.rs:182-186 | the loop ends with the caught-up due time |
| Ticker.SimTickerClock.RetryAfter | crates/zohar-sim/src/runtime/time.rs:177-180 | due exactly from now plus delay on, and the next elapsed value counts from now |
| Ticker.ElapsedTelescopes | crates/zohar-sim/src/runtime/time.rs:166-180 | over non-decreasing times the elapsed values and what retries write off add up to the time processed; without retries nothing is written off |
| Ticker.RunKeepsPhase | crates/zohar-sim/src/runtime/time.rs:166-186 | until it saturates no run leaves the residue class |
| Ticker.RetrySetsPhase | crates/zohar-sim/src/runtime/time.rs:177-180 | polls after a retry do nothing before its delay has passed and keep its residue class after |

## Left out

- f32 rounding in navigation: coordinates are exact reals, so rounding effects at cell edges are not covered.
- The A* search, binrw derives, tokio, Bevy scheduling and sqlx: contracts or atomic steps stand for them.
- Optimality of planned paths: only that a chain is found when one exists in the window.
- Names, slots and deletion codes of players: creating and deleting a player is a step that happens or not.
- Liveness of the worker: no fairness is assumed, so it is not claimed that every save is eventually written.
- Delayed attacks and projectiles, damage formulas, experience arithmetic and mob AI: attacks arrive as commands with a damage.
- Relocation: where a restarted player is put, and what it and its observers are told.
- Server-to-client packets: easy one-branch mappings.
- A receiver that closes its channel: the outbox guarantee then ends, as its queues are dropped.
- Kubernetes, Agones, channel directory, message bus, password and token hashing, content loaders: plumbing or foreign cryptography.
