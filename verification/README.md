# Verified model of computer-use-linux

A Dafny 4.11 model of the stateful parts of `computer-use-linux`, a server that drives a Linux
desktop for an agent. `dafny verify dfyconfig.toml` checks everything.

Two components are concurrent protocols and are modelled as step machines whose atomic steps are the
critical sections and awaits of the source; theorems speak of every reachable state and every run.
Code that works in place is modelled by classes, arrays and loops proved against functions, and the
properties are proved of those functions.

- **App-server leases** (`process_table`, `lease_protocol`, `lease_theorems`, `ensure_theorems`): the table of managed
  processes, reference-counted leases, the reaper, ensure, restart and shutdown.
- **Portal input** (`input_scripts`, `input_actions`, `input_protocol`, `input_theorems`): press and
  release under one input lock, release guards, cancellation and the cleanup that follows it.
- **Accessibility tree** (`snapshot`, `compaction`): the bounded breadth-first walk over a graph that may
  be cyclic and unreliable, and the pass that drops nodes and hangs the rest below their nearest
  kept ancestor.
- **Coordinates** (`coordinates`, `window_points`, `stream_layout`, `monitor_layout`): logical window, scaled and clipped
  capture rectangle, relative points, the way back to the desktop and to a portal stream, and whether
  the monitor layout has changed.
- **Commands** (`command_runner`, `command_supervision`): output draining and process-group kills.
- **Key chords** (`text`, `key_chords`, `xdotool_keys`): one key string for three keyboard backends.
- **Terminals** (`process_tree`, `sorting`, `terminal_sessions`): windows matched to terminal sessions.
- **Proxy query** (`proxy_query`) and **screenshot shrinking** (`screenshot_shrink`).

The outside world is an oracle: a clock that only moves forward, a probe that says which leaders have
exited (and exited leaders stay exited), a bus whose every visit may answer, fail or differ, pipes that
report their end only after the whole stream, an encoder that may return anything. Machine integers are
bounded where the source saturates, wraps, clamps or converts.

## Findings

- A dropped supervisor can kill a process group whose leader has already been reaped. The child belongs to
  the inner future and the guard to the outer one, so the child is dropped first, and dropping a child of
  the async runtime tries to reap it. It happens exactly when the supervisor is dropped with the leader
  gone, by itself or by the kill that dropping the child sends first
  (`CommandSupervision.KillFollowsReapingExactlyOnLateDrop`); on every other path no kill follows a reaping.
- The portal point of a window is *not* always within rounding distance of exact inverse scaling. It is
  near, on an axis, exactly when the exact position is less than one unit and one pixel beyond the
  window's ceiling, the position at which the 64-bit product or the 32-bit result saturates
  (`WindowPoints.PortalPointIsNearExactly`); `WindowPoints.SaturatedPointIsFar` is an instance beyond it.
  The point lies inside the window in any case. Where nothing saturates the error is below 1 + 1/s, tighter
  than one unit plus two pixels.
- A captured pixel that the portal accepts is not always sent to its scaled place: on a desktop so wide that the
  64-bit product saturates it is sent to the end of its reach (`StreamLayout.AcceptedPixelOutOfReach`), and
  it is at its place exactly when the product reaches that far (`StreamLayout.AcceptedPointIsScaledExactly`).
- The comparison of monitor layouts depends on the order monitors are listed in, unless all scales are
  finite and monitors on one rectangle have scales within 0.01
  (`MonitorLayout.OrderIsIgnoredExactlyWhenConsistent`).
- Dead branches: lease underflow, the displaced insert, the conversion errors of the clip, the fallback
  of the active terminal process, the forced decrement of the shrink loop.

## Model

| member | source | states |
|---|---|---|
| `ProcessTable.RuntimeManager.AcquireProcessLease` | computer-use-linux/src/chrome_runtime.rs:693-731 | one critical section, updating the table in place: no process, a failed probe, an exited leader (removed), an exhausted counter, or one more lease with the deadline cleared and the touch time set to now |
| `ProcessTable.RuntimeManager.ReleaseProcessLease` | computer-use-linux/src/chrome_runtime.rs:733-755 | a drop counts only against the very instance it was taken on; the last one sets the deadline to now plus the disconnect grace |
| `ProcessTable.RuntimeManager.KeepOrTakeExisting` | computer-use-linux/src/chrome_runtime.rs:590-612 | the first section of an ensure keeps the mapped process exactly when no restart is asked for, the endpoint is the same, the probe works, the leader lives and the socket is ready, renewing its deadline from now; any other mapped process whose probe works comes off the table |
| `ProcessTable.RuntimeManager.ReapIdleProcesses` | computer-use-linux/src/chrome_runtime.rs:808-839 | removes exactly the clients whose leader has exited or whose idle deadline has passed, and returns exactly their processes |
| `ProcessTable.RuntimeManager.PruneExited` | computer-use-linux/src/chrome_runtime.rs:617-638 | removes exactly the clients whose leader has exited |
| `ProcessTable.RuntimeManager.MakeRoom` | computer-use-linux/src/chrome_runtime.rs:642-665 | at capacity removes an idle process touched least recently, refuses when none is idle, and otherwise changes nothing |
| `ProcessTable.RuntimeManager.InsertStarted` | computer-use-linux/src/chrome_runtime.rs:679-689 | the started process takes the slot and a displaced one would be handed back |
| `ProcessTable.RuntimeManager.TakeAll` | computer-use-linux/src/chrome_runtime.rs:1020-1025 | shutdown takes the whole table |
| `ProcessTable.RuntimeManager.AllocateInstance` | computer-use-linux/src/chrome_runtime.rs:667 | instance ids are handed out once each |
| `LeaseProtocol.StepKeepsInv` | computer-use-linux/src/chrome_runtime.rs:581-839 | every atomic step of ensure, restart, acquire, lease drop, reaper and shutdown, in any interleaving, keeps the invariant |
| `LeaseProtocol.RunKeepsInv` | computer-use-linux/src/chrome_runtime.rs:581-839 | so does every run |
| `LeaseTheorems.LeaseCountIsExact` | computer-use-linux/src/chrome_runtime.rs:204-216 | in every reachable state the lease count of a mapped process is the number of undropped leases carrying its client and instance id |
| `LeaseTheorems.UnderflowIsDead` | computer-use-linux/src/chrome_runtime.rs:744-747 | the defensive branch against lease underflow is unreachable |
| `LeaseTheorems.StaleLeaseChangesNothing` | computer-use-linux/src/chrome_runtime.rs:733-743 | dropping a lease whose instance has left the table changes no process |
| `LeaseTheorems.StaleLeaseNeverCounts` | computer-use-linux/src/chrome_runtime.rs:733-743 | however long such a lease is kept, its drop never affects the process that replaced its own |
| `LeaseTheorems.PlacesOnlyAdvance` | computer-use-linux/src/chrome_runtime.rs:581-691 | over any run an instance only moves from hand to table to being stopped to stopped |
| `LeaseTheorems.EveryInstanceIsInOnePlace` | computer-use-linux/src/chrome_runtime.rs:581-691 | at most 16 mapped processes of distinct instances; every started instance is in exactly one of in hand, mapped, being stopped, stopped |
| `LeaseTheorems.InsertFindsVacantSlot` | computer-use-linux/src/chrome_runtime.rs:679-689 | the final insert always finds its slot vacant although the mutex was released since the check, so no process is displaced |
| `LeaseTheorems.RefusalMeansAllLeased` | computer-use-linux/src/chrome_runtime.rs:646-660 | an ensure is refused for capacity only when sixteen processes all have a live lease |
| `LeaseTheorems.LeasedSurvivesStep` | computer-use-linux/src/chrome_runtime.rs:581-839 | no step but an ensure for the same client or shutdown takes a live leased process off the table |
| `LeaseTheorems.LeasedProcessIsKept` | computer-use-linux/src/chrome_runtime.rs:581-839 | over any run without those steps a live leased process stays mapped |
| `LeaseTheorems.DeadlineExactlyWhenIdle` | computer-use-linux/src/chrome_runtime.rs:693-755 | a mapped process has a cleanup deadline exactly when no lease on it is held |
| `LeaseTheorems.IdleProcessIsCollected` | computer-use-linux/src/chrome_runtime.rs:808-839 | an idle process that nobody touches is off the table after the first reap at or past its deadline |
| `LeaseTheorems.ShutdownIsFinal` | computer-use-linux/src/chrome_runtime.rs:990-1037 | once shutdown has returned, the table is empty in every later state of every run |
| `LeaseTheorems.EnsureAfterShutdownIsRefused` | computer-use-linux/src/chrome_runtime.rs:757-778 | after that every ensure that reaches the worker check is refused |
| `LeaseTheorems.OneReaperAtATime` | computer-use-linux/src/chrome_runtime.rs:757-806 | a reaper thread is started only when none is running |
| `EnsureTheorems.ReadyMeansServed` | computer-use-linux/src/chrome_runtime.rs:581-691 | over any run, an ensure that ends ready leaves its client on a process of the requested endpoint; with restart asked for that process is one started since the ensure began, unless it was taken off again since |
| `EnsureTheorems.DeadlineFollowsLastTouch` | computer-use-linux/src/chrome_runtime.rs:595-609 | over any run, the deadline of a mapped process that is not leased is its last touch plus either the disconnect grace or the connection timeout |
| `EnsureTheorems.LastDropStartsGrace` | computer-use-linux/src/chrome_runtime.rs:748-753 | the drop of the last lease on a mapped process makes it due one disconnect grace from then |
| `EnsureTheorems.StartedWaitsForConnection` | computer-use-linux/src/chrome_runtime.rs:667-690 | a process put on the table is due one connection timeout from then |
| `EnsureTheorems.ReaperSparesUndue` | computer-use-linux/src/chrome_runtime.rs:808-839 | the reaper leaves every live process alone that is leased or not yet due |
| `InputActions.PointerReleaseGuard.Arm` | computer-use-linux/src/remote_desktop.rs:806-808 | the pointer guard remembers the one button armed |
| `InputActions.PointerReleaseGuard.Disarm` | computer-use-linux/src/remote_desktop.rs:810-812 | and forgets it |
| `InputActions.KeyboardReleaseGuard.Push` | computer-use-linux/src/remote_desktop.rs:863-865 | the keyboard guard stacks the key |
| `InputActions.KeyboardReleaseGuard.Pop` | computer-use-linux/src/remote_desktop.rs:867-869 | and unstacks the newest |
| `InputActions.Click` | computer-use-linux/src/remote_desktop.rs:555-589 | whatever fails, what was issued is a beginning of the click script and the guard is what that beginning leaves; a click that succeeds has moved to its spot and then pressed and released its button in turn, as often as asked and at least once |
| `InputActions.DragPointer` | computer-use-linux/src/remote_desktop.rs:699-742 | the same for a drag, which moves to its start, presses the left button, moves to its end and releases it |
| `InputActions.TypeTextWithKeysyms` | computer-use-linux/src/remote_desktop.rs:744-762 | the same for text, which presses and releases exactly the keysyms, in order |
| `InputActions.PressModifiers` | computer-use-linux/src/remote_desktop.rs:774-777 | the same for the modifiers of a chord, pressed in order |
| `InputActions.ReleaseModifiers` | computer-use-linux/src/remote_desktop.rs:783-786 | the same for their release in reverse order |
| `InputActions.PressKeycodeChord` | computer-use-linux/src/remote_desktop.rs:764-788 | the same for a chord with any modifiers, repeated ones included: modifiers down in order, key down and up, modifiers up in reverse |
| `InputActions.ExitLeavesGuardAhead` | computer-use-linux/src/remote_desktop.rs:815-845 | wherever such an action is left, the guard knows every key that may be down, whether the awaited call that failed went through or not |
| `InputScripts.ActionSafe` | computer-use-linux/src/remote_desktop.rs:555-788 | every click, drag, text and chord keeps the guard ahead of the keys possibly down at every instruction and ends with it empty |
| `InputScripts.ClickClicks` | computer-use-linux/src/remote_desktop.rs:555-589 | what a whole click script does to pointer and button |
| `InputScripts.DragDrags` | computer-use-linux/src/remote_desktop.rs:699-742 | the same for a drag script |
| `InputScripts.TextTypes` | computer-use-linux/src/remote_desktop.rs:744-762 | the same for a text script |
| `InputScripts.ChordPlays` | computer-use-linux/src/remote_desktop.rs:764-788 | the same for a chord script |
| `InputScripts.ChordSafe` | computer-use-linux/src/remote_desktop.rs:764-788 | in particular chords with repeated modifiers |
| `InputProtocol.StepKeepsInv` | computer-use-linux/src/remote_desktop.rs:555-967 | every step of any number of callers, with failure or cancellation at any await, keeps the invariant |
| `InputProtocol.RunKeepsInv` | computer-use-linux/src/remote_desktop.rs:555-967 | so does every run |
| `InputTheorems.PossiblyDownIsGuarded` | computer-use-linux/src/remote_desktop.rs:555-788 | in every reachable state each possibly-down key of a valid session is in the guard of the holder of the input lock, counting repetitions |
| `InputTheorems.FreeLockMeansNothingPressed` | computer-use-linux/src/remote_desktop.rs:815-967 | whenever the input lock is free, a valid session has nothing pressed |
| `InputTheorems.CompletionLeavesNothing` | computer-use-linux/src/remote_desktop.rs:815-822 | an action that runs to its end leaves nothing pressed and its session valid |
| `InputTheorems.OneTaskAtATime` | computer-use-linux/src/remote_desktop.rs:555-566 | at most one action is past the queue for the input lock |
| `InputTheorems.OperationLockHeldByTask` | computer-use-linux/src/remote_desktop.rs:72-83 | the operation lock cannot pass on while a portal action holds a reference to its guard |
| `InputTheorems.DetachedOperationKeepsLock` | computer-use-linux/src/server.rs:4593-4621 | nor while a spawned operation runs, whatever becomes of the caller that waits for it |
| `InputTheorems.AbnormalExitHoldsBothLocks` | computer-use-linux/src/remote_desktop.rs:815-967 | after a failure with keys armed both locks stay held and the session invalid until the cleanup has closed it |
| `InputTheorems.AbnormalExitKnowsTheKeys` | computer-use-linux/src/remote_desktop.rs:905-951 | the dropped guard covers every key that may be down, also when the failed press went through |
| `InputTheorems.ReleasesGoInReverse` | computer-use-linux/src/remote_desktop.rs:905-951 | while all releases succeed, only the keys armed before the ones attempted may still be down |
| `InputTheorems.CleanCleanupReleasesEverything` | computer-use-linux/src/remote_desktop.rs:905-951 | a cleanup whose releases all succeeded leaves nothing pressed |
| `InputTheorems.InvalidForGood` | computer-use-linux/src/remote_desktop.rs:969-987 | an invalid session never becomes valid again |
| `InputTheorems.InvalidSessionGetsNoInput` | computer-use-linux/src/remote_desktop.rs:555-588 | over any run an invalid session that nobody is working on gets no further input: whoever calls on it leaves at the head of the queue |
| `InputTheorems.ChangedLayoutGetsNoInput` | computer-use-linux/src/remote_desktop.rs:989-1020 | so a session whose monitor layout was found changed gets none from then on, and nothing stays pressed on it |
| `Snapshot.BoundedTraversal.RemainingCapacity` | computer-use-linux/src/atspi_tree.rs:164-167 | attempted, queued and remaining always add up to the maximum |
| `Snapshot.BoundedTraversal.Enqueue` | computer-use-linux/src/atspi_tree.rs:150-153 | as many items as fit are appended, in order |
| `Snapshot.BoundedTraversal.Pop` | computer-use-linux/src/atspi_tree.rs:155-162 | the head of the queue becomes an attempt |
| `Snapshot.AttemptCount` | computer-use-linux/src/atspi_tree.rs:170-195 | the reads made are the least of the limit, the attempts left and the reported count, none for a negative one |
| `Snapshot.FetchIndexedUpTo` | computer-use-linux/src/atspi_tree.rs:185-210 | the successful answers of exactly those reads, in index order, and the budget less their number |
| `Snapshot.ChildrenUpTo` | computer-use-linux/src/atspi_tree.rs:212-231 | children within limit and budget, all of them answers of this visit; nothing is read when either is used up or the count fails |
| `Snapshot.SnapshotTree` | computer-use-linux/src/atspi_tree.rs:269-324 | terminates on every graph; positions, parents, depths and order are those of a breadth-first forest of at most max_nodes nodes and max_depth, each object a root or an answer of its parent. On every bus the nodes are exactly what opened on a walk that takes everything queued in order and queues, for each object above max_depth, the successes among its first reads under the room and budget left; on a reliable bus it is the full breadth-first listing up to the first max_nodes nodes |
| `Snapshot.AnswersSucceed` | computer-use-linux/src/atspi_tree.rs:199-203 | the items read are those of the reads that succeed, each once, in index order; a failed read drops only itself |
| `Snapshot.SuccessesAreAnswers` | computer-use-linux/src/atspi_tree.rs:199-203 | and nothing else is |
| `Snapshot.WalkQueue` | computer-use-linux/src/atspi_tree.rs:299-321 | the loop of the walk, from any queue that starts as a walk |
| `Snapshot.VisitChildren` | computer-use-linux/src/atspi_tree.rs:303-320 | one visit reads as many children as room and budget allow, none at max_depth or without a count, and queues exactly those whose reads succeed |
| `Snapshot.WalkIsDetermined` | computer-use-linux/src/atspi_tree.rs:299-321 | whatever the bus answers, exactly one walk is possible: which objects are listed, in which order and below which parent |
| `Snapshot.ChildrenAreQueued` | computer-use-linux/src/atspi_tree.rs:316-320 | children are queued in order behind everything else, one level below the visited node and naming its index |
| `Snapshot.VisitKeepsWalk` | computer-use-linux/src/atspi_tree.rs:303-320 | visiting a node keeps depths and parent indices nondecreasing |
| `Snapshot.LevelsClosed` | computer-use-linux/src/atspi_tree.rs:299-321 | the level-by-level listing is its roots followed by the children of its own entries |
| `Snapshot.TrackVisit` | computer-use-linux/src/atspi_tree.rs:316-320 | the queue always is the next part of the full listing, up to the capacity |
| `Snapshot.TrackEnd` | computer-use-linux/src/atspi_tree.rs:299-323 | an empty queue means the listing is complete up to the capacity |
| `Compaction.DroppedExactlyWhenSilent` | computer-use-linux/src/server.rs:3746-3780 | a node is dropped exactly when it is below the second level, can do nothing, has no text but whitespace and is not a placed item of a list, menu or tab bar |
| `Compaction.NearestKeptParent` | computer-use-linux/src/server.rs:3730-3744 | the climb terminates and finds the first kept node above, if any |
| `Compaction.NearestKeptIsNearest` | computer-use-linux/src/server.rs:3730-3744 | that node is a kept ancestor and every other kept ancestor lies above it |
| `Compaction.CompactAccessibilityTree` | computer-use-linux/src/server.rs:3685-3728 | the result is the kept nodes in order with dense indices, each below its re-indexed nearest kept ancestor, with child_count the number of nodes naming it |
| `Compaction.KeptIndicesListKept` | computer-use-linux/src/server.rs:3697-3707 | the new index of a node is its rank among the kept ones, in both directions |
| `Compaction.CountChildren` | computer-use-linux/src/server.rs:3715-3721 | each count is the number of nodes naming that index as parent |
| `Compaction.CompactionIsForest` | computer-use-linux/src/server.rs:3685-3728 | in the result every parent precedes its child |
| `Compaction.CompactionKeepsAncestry` | computer-use-linux/src/server.rs:3685-3744 | a kept node is an ancestor of another before compaction exactly when it is after |
| `Compaction.CompactionIsIdempotent` | computer-use-linux/src/server.rs:3685-3759 | compacting twice equals compacting once |
| `Compaction.SnapshotParentsPrecede` | computer-use-linux/src/server.rs:3730-3744 | every snapshot satisfies what the climb needs to terminate |
| `Compaction.CompactedSnapshotHasNoOrphans` | computer-use-linux/src/server.rs:3746-3759 | compacting a snapshot orphans no node: the parentless nodes are exactly the roots |
| `Compaction.CompactionIsFixed` | computer-use-linux/src/server.rs:3685-3759 | the result of a compaction is its own compaction |
| `Compaction.AccessibilityTree` | computer-use-linux/src/server.rs:355-362 | walk and compaction together, for every bus and whatever each node said when it was read: the tree is the compaction of a genuine snapshot, parentless exactly at the roots and fixed under compaction; on a reliable bus the snapshot is the full listing up to max_nodes |
| `Coordinates.ClipCaptureRect` | computer-use-linux/src/server.rs:4054-4076 | exactly the intersection with the capture; the four conversion errors are unreachable |
| `Coordinates.DesktopOf` | computer-use-linux/src/server.rs:3994-4010 | the smallest rectangle around the usable monitors, each side reached by one of them |
| `Coordinates.ScaledWindowRect` | computer-use-linux/src/server.rs:4011-4052 | an accepted window is covered by the fewest whole pixels on both axes, with every precondition of acceptance |
| `Coordinates.CoveringRectIsReturned` | computer-use-linux/src/server.rs:4039-4052 | whenever a covering rectangle in machine range exists, it is the one returned |
| `Coordinates.LogicalWindowCropRect` | computer-use-linux/src/server.rs:3988-4052 | bounding box and scaling together, with the missing-monitor error exactly when no monitor is usable |
| `Coordinates.MapStaysWithin` | computer-use-linux/src/server.rs:3976-3986 | a position within the source maps within the target, saturated and clamped or not |
| `Coordinates.MapIsMonotone` | computer-use-linux/src/server.rs:3976-3986 | the mapping is monotone for all arguments |
| `Coordinates.MapIsProportionExactly` | computer-use-linux/src/server.rs:3976-3986 | the mapping is the plain truncated proportion if and only if that survives the 64-bit product and the 32-bit result |
| `WindowPoints.WindowCoordinateMapForDimensions` | computer-use-linux/src/server.rs:2835-2899 | when a coordinate map exists, and that its visible part is the clipped and its full part the scaled or plain window rectangle |
| `WindowPoints.PointParams.ApplyWindowRelativeClick` | computer-use-linux/src/server.rs:4089-4118 | accepted exactly when inside the rectangle and representable; rewrites the point in place, or leaves it |
| `WindowPoints.PointParams.ApplyWindowRelativeScroll` | computer-use-linux/src/server.rs:4139-4160 | accepted exactly when inside the rectangle; saturates |
| `WindowPoints.PointParams.ApplyWindowCenterScroll` | computer-use-linux/src/server.rs:4123-4137 | the centre of any nonempty rectangle |
| `WindowPoints.ScrollPointInside` | computer-use-linux/src/server.rs:4123-4160 | a saturated scroll point and the default centre stay inside the rectangle |
| `WindowPoints.PortalPointInsideWindow` | computer-use-linux/src/server.rs:3966-3973 | every point of the visible part maps inside the logical window |
| `WindowPoints.ProportionError` | computer-use-linux/src/server.rs:3976-4052 | scaling outwards and mapping back misses the exact position by less than one unit and one pixel downwards and one pixel upwards, in exact integers |
| `WindowPoints.PortalPointIsNear` | computer-use-linux/src/server.rs:3966-4052 | hence the portal point differs from exact inverse scaling s by more than -(1 + 1/s) and less than 1/s, unless the 64-bit product or the 32-bit result saturates |
| `WindowPoints.AxisIsNearExactly` | computer-use-linux/src/server.rs:3976-4052 | on each axis of every visible pixel the mapped point is that near exactly when the exact position is less than one unit and one pixel beyond the ceiling of the window, where product or result saturate; a near point has lost less than one unit and two pixels to saturation |
| `WindowPoints.PortalPointIsNearExactly` | computer-use-linux/src/server.rs:3966-4052 | the same for both axes of every visible pixel of every mapped window |
| `WindowPoints.PortalTarget` | computer-use-linux/src/server.rs:652-667 | the whole chain: an accepted click, scroll or default centre leaves its absolute, visible pixel in the parameters, and its target is that pixel mapped back, inside the logical window and near the exact place of the pixel exactly below the ceiling |
| `WindowPoints.OrdinaryWindowsDoNotSaturate` | computer-use-linux/src/server.rs:3976-3986 | windows of at most 2^31 pixels and units that end within 32 bits never saturate |
| `WindowPoints.SaturatedPointIsFar` | computer-use-linux/src/server.rs:3976-3986 | an instance of failure: a window whose last visible pixel maps to column 0 |
| `StreamLayout.MapCapturePointToStreamLayout` | computer-use-linux/src/remote_desktop.rs:1070-1167 | the exact conditions under which a captured pixel is accepted, and the point it maps to: on each axis the scaled place of the pixel rounded down, or the end of what the 64-bit product reaches; the capture scales both axes alike within 0.01 |
| `StreamLayout.CaptureAxisIsPlaced` | computer-use-linux/src/remote_desktop.rs:1169-1174 | a pixel maps to its scaled place rounded down if and only if neither the 64-bit product nor the 32-bit result saturates, and to the saturated value otherwise |
| `StreamLayout.AcceptedPointIsPlaced` | computer-use-linux/src/remote_desktop.rs:1155-1167 | no accepted pixel has been cut off by the 32-bit clamp |
| `StreamLayout.AcceptedPointIsScaledExactly` | computer-use-linux/src/remote_desktop.rs:1155-1174 | an accepted pixel is at its scaled place if and only if the 64-bit product reaches that far |
| `StreamLayout.AcceptedPixelOutOfReach` | computer-use-linux/src/remote_desktop.rs:1155-1174 | an instance of failure: a pixel of a very wide desktop that is accepted and sent to column 0 |
| `StreamLayout.FirstStreamIsSent` | computer-use-linux/src/remote_desktop.rs:1022-1032 | a shared point is handed on to the first stream that contains it |
| `Coordinates.UniformMeansEqualScales` | computer-use-linux/src/remote_desktop.rs:1148-1153 | both axes are taken to be scaled alike exactly when their scales differ by at most 0.01 |
| `StreamLayout.AcceptedPointIsSent` | computer-use-linux/src/remote_desktop.rs:1022-1032 | an accepted point lies in a shared stream, and stream origin plus relative offset reproduces it with no clamping |
| `StreamLayout.SingleMonitorAcceptsEveryPixel` | computer-use-linux/src/remote_desktop.rs:1070-1167 | a single shared monitor accepts every pixel of an unscaled capture |
| `StreamLayout.ContainedPointIsReproduced` | computer-use-linux/src/remote_desktop.rs:1177-1193 | a stream of positive size that contains a point ends within 32 bits although its end is computed with wrap-around |
| `StreamLayout.UnsharedPointIsOutside` | computer-use-linux/src/remote_desktop.rs:1022-1032 | a point no stream contains is refused |
| `StreamLayout.CaptureAxisStaysWithin` | computer-use-linux/src/remote_desktop.rs:1169-1174 | the axis map stays in the bounding box |
| `StreamLayout.CaptureAxisIsMonotone` | computer-use-linux/src/remote_desktop.rs:1169-1174 | and is monotone |
| `StreamLayout.UnscaledAxisIsTranslation` | computer-use-linux/src/remote_desktop.rs:1169-1174 | and on an unscaled capture is the translation by the origin |
| `StreamLayout.UnknownScaleMeansTranslation` | computer-use-linux/src/remote_desktop.rs:1113-1167 | with unknown multi-monitor scale every accepted pixel is translated, never scaled or clamped |
| `StreamLayout.AcceptedPointInBox` | computer-use-linux/src/remote_desktop.rs:1135-1162 | every accepted point lies in the bounding box of the monitors |
| `MonitorLayout.SameMonitorLayout` | computer-use-linux/src/remote_desktop.rs:1056-1068 | the layouts agree pair by pair once sorted by position and size |
| `MonitorLayout.SameLayoutMeansCounterparts` | computer-use-linux/src/remote_desktop.rs:1056-1068 | for layouts of distinct rectangles that means, whatever the orders, as many monitors and for each one with the same rectangle and a scale within 0.01 |
| `MonitorLayout.OrderIsIgnoredExactlyWhenConsistent` | computer-use-linux/src/remote_desktop.rs:1056-1068 | a layout agrees with every rearrangement of itself if and only if all its scales are finite and monitors on one rectangle have scales within 0.01 |
| `MonitorLayout.MirroredMonitorsCompareByOrder` | computer-use-linux/src/remote_desktop.rs:1056-1068 | an instance of the failure: two monitors on one rectangle with scales 1 and 2 |
| `CommandRunner.DrainNonblocking` | computer-use-linux/src/command_runner.rs:338-361 | appends exactly what is read, at most 64 KiB + 8 KiB - 1 per call and 1 MiB in all; end of file only with the whole stream, an incomplete drain only when the pipe has nothing more or 64 KiB are read |
| `CommandRunner.TerminateBlockingProcess` | computer-use-linux/src/command_runner.rs:363-376 | kills the group and only then reaps |
| `CommandRunner.OutputBlockingWithTimeout` | computer-use-linux/src/command_runner.rs:45-122 | success has both whole streams, the status the leader was reaped with and one reaping without a kill; a timeout means that every round up to the deadline found a pipe open or the leader running; every other ending of a child with a process id and pipes kills the group, never after a reaping; each error has its cause |
| `CommandRunner.ReadKeepsReader` | computer-use-linux/src/command_runner.rs:309-325 | one read keeps a reader sound: what it has gathered is what it has read, and at the end the whole stream |
| `CommandRunner.ReadPipe` | computer-use-linux/src/command_runner.rs:309-325 | the coded loop goes through exactly the states of the modelled reader; a finished one has the whole stream within 8 MiB, and it fails only for a longer stream or a failed read |
| `CommandSupervision.KillFollowsReapingExactlyOnLateDrop` | computer-use-linux/src/command_runner.rs:150-306 | a group kill follows the reaping of the leader exactly on the runs in which the supervisor is dropped with the leader gone: the inner future drops the child, and reaps it, before the outer one drops the armed guard |
| `CommandSupervision.DropAfterExitKillsLate` | computer-use-linux/src/command_runner.rs:187-202 | whenever the leader has exited by itself and the supervisor is dropped at a wait, the kill comes after the reaping |
| `CommandSupervision.LateDropHappens` | computer-use-linux/src/command_runner.rs:187-202 | such a run, for every pair of output streams |
| `CommandSupervision.EveryFailureKills` | computer-use-linux/src/command_runner.rs:150-306 | every ending but success kills the group, cancellation and a dropped supervisor included, exactly when there was a process id |
| `CommandSupervision.SuccessIsWholeAndUnharmed` | computer-use-linux/src/command_runner.rs:208-325 | the output of a success is the whole of both streams, at most 8 MiB each, and the status of the leader, however the reads interleave with everything else; the leader was reaped and never killed |
| `KeyChords.PartsAtPlus` | computer-use-linux/src/server.rs:5210-5215 | a plus sign separates: the parts of both sides in order |
| `KeyChords.PartsWithoutPlus` | computer-use-linux/src/server.rs:5210-5215 | a string without a plus sign is one part, trimmed, or none when blank |
| `KeyChords.ChordMeans` | computer-use-linux/src/server.rs:5210-5228 | parts make up a chord exactly when all but the last are its modifiers in order and the last is its key, a lone modifier being the key |
| `KeyChords.KeyChord` | computer-use-linux/src/server.rs:5210-5228 | the chord the parts of a key string make up, and none exactly when they make up none |
| `KeyChords.KeySequence` | computer-use-linux/src/server.rs:5230-5242 | the events of exactly that chord, for exactly the accepted strings: each modifier down in order, the key down and up, the modifiers up in reverse |
| `KeyChords.EventsAreWellNested` | computer-use-linux/src/server.rs:5230-5242 | the events of every chord are well nested and all released, repeated modifiers included |
| `KeyChords.PortalSendsTheSameEvents` | computer-use-linux/src/remote_desktop.rs:764-788 | they are exactly the presses and releases the portal chord sends, in order |
| `XdotoolKeys.XdotoolKeySpec` | computer-use-linux/src/server.rs:5048-5069 | the names of the string joined by plus signs |
| `XdotoolKeys.XdotoolAgrees` | computer-use-linux/src/server.rs:5048-5120 | accepts exactly the strings the evdev backends accept, and what it is given splits back into names that denote the same modifiers and key |
| `XdotoolKeys.ModifierNamesAreDistinct` | computer-use-linux/src/server.rs:5071-5083 | no X modifier name denotes two keys |
| `XdotoolKeys.KeysymNamesAreDistinct` | computer-use-linux/src/server.rs:5085-5120 | no X key name denotes two keys, so the chord is determined |
| `XdotoolKeys.AsciiCodesFollowRows` | computer-use-linux/src/server.rs:5300-5341 | letters and digits have the codes of their places in the rows of the keyboard, and no other character has one |
| `XdotoolKeys.NamesSpellKeys` | computer-use-linux/src/server.rs:5085-5120 | every key name is the key string in other letter case, but for nine other words for a key |
| `XdotoolKeys.KeyTablesAgree` | computer-use-linux/src/server.rs:5085-5340 | the key-code table and the key-name table accept the same parts and agree on the key |
| `XdotoolKeys.ModifierTablesAgree` | computer-use-linux/src/server.rs:5071-5261 | and so do the modifier tables |
| `ProxyQuery.DifferenceIsZeroWhenEqual` | computer-use-linux/src/chrome_runtime.rs:1947-1957 | the gathered xor of two byte strings is zero exactly when they are equal |
| `ProxyQuery.ConstantTimeEq` | computer-use-linux/src/chrome_runtime.rs:1947-1957 | equality of byte strings |
| `ProxyQuery.NormalizedClientId` | computer-use-linux/src/chrome_runtime.rs:1959-1974 | an accepted client id is nonempty, at most 128 bytes, of the permitted bytes |
| `ProxyQuery.ParseProxyQuery` | computer-use-linux/src/chrome_runtime.rs:1904-1928 | the loop over the items decides as one item at a time is taken in |
| `ProxyQuery.AcceptedExactlyTheForms` | computer-use-linux/src/chrome_runtime.rs:1904-1974 | a query is accepted as client C exactly when it is token=T (C default), token=T&clientId=C or clientId=C&token=T for the expected T, which must be ASCII without & and % |
| `ProcessTree.IsDescendantOf` | computer-use-linux/src/terminal.rs:184-199 | descendants are exactly the processes of finite depth |
| `ProcessTree.ProcessDepth` | computer-use-linux/src/terminal.rs:201-216 | the counting loop and the deciding loop agree |
| `ProcessTree.DepthIsChainLength` | computer-use-linux/src/terminal.rs:201-216 | a chain of parents of at most 128 processes gives the depth |
| `ProcessTree.LongChainIsCutOff` | computer-use-linux/src/terminal.rs:184-216 | a process at the end of a longer chain counts as no descendant |
| `ProcessTree.DepthHasChain` | computer-use-linux/src/terminal.rs:201-216 | and every finite depth comes from such a chain |
| `ProcessTree.GroupHasLeaf` | computer-use-linux/src/terminal.rs:157-173 | with unique pids every nonempty tty group has a process that is no parent in it |
| `ProcessTree.ActiveProcessIsLatestLeaf` | computer-use-linux/src/terminal.rs:157-173 | so the active process is the latest leaf and its fallback is unreachable |
| `ProcessTree.Root` | computer-use-linux/src/terminal.rs:137-144 | the root process is first by depth, start and pid |
| `ProcessTree.GroupHoldsExactly` | computer-use-linux/src/terminal.rs:121-132 | a group holds exactly the descendants with its device open |
| `TerminalSessions.SessionTells` | computer-use-linux/src/terminal.rs:133-155 | a session counts each of those processes once, names the first of them as root and the latest leaf as active |
| `TerminalSessions.GroupByTty` | computer-use-linux/src/terminal.rs:121-132 | the groups are exactly the descendants by open terminal device |
| `TerminalSessions.TerminalSessionsForPid` | computer-use-linux/src/terminal.rs:116-155 | one session per device, in device order |
| `TerminalSessions.MatchWindows` | computer-use-linux/src/terminal.rs:67-104 | windows of one application are paired with its sessions in order when equally many, and nothing changes otherwise |
| `TerminalSessions.EnrichTerminalWindows` | computer-use-linux/src/terminal.rs:47-105 | every terminal window ends as the matching of its own application says, all others unchanged |
| `TerminalSessions.MatchedOnlyWhenEquallyMany` | computer-use-linux/src/terminal.rs:76-103 | windows get a session exactly when there are as many of them as sessions, the single pair being the certain one |
| `TerminalSessions.MatchingKeepsOrder` | computer-use-linux/src/terminal.rs:73-103 | a window is created before another exactly when its session started before, and different windows get different devices |
| `TerminalSessions.EverySessionIsShown` | computer-use-linux/src/terminal.rs:73-103 | every session is assigned to a window |
| `Sorting.SortIsStable` | computer-use-linux/src/terminal.rs:73-74 | the sorts are stable |
| `ScreenshotShrink.Resolve` | computer-use-linux/src/screenshot.rs:111-143 | a request within the absolute bounds is honoured, one outside goes to the nearer bound, none means the default |
| `ScreenshotShrink.FitScaleIsGreatest` | computer-use-linux/src/screenshot.rs:543-558 | the common factor is the greatest that keeps both sides within their limits and the requested scale and enlarges nothing |
| `ScreenshotShrink.TargetIsNearest` | computer-use-linux/src/screenshot.rs:543-558 | each target side is the nearest whole number to the scaled side, and at least 1 |
| `ScreenshotShrink.TargetFits` | computer-use-linux/src/screenshot.rs:543-558 | the first target respects both maximum dimensions and never enlarges |
| `ScreenshotShrink.FittingTargetIsUnchanged` | computer-use-linux/src/screenshot.rs:543-558 | a screenshot within its limits, requested unscaled, keeps its size |
| `ScreenshotShrink.ScaledSideIsFloor` | computer-use-linux/src/screenshot.rs:633-635 | the shrunk side is the whole part of the exact irrational product |
| `ScreenshotShrink.PassShrinks` | computer-use-linux/src/screenshot.rs:627-645 | every pass shrinks each side above 1 to at most max(1, 19/20 of it); the forced decrement is never taken |
| `ScreenshotShrink.EncodeScreenshotToFitBytes` | computer-use-linux/src/screenshot.rs:560-605 | for every encoder the loop starts at the target, tries after each size that is too large the one computed from it, and ends within a bounded number of encodings, with bytes within the limit at the size returned, no larger than the target; it succeeds whenever encoding works and 1x1 fits |
| `ScreenshotShrink.PassesAreLogarithmic` | computer-use-linux/src/screenshot.rs:560-605 | the number of encodings is at most logarithmic in the starting size |

## Left out

- D-Bus, AT-SPI, uinput, sockets, process spawning, `/proc`, file systems and permission checks: each is a parameter or an oracle answer.
- Floating-point rounding: scales, shrink factors and the square root are exact; casts of scaled rectangles keep their 64-bit saturation.
- Panics, mutex poisoning and unbounded waits: a call that never returns is a step that is never taken; `next_process_instance` does not wrap.
- Node indices and child counts of the accessibility tree are unbounded; the walk admits at most 2,000 nodes. What is read of a node is one value for each position in the snapshot.
- Snapshot.SnapshotTree: the ten-second deadline around the walk is not modelled.
- CommandRunner.OutputBlockingWithTimeout: the deadline is a number of rounds, and a pipe gives finitely many answers before it falls silent, so an endless stream of interrupted reads is not modelled. The early returns for an unusable process id or absent pipes are modelled as one error without a kill; the way the child is spawned makes them unreachable.
- CommandSupervision.KillFollowsReapingExactlyOnLateDrop: that dropping a child tries to reap it is a fact about the async runtime, whose source is not part of this model; a panicking pipe task is left out.
- StreamLayout.MapCapturePointToStreamLayout: the equality of the two sorted rectangle lists is modelled as equality of multisets; the sort itself is not.
- StreamLayout.MapCapturePointToStreamLayout: adding a stream's origin and size wraps, as in release builds; a debug build panics there.
- Coordinates.ScaledWindowRect: the subtraction of two saturated 64-bit ends is unbounded; where it would overflow the source rejects the window or panics.
- KeyChords.KeySequence: events are pairs of key code and direction, not formatted strings.
- TerminalSessions.EnrichTerminalWindows: whether a window looks like a terminal is a field of the window; terminal devices are numbers in the order of their paths; texts of confidence and reason are one flag.
- InputProtocol.StepKeepsInv: makes no claim about portal events after a session was invalidated, when an error path clears a cached session after the lock was handed on.
- LeaseProtocol.StepKeepsInv: no claim that the socket file of a mapped process exists; stopping a process removes a path named after the client outside the lifecycle lock.
- The pool of pending handshakes and the tab-context assets of the runtime: bounded queues and maps whose properties are read off single bodies.
- Window and node resolution (`resolve_semantic_node`), focused-element summaries and the other window backends.
- Diagnostics, environment hydration, the ydotool cache, GNOME and COSMIC helpers, the JavaScript patchers, schemas and error texts.
