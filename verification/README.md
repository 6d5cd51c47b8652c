# Pocket Realm build tools: a verified model

Pocket Realm builds a game server, its bots and its graphics clients from pinned upstream sources.
Its Python tools rewrite those sources in place, inject C++ into them, build, and put every byte
back. This project models the parts of the tools, and of the code they inject, where a mistake would
be hard to see, and proves what each promises.

Files that change state in the source are classes with methods proved against a function of the old
state; the properties are lemmas about that function over every input or every run.

| file | what it models |
|---|---|
| `Substring.dfy`, `Overlay.dfy`, `OverlayCleanup.dfy`, `SourceTree.dfy` | the source overlays: one edit, a plan of edits, the build's `try`/`finally`, and the driver that rewrites a checkout |
| `DatabaseProbe.dfy` | the database probe and the login gate on a wrapping 32-bit clock |
| `ResultQueue.dfy`, `AsyncQueue.dfy`, `SqlTransaction.dfy` | the asynchronous database layer |
| `BattleGroundUnlink.dfy` | battlegrounds and maps that point at each other |
| `VillageRing.dfy` | login spread and the village ring |
| `DrawPayload.dfy`, `TexImageSpan.dfy` | the GL client's draw encoder and texture span |
| `VortekMap.dfy` | the Vulkan guest's memory mapping, original and instrumented |
| `KotlinString.dfy`, `CodeHalf.dfy` | printing a Kotlin string literal; the code half of a line |
| `FlavorIdentity.dfy`, `Provenance.dfy` | duplicate identities and commit pins of the flavor manifest |
| `Sorting.dfy` | Python's order on strings |
| `Binary.dfy`, `PeImage.dfy`, `PeWriter.dfy`, `ElfDynamic.dfy`, `ElfWriter.dfy` | import names of Windows images, needed libraries of ELF files, and a writer of each that the parser inverts |

## What came out

* **Cleanup is complete under an exact condition.** Undoing an edit is the apply computation with the
  two texts exchanged. With every anchor in place, and each new text nowhere in the pristine file and
  clear of the other edits, a build that dies after any number of edits is undone by a cleanup that
  visits each step in any order, because foreign edits can neither create nor destroy an anchor. Two
  things break it. An anchor that drifted stops cleanup where it is met: cleanup visits
  `ChatHandler.cpp` early although it is edited late, so drift there strands earlier edits. And an
  overlay that the tree already holds is accepted by the build and then undone by cleanup. The tree is
  byte-identical if and only if every change the build made is undone before cleanup meets a drifted
  anchor and no overlay that was already there is undone. Both failures, shown on concrete plans, go
  against the byte-for-byte promise of `restore_cmangos_source`. It raises on drift itself, before the
  status check that follows; that check reports an overlay that was lost.
* **One edit comes back**, on any file and for any texts, exactly when undoing first finds the form
  that was edited and the scan for the new text stops exactly where the edit put it. Two inputs show
  what else happens: next to a copy of its new text undoing takes the copy, and a text of several
  lines that was found in its CRLF form and became one line comes back in LF form. Where neither form
  of the new text was there before and it is recognisable, the second is the only way to fail.
* **The login gate** is sound over every run except that a silence of 2^32 ms makes a settled probe
  read as fresh again. The gate is open wrongly exactly when one of its two elapsed times reaches a
  whole wrap. The comment that unsigned subtraction keeps the checks correct across the wrap holds
  only below that; with real gaps below it the gate is the gate of an unbounded clock.
* **Transactions.** The hardened form is all-or-nothing. The `#else` form is atomic exactly when
  BEGIN holds and COMMIT is accepted or never reached, or the autocommitted prefix is invisible.
* **The result queue** that releases its lock before a callback has no wait-for cycle; the upstream
  loop has one exactly when it holds a callback while a worker with the connection is about to
  publish, and reaches that in five steps.
* **The guarded worker** accounts for each operation once, and keeps their order exactly when none
  runs inline while an earlier one still waits, as when every halt drains the queue first. A query
  holder's callback is lost when the holder is null or a live worker has no result queue.
* **Battlegrounds**: the upstream destructors touch freed memory exactly when a map is deleted whose
  battleground is already gone, or a battleground whose latest map is.
* **The village ring** bounds the settlers designated in a session, but not the villagers a spawn
  point gets: those it does not count are exactly the settlers that log in there without being its
  residents. A bot that settles, is placed and logs in again elsewhere is one, so a ring of one can
  get two villagers without any settler from an earlier session.
* **Texture spans**: overflow of intermediate values is harmless; the answer is wrong exactly when
  the true span wraps back into the range of an `int`.
* **Memory mapping**: the instrumented calls agree with the originals exactly when a reply that brings
  one descriptor brings the whole result; otherwise the original reads an uninitialised local.
* **Manifests**: the owner registry and the pairwise pass use different keys for the prefix segment.
  They use the same keys exactly when every segment is trimmed and not empty, and the pairwise pass is
  silent exactly when the registry is and no flavor holds a padded copy of another's segment. A group binds to the legacy source entry if and only if
  the flavor has no entry of its own and the legacy id is duplicated.
* **ELF files**: the parser answers nothing for files it cannot follow, except for two kinds that
  raise: an `IndexError` exactly when all headers are readable and the index of the name section is
  out of range, and an `OverflowError` exactly when it comes to a table or a dynamic entry past the
  signed 64-bit range. A file of each kind is given.

## Model

| member | source | states |
|---|---|---|
| Substring.FindIsLeftmost | tools/build_o09_realm_runtime.py:2555-2558 | the search misses exactly when the text is absent and otherwise finds the leftmost occurrence |
| Substring.SwapKeepsAbsent | tools/build_o09_realm_runtime.py:2541-2563 | writing a text that cannot overlap an anchor, anywhere in a file, cannot create that anchor |
| Substring.ReplaceRoundTrip | tools/build_o09_realm_runtime.py:2388-2406 | replacing every occurrence and replacing back is the identity when the new text is absent and cannot overlap itself |
| Substring.CallsPatchFirstOccurrences | tools/build_o09_realm_runtime.py:2778-2784 | k consecutive one-shot edits patch exactly the first k occurrences |
| Substring.OneThenRest | tools/build_o09_realm_runtime.py:2778-2784 | a one-shot edit followed by n more is n + 1 edits from the start |
| Overlay.CrlfIsReplace | tools/build_o09_realm_runtime.py:2541-2549 | the CRLF form of a text has every line feed converted |
| Overlay.RewriteMeaning | tools/build_o09_realm_runtime.py:2541-2582 | which of the four texts a file holds decides what an edit does, with how many occurrences replaced |
| Overlay.RewriteRoundTrip | tools/build_o09_realm_runtime.py:2994-3016 | restore_anchor undoes replace_anchor and restore_all undoes replace_all, on LF, CRLF and mixed files |
| Overlay.UndoIffRecovers | tools/build_o09_realm_runtime.py:2388-2406 | replacing one or all occurrences is undone if and only if the scan for the new text stops exactly where the edit put it |
| Overlay.RoundTripIff | tools/build_o09_realm_runtime.py:2541-2563 | the exact condition under which an edit comes back, for any file, any texts, both forms and both kinds of edit |
| Overlay.NewTextRoundTripIff | tools/build_o09_realm_runtime.py:2541-2563 | for a recognisable new text that was not there, an edit comes back if and only if its LF form was found or its new text has a line feed |
| Overlay.UndoTakesTheNeighbour | tools/build_o09_realm_runtime.py:3007-3010 | a concrete edit beside a copy of its new text that does not come back |
| Overlay.UndoForgetsTheForm | tools/build_o09_realm_runtime.py:3007-3010 | a concrete CRLF edit that comes back in LF form |
| Overlay.AbsentAfterEdits | tools/build_o09_realm_runtime.py:2604-2851 | no set of foreign edits makes an absent text appear |
| Overlay.ScansAfterEdits | tools/build_o09_realm_runtime.py:2604-2851 | no set of foreign edits moves where an anchor is found |
| Overlay.ReplaceToggles | tools/build_o09_realm_runtime.py:2555-2558 | a rewrite toggles its own slots in a file and nothing else |
| OverlayCleanup.StepApplies | tools/build_o09_realm_runtime.py:2604-2851 | an apply step adds itself to whatever set of steps is applied |
| OverlayCleanup.StepReverts | tools/build_o09_realm_runtime.py:2854-2991 | a cleanup step removes itself from any set of applied steps, and is a no-op on a step that never ran |
| OverlayCleanup.AnchorUntouched | tools/build_o09_realm_runtime.py:3011-3016 | restoring an anchor that was not applied leaves its file alone |
| OverlayCleanup.StepKept | tools/build_o09_realm_runtime.py:2560-2562 | applying an anchor whose overlay the tree already holds changes nothing |
| OverlayCleanup.DriftedStepFails | tools/build_o09_realm_runtime.py:2560-2563 | a drifted anchor fails in both directions in every state of the tree |
| OverlayCleanup.SameWorldIff | tools/build_o09_realm_runtime.py:2604-2851 | two states of a tree are byte-identical exactly when the same changing steps are applied |
| OverlayCleanup.ApplyPassReaches | tools/build_o09_realm_runtime.py:2604-2851 | the overlay pass adds exactly the steps before its end or its first drifted anchor to those the tree already held |
| OverlayCleanup.UndoPassCleans | tools/build_o09_realm_runtime.py:2854-2991 | cleanup, in its own order, removes exactly the steps before its first drifted anchor |
| OverlayCleanup.CleanupIsCompleteIff | tools/build_o09_realm_runtime.py:3672-3693 | after a build cut off anywhere, from a tree that may already hold overlays, the tree is byte-identical if and only if each change made is undone before cleanup meets a drifted anchor and no overlay that was there is undone |
| OverlayCleanup.AnyOrderRestores | tools/build_o09_realm_runtime.py:2854-2991 | without drift, any cleanup order that covers the steps undoes a build cut off anywhere, exactly when it undoes no overlay that was there |
| OverlayCleanup.SharedWorld | tools/build_o09_realm_runtime.py:2604-2851 | what each set of steps leaves in a file with two anchors |
| OverlayCleanup.SharedFileComesBack | tools/build_o09_realm_runtime.py:2854-2991 | that file comes back from every cut-off when cleanup visits the anchors in the order they were applied |
| OverlayCleanup.DriftStrandsEdits | tools/build_o09_realm_runtime.py:2854-2867 | a concrete plan whose cleanup meets drift first and leaves an edit behind |
| OverlayCleanup.CleanupTakesAnEarlierOverlay | tools/build_o09_realm_runtime.py:2560-2562 | a concrete tree that held an overlay and loses it |
| SourceTree.Checkout.SwapFirstVariant | tools/build_o09_realm_runtime.py:2541-2563 | the loop over line-ending variants rewrites the file as the specification says, or leaves the tree alone |
| SourceTree.Checkout.ReplaceAnchor | tools/build_o09_realm_runtime.py:2541-2563 | performs one apply step on the tree, or raises and changes nothing |
| SourceTree.Checkout.ReplaceAll | tools/build_o09_realm_runtime.py:2566-2582 | performs one replace-all step on the tree, or raises and changes nothing |
| SourceTree.Checkout.RestoreAnchor | tools/build_o09_realm_runtime.py:2994-3016 | performs one undo step on the tree, or raises and changes nothing |
| SourceTree.Checkout.RestoreAll | tools/build_o09_realm_runtime.py:2388-2406 | performs one undo-all step on the tree, or raises and changes nothing |
| SourceTree.Checkout.ApplyStep | tools/build_o09_realm_runtime.py:2436-2449 | an anchor is rewritten, an added file must not exist yet, an overwritten one takes its text, and a step that raises changes nothing |
| SourceTree.Checkout.UndoStep | tools/build_o09_realm_runtime.py:2854-2861 | an anchor is rewritten back, an added file is removed only with the bytes that were written, an overwritten one gets its saved bytes |
| SourceTree.Checkout.Prepare | tools/build_o09_realm_runtime.py:2604-2851 | the overlay pass cut off after any number of steps |
| SourceTree.Checkout.Restore | tools/build_o09_realm_runtime.py:2854-2991 | the cleanup pass in the order given |
| SourceTree.Checkout.BuildAndRestore | tools/build_o09_realm_runtime.py:3672-3693 | the try and its finally change the tree as the build function the main results speak of |
| DatabaseProbe.RandomPlayerbotMgr.ReadyForLogin | tools/build_o09_realm_runtime.py:1166-1174 | the gate's answer as a function of the probe fields |
| DatabaseProbe.RandomPlayerbotMgr.BeginProbe | tools/build_o09_realm_runtime.py:1176-1202 | expiry, cadence and the new token, field by field |
| DatabaseProbe.RandomPlayerbotMgr.CompleteProbe | tools/build_o09_realm_runtime.py:1217-1227 | only the live token settles a probe |
| DatabaseProbe.RandomPlayerbotMgr.ScheduleProbe | tools/build_o09_realm_runtime.py:1204-1215 | a refused query settles its own probe as failed |
| DatabaseProbe.RandomPlayerbotMgr.DatabasePing | tools/build_o09_realm_runtime.py:1229-1235 | the callback settles with the wrapped round trip |
| DatabaseProbe.StepRefines | tools/build_o09_realm_runtime.py:1166-1235 | one event keeps the wrapping gate in step with the same gate on an unbounded clock |
| DatabaseProbe.RunRefines | tools/build_o09_realm_runtime.py:1166-1235 | over any run whose comparisons are not aliased, the wrapping gate is the unbounded one |
| DatabaseProbe.ShortGapsAreClear | tools/build_o09_realm_runtime.py:1194-1196 | over a whole run, gaps and round trips under a wrap never alias a comparison |
| DatabaseProbe.RunRecords | tools/build_o09_realm_runtime.py:1166-1235 | over every run the gate holds the wrapped image of the last settlement it accepted |
| DatabaseProbe.SettledIsIdeal | tools/build_o09_realm_runtime.py:1166-1235 | without aliasing, that settlement is the one of the unbounded clock |
| DatabaseProbe.GateIsSoundIff | tools/build_o09_realm_runtime.py:1166-1174 | over every run, an open gate means the last settled generation succeeded in time and recently, exactly when neither elapsed time reaches a wrap; and the gate is never shut wrongly |
| DatabaseProbe.ShortGapsKeepGateSound | tools/build_o09_realm_runtime.py:1166-1174 | with real gaps under a wrap the gate is open exactly when an unbounded clock would open it, until the last settlement is a wrap old |
| DatabaseProbe.GateReopensAfterAWrap | tools/build_o09_realm_runtime.py:1166-1174 | a concrete run after which one wrap of silence reopens the gate |
| DatabaseProbe.StartsAreSpaced | tools/build_o09_realm_runtime.py:1190-1192 | probe starts are 10 s apart in real time however often the clock wraps |
| DatabaseProbe.AllStartsAreSpaced | tools/build_o09_realm_runtime.py:1190-1192 | the same from a manager that never probed |
| DatabaseProbe.ExpiryIsLate | tools/build_o09_realm_runtime.py:1178-1189 | a generation expires only after 15 s of real time, and its expiry starts the next |
| DatabaseProbe.StaleCallbacksAreIgnored | tools/build_o09_realm_runtime.py:1217-1227 | a callback moves the gate exactly when its token is the live one, which another generation has only from a whole wrap away |
| DatabaseProbe.LostCallbackNeverWedges | tools/build_o09_realm_runtime.py:1178-1189 | past the allowance a poll starts a new probe, or one 15 s later does |
| DatabaseProbe.ShutAfterExpiry | tools/build_o09_realm_runtime.py:1181-1188 | after an expiry the gate is shut over any run until a later generation succeeds |
| SqlTransaction.SqlConnection.ExecuteItems | tools/build_o09_realm_runtime.py:2319-2329 | the statement loop stops and rolls back at the first failure |
| SqlTransaction.SqlConnection.ExecuteHardened | tools/build_o09_realm_runtime.py:2316-2334 | the DO_SQLITE branch, for every answer of BEGIN, the statements and COMMIT |
| SqlTransaction.SqlConnection.ExecuteUnguarded | tools/build_o09_realm_runtime.py:2336-2350 | the other branch, for the same answers |
| SqlTransaction.HardenedIsAtomic | tools/build_o09_realm_runtime.py:2310-2334 | the data is the fold of all statements with true, or unchanged with false, and no transaction stays open |
| SqlTransaction.UnguardedIsAtomicIff | tools/build_o09_realm_runtime.py:2336-2350 | the exact condition under which the other branch has that property |
| SqlTransaction.RunIsReplayOfCommitted | tools/build_o09_realm_runtime.py:2310-2334 | over any run of batches the data is the fold of exactly those reported as committed |
| SqlTransaction.RefusedCommitWedges | tools/build_o09_realm_runtime.py:2336-2350 | a refused COMMIT leaves the connection open, and the next batch joins the old work |
| AsyncQueue.Database.SafeDelayOperation | tools/build_o09_realm_runtime.py:2131-2155 | an operation is queued, run inline and freed, or refused and freed, by the worker's state |
| AsyncQueue.Database.SafeDelayQueryHolder | tools/build_o09_realm_runtime.py:2157-2178 | the callback is delivered or freed if and only if there is a holder and a live worker has a result queue |
| AsyncQueue.Conserved | tools/build_o09_realm_runtime.py:2131-2155 | operations are neither lost nor duplicated over any run |
| AsyncQueue.EachOperationOnce | tools/build_o09_realm_runtime.py:2136-2155 | each operation waits or has been freed, once altogether, and runs at most as often |
| AsyncQueue.FreedHaveRun | tools/build_o09_realm_runtime.py:2136-2155 | an operation is freed once for each time it runs and once if it came with neither worker nor connection; with a connection whatever is freed has run |
| AsyncQueue.OrderKeptIff | tools/build_o09_realm_runtime.py:2136-2154 | operations run and wait in the order they were handed in if and only if none runs inline while an earlier one waits |
| AsyncQueue.DrainedHaltsKeepOrder | tools/build_o09_realm_runtime.py:2136-2154 | over any run of restarts whose halts drain the queue first, the order is kept |
| ResultQueue.SqlResultQueue.Update | tools/build_o09_realm_runtime.py:975-993 | the drain runs what was queued and what arrives up to the first empty pass, once each, in push order |
| ResultQueue.PushOrderKept | tools/build_o09_realm_runtime.py:975-993 | in every interleaving, callbacks run exactly once and in push order |
| ResultQueue.NoCircularWait | tools/build_o09_realm_runtime.py:977-992 | the wait-for graph of the queue and connection locks has no cycle, and no callback runs under the queue lock |
| ResultQueue.SomebodyCanAct | tools/build_o09_realm_runtime.py:977-992 | until the drain returns, the world thread or the thread it waits for can act |
| ResultQueue.UpstreamCycleIff | tools/build_o09_realm_runtime.py:962-973 | in every interleaving the upstream loop has a wait-for cycle if and only if a callback is in hand while a worker with the connection is about to publish |
| ResultQueue.UpstreamDeadlocks | tools/build_o09_realm_runtime.py:962-973 | the upstream loop reaches such a state in five steps |
| BattleGroundUnlink.World.DestroyBattleGround | tools/build_o09_realm_runtime.py:955-961 | marks the map for unloading and clears its back pointer before the battleground goes |
| BattleGroundUnlink.World.DestroyBattleGroundMap | tools/build_o09_realm_runtime.py:938-951 | clears the battleground's pointer and queues the removal, if the battleground is alive |
| BattleGroundUnlink.StepKeepsLinks | tools/build_o09_realm_runtime.py:938-961 | one creation or deletion keeps every pointer mutual and live |
| BattleGroundUnlink.StepKeepsMarks | tools/build_o09_realm_runtime.py:938-961 | one creation or deletion keeps the unload marks and each battleground's map |
| BattleGroundUnlink.LinksStaySafe | tools/build_o09_realm_runtime.py:938-961 | over any run nothing freed is touched, a removal is queued exactly when a map dies first, and what lives, its links and its unload marks are what the deletions say |
| BattleGroundUnlink.UpstreamFaultsIff | tools/build_o09_realm_runtime.py:929-954 | the upstream destructors fault if and only if a run deletes a map whose battleground is gone, or a battleground whose latest map is |
| BattleGroundUnlink.FromEmptyHeap | tools/build_o09_realm_runtime.py:929-961 | both results for every run from an empty heap |
| VillageRing.CellKeyIsInjective | tools/build_o09_realm_runtime.py:1595-1603 | distinct maps and cells on the grid have distinct keys |
| VillageRing.OffGridKeysCollide | tools/build_o09_realm_runtime.py:1595-1603 | every key is the key of a spawn point on the grid, so every spawn point off it shares its key with a different one |
| VillageRing.RandomPlayerbotMgr.ArmLoginSpread | tools/build_o09_realm_runtime.py:1605-1661 | what arming a login does to the pending set, the cells and the settlers |
| VillageRing.RandomPlayerbotMgr.LoginSpreadTeleport | tools/build_o09_realm_runtime.py:1686-1697 | answers the mode that was waiting and takes the entry, or nothing |
| VillageRing.PlacementsFollowLogins | tools/build_o09_realm_runtime.py:1658-1697 | over any session a bot is placed in the village exactly when it was a settler once the login that armed it was done |
| VillageRing.RingStaysBounded | tools/build_o09_realm_runtime.py:1627-1656 | a cell's count is its designated bots plus at most one inherited settler, within the ring size, with one race and no bot twice |
| VillageRing.DesignatedFit | tools/build_o09_realm_runtime.py:1627-1656 | in every session at most the ring size of bots are designated in a cell, all of its recorded race, all different |
| VillageRing.RingBoundIff | tools/build_o09_realm_runtime.py:1627-1660 | the villagers a cell gets beyond its residents are exactly the strangers; the villagers stay within the ring size if and only if the strangers fit beside the residents sent themselves |
| VillageRing.RelogOverfillsTheRing | tools/build_o09_realm_runtime.py:1627-1660 | a concrete session that sends two villagers to a ring of one |
| VillageRing.VillagersAreSettlers | tools/build_o09_realm_runtime.py:1605-1661 | over any session only settlers wait for a village place, and a settler stays one |
| VillageRing.EachEntryConsumedOnce | tools/build_o09_realm_runtime.py:1523-1560 | a bot is armed once for each relocation it consumes, with at most one entry pending |
| DrawPayload.OutputBuffer.WriteUnboundVertexArrays | tools/build_gladio_client.py:458-530 | the buffer grows by the index part, the magic, the patched count and the records, and by nothing else |
| DrawPayload.OutputBuffer.PutAttrib | tools/build_gladio_client.py:477-526 | an attribute emits nothing or one complete record |
| DrawPayload.IndexPartReads | tools/build_gladio_client.py:463-473 | the payload starts with the offset into the bound buffer, or with the indices themselves, and then the magic |
| DrawPayload.RecordsOfAttribute | tools/build_gladio_client.py:477-525 | which attributes are sent, as which kind, and with how many bytes |
| DrawPayload.FetchedIs | tools/build_gladio_client.py:519-519 | the vertex fetched is the index shifted by the base vertex |
| DrawPayload.HeaderReads | tools/build_gladio_client.py:499-511 | each record's length field is its payload size |
| DrawPayload.RecordsReadBack | tools/build_gladio_client.py:477-526 | a reader following the lengths recovers the records |
| DrawPayload.PayloadReadsBack | tools/build_gladio_client.py:458-530 | the whole payload reads back to its record list and stops at the next request |
| DrawPayload.GenericCoversIff | tools/build_gladio_client.py:494-503 | each generic record emitted carries every vertex below the count exactly when its byte count did not wrap |
| DrawPayload.LegacyPayloadIsFetched | tools/build_gladio_client.py:505-524 | both legacy paths send, for each position of the draw, the bytes of the vertex it fetches |
| DrawPayload.FetchesAreCovered | tools/build_gladio_client.py:489-503 | each generic record emitted holds, at its place, every vertex the draw fetches |
| TexImageSpan.MaskDropsRemainder | tools/build_gladio_client.py:203-204 | the mask form is rounding to the alignment |
| TexImageSpan.StrideRoundsUp | tools/build_gladio_client.py:202-204 | the row stride is the least multiple of the alignment that holds a row |
| TexImageSpan.TrueSpanIsTight | tools/build_gladio_client.py:206-211 | the true span is one past the largest byte read, and that byte is read |
| TexImageSpan.SpanIsReduced | tools/build_gladio_client.py:200-212 | the wrapping computation is the true span reduced once |
| TexImageSpan.RefusedIsZero | tools/build_gladio_client.py:193-199 | any other arguments give zero |
| TexImageSpan.SpanIsExactIff | tools/build_gladio_client.py:188-213 | the answer is exact if and only if the true span does not wrap back into an int |
| TexImageSpan.WrappedSpanIsWrong | tools/build_gladio_client.py:205-212 | a concrete upload whose span is reported as four bytes |
| VortekMap.Original.MapMemory | tools/build_vortek_guest.py:121-153 | the original classic map against the shared meaning, lock released on every path |
| VortekMap.Original.MapMemory2 | tools/build_vortek_guest.py:214-250 | the original placed map, likewise |
| VortekMap.Instrumented.ReserveDiagnostic | tools/build_vortek_guest.py:74-78 | a sequence number while fewer than 32 are out |
| VortekMap.Instrumented.MapMemory | tools/build_vortek_guest.py:155-212 | the instrumented classic map against the shared meaning plus its log line, every field of it |
| VortekMap.Instrumented.MapMemory2 | tools/build_vortek_guest.py:252-322 | the instrumented placed map, likewise |
| VortekMap.MapMeaning | tools/build_vortek_guest.py:155-322 | result, stored address, recorded mapping and closed descriptor of an instrumented call, from the reply and the kernel's answer alone |
| VortekMap.LogMeaning | tools/build_vortek_guest.py:69-116 | every field of a log line, and none after the thirty-second |
| VortekMap.CallsAgreeIffSettled | tools/build_vortek_guest.py:121-322 | the versions agree for every kernel answer and every uninitialised value exactly when the reply is settled |
| VortekMap.RunsAgree | tools/build_vortek_guest.py:121-322 | over any run they give the same results, addresses, stored pointers, closed descriptors, and sizes of mapped memory |
| VortekMap.MappingsStayPut | tools/build_vortek_guest.py:121-322 | in both versions a mapped memory keeps its address and size until it is unmapped |
| VortekMap.DiagnosticsAreCapped | tools/build_vortek_guest.py:71-78 | both entry points together log the first 32 replies, numbered without a gap |
| VortekMap.SizesPartIff | tools/build_vortek_guest.py:138-147 | recorded sizes part exactly after a failed mmap of another size |
| KotlinString.KotlinString | tools/generate_community_vulkan_drivers.py:37-67 | the printed literal lexes back to the value, for every string |
| KotlinString.LiteralIs | tools/generate_community_vulkan_drivers.py:43-67 | the rescan of the JSON encoding is an escape of each character by itself |
| KotlinString.JsonEscapeIs | tools/generate_community_vulkan_drivers.py:43-43 | how json.dumps writes each character, by section 7 of RFC 8259 |
| KotlinString.LiteralRoundTrip | tools/generate_community_vulkan_drivers.py:37-67 | the lexer stops at the literal's end whatever follows |
| KotlinString.BodyHasNoTerminator | tools/generate_community_vulkan_drivers.py:59-63 | no raw line terminator in the body |
| KotlinString.JsonIsKotlinIff | tools/generate_community_vulkan_drivers.py:38-43 | the JSON output is a Kotlin literal of the same value if and only if the value has no dollar sign, form feed or Unicode line separator |
| CodeHalf.CodeHalf | tools/check_e_only.py:700-749 | cuts at the first comment opener outside strings, as the reference automaton reads, or at an earlier leading star |
| CodeHalf.CutIsUnique | tools/check_e_only.py:700-749 | the place of the cut is determined by the line |
| CodeHalf.CutIsIdempotent | tools/check_e_only.py:700-749 | cutting twice cuts nothing more |
| CodeHalf.SpaceIs | tools/check_e_only.py:744-745 | the characters that count as white space before a star |
| FlavorIdentity.SeenPass | tools/check_flavor.py:707-717 | ids and client ids: one error for each that was seen before |
| FlavorIdentity.OwnerPass | tools/check_flavor.py:739-758 | a registry reports carriers minus distinct values, names true pairs, and is silent iff values are distinct |
| FlavorIdentity.PairPass | tools/check_flavor.py:886-902 | the nested loops report the sharing pairs in order |
| FlavorIdentity.PairsCount | tools/check_flavor.py:886-902 | the number of reports is the sum of k(k-1)/2 over multiplicities |
| FlavorIdentity.PairPassMeaning | tools/check_flavor.py:886-902 | the pass is silent iff values are distinct, as the registry is |
| FlavorIdentity.BothPasses | tools/check_flavor.py:720-902 | both passes over one field, with the exact number of errors |
| FlavorIdentity.LowerStrip | tools/check_flavor.py:859-862 | folding and trimming commute |
| FlavorIdentity.StripIs | tools/check_flavor.py:859-862 | trimming takes white space off both ends and leaves none there |
| FlavorIdentity.DatabaseNamesDistinctIff | tools/check_flavor.py:722-738 | database names are distinct iff no flavor names one twice and no two flavors share one |
| FlavorIdentity.FieldsDecide | tools/check_flavor.py:849-883 | the keys of the two passes decide exactly whether two flavors share an identity field |
| FlavorIdentity.SegmentPassesAgreeIff | tools/check_flavor.py:759-862 | on segments the pairwise pass is silent if and only if the registry is and no flavor holds a padded copy of another's |
| FlavorIdentity.TrimmedSegmentsAgree | tools/check_flavor.py:759-862 | the two passes use the same keys if and only if every segment is trimmed and not empty |
| FlavorIdentity.RegistryMissesPadding | tools/check_flavor.py:759-781 | a padded copy of a segment passes the registry and not the pairwise pass |
| FlavorIdentity.Validate | tools/check_flavor.py:673-902 | clean iff no two flavors share an id or an identity, each database name counting on its own |
| Provenance.DuplicateSourceIds | tools/common.py:75-96 | exactly the non-empty ids that occur more than once, each once, in order |
| Provenance.BindsToLegacyIff | tools/check_flavor.py:532-571 | a group binds to the legacy entry iff the flavor has none of its own and the legacy id is duplicated, whatever the URL |
| Provenance.ResolvesToOwn | tools/check_flavor.py:532-571 | without duplicates a group resolves to one of the flavor's own entries |
| Provenance.UrlDecides | tools/check_flavor.py:562-566 | among a flavor's own entries the first with the group's upstream URL is taken |
| Provenance.FallbackDecides | tools/check_flavor.py:567-571 | when none has it, the first entry of the first own id that has one is taken |
| Provenance.OwnIdsAreApart | tools/check_flavor.py:100-116 | no own id is shared between two groups or flavors |
| Provenance.LegacyIsVanilla | tools/check_flavor.py:100-116 | each legacy id is the vanilla flavor's own id for the same group |
| Provenance.CheckSourcePins | tools/check_flavor.py:574-627 | clean iff the flavor is known and every pinned commit is that of the entry its group resolves to |
| Provenance.CleanPinsAreOwn | tools/check_flavor.py:574-627 | a clean check means each pin equals the commit of one of the flavor's own entries |
| PeImage.RvaToOffset | tools/common.py:323-333 | the first section the address lies in decides, with its distance from the section's start; none if it lies in none |
| PeImage.InRawBytesIff | tools/common.py:325-332 | an address stays inside raw bytes exactly when its section has any |
| PeImage.Walk | tools/common.py:336-345 | finds the descriptors before the first all-zero one when the file holds such a table, and fails when it does not |
| PeImage.OneTable | tools/common.py:336-345 | a file holds at most one import table at a place |
| Sorting.SortedIsOrdered | tools/common.py:349-349 | the names are sorted and each is kept as often as it occurs |
| Sorting.LessEqIff | tools/common.py:349-349 | the order is the lexicographic one |
| PeImage.ReadHeader | tools/common.py:297-321 | the header fields, or an error exactly when there are none |
| PeImage.PeInfo | tools/common.py:287-350 | succeeds exactly on the images that describe themselves, with what they state |
| PeImage.OneDescription | tools/common.py:287-350 | an image states at most one set of facts |
| PeImage.NamesAreAscii | tools/common.py:343-344 | every name is ASCII text without NUL |
| PeWriter.WrittenIsDescribed | tools/common.py:287-350 | the parser inverts the writer: machine, subsystem and names, in PE32 and PE32+, whatever other sections come first |
| PeWriter.ParseWritten | tools/common.py:287-350 | so that is what it answers, sorted |
| ElfDynamic.ReadInterp | tools/check_wine_dtneeded.py:99-106 | the loop over program headers keeps the last interpreter |
| ElfDynamic.ReadNeeded | tools/check_wine_dtneeded.py:145-155 | the loop over dynamic entries, up to the null entry |
| ElfDynamic.LocateSections | tools/check_wine_dtneeded.py:125-136 | the last section of each name |
| ElfDynamic.ParseElfDynamic | tools/check_wine_dtneeded.py:73-157 | the whole parse, with the errors it catches and those it does not |
| ElfDynamic.SliceIs | tools/check_wine_dtneeded.py:106-106 | what the slices answer, with a negative end too |
| ElfDynamic.NothingElsewhere | tools/check_wine_dtneeded.py:83-89 | a file of another kind, or one that cannot be followed, has nothing |
| ElfDynamic.StaticFilesKeepInterp | tools/check_wine_dtneeded.py:108-138 | without a section table, or without dynamic entries or strings, the interpreter is kept |
| ElfDynamic.IndexErrorEscapesIff | tools/check_wine_dtneeded.py:120-123 | exactly which files raise an IndexError |
| ElfDynamic.OverflowEscapesIff | tools/check_wine_dtneeded.py:100-155 | exactly which files raise an OverflowError: a table or an entry reached past the signed range |
| ElfDynamic.NeededFailure | tools/check_wine_dtneeded.py:145-155 | the walk over the entries overflows exactly when it comes to one past the signed range |
| ElfWriter.UnnamedRaises | tools/check_wine_dtneeded.py:120-123 | a concrete file that raises an IndexError |
| ElfWriter.FarTablesRaise | tools/check_wine_dtneeded.py:100-120 | two concrete files that raise an OverflowError |
| ElfWriter.EntriesRead | tools/check_wine_dtneeded.py:145-155 | from any entry on, the libraries before the null entry are collected in order |
| ElfWriter.SegmentsRead | tools/check_wine_dtneeded.py:99-106 | from any program header on, the last interpreter is kept |
| ElfWriter.OthersArePassed | tools/check_wine_dtneeded.py:125-136 | sections without a name are passed over |
| ElfWriter.ParseWritten | tools/check_wine_dtneeded.py:73-157 | the parser inverts the writer: libraries before the null entry in order, and the last interpreter, among any other segments, sections and entries |

## Left out

- I/O, subprocesses, git, docker, toolchains, lockfiles, argument parsing and printing. `git checkout` is reinstating saved bytes.
- The literal anchor texts: they are arbitrary non-empty byte strings. A plan must keep its edited regions apart, each changed anchor's new text must be recognisable, and every anchor is in place, already overlaid or drifted. A text found in its CRLF form must have a multi-line replacement: `NewTextRoundTripIff` shows the others never come back.
- OverlayCleanup.CleanupIsCompleteIff: does not model a write torn by a killed process, because the source does not recover from one either; an unapplied path that cannot be read is drift only when its anchor is.
- The bots mirror, which the build edits and does not restore.
- DatabaseProbe.GateIsSoundIff: the probe fields change only through the probe's own methods; other callers of `SetDatabaseDelay` are not part of this model.
- SqlTransaction.HardenedIsAtomic: ROLLBACK is assumed to succeed, and a failing statement to leave the data as it was.
- AsyncQueue.OrderKeptIff: what becomes of the queue when the worker body is nulled is not in the sources, so the worker may get on with it at any time or never.
- AsyncQueue.Database.SafeDelayQueryHolder: the internals of the query holder and of the worker's own queue are not part of this model.
- ResultQueue.SqlResultQueue.Update: callbacks are identities; what they do beyond taking the connection lock is not modelled.
- VillageRing.CellKeyIsInjective: cells are integers after truncation; positions, terrain, random offsets and the placement of the ring are not modelled.
- VillageRing.RingBoundIff: villagers are the bots sent to the village from a cell; where they end up, and settlers deleted from the database, are not modelled.
- DrawPayload.FetchesAreCovered: the scan that finds the largest index is not in the sources; its answer is an input (`last`) that bounds the fetched vertices, and client memory is a total function of addresses. Vertex ranges beyond a signed 32-bit `int` are excluded as undefined in C.
- TexImageSpan.SpanIsExactIff: the size of one pixel is an input; the build never writes this function into the client's sources.
- VortekMap.RunsAgree: the guest's receive helper and send macro are taken to be the in-tree ones (native/xserver-winlator/cpp/include/socket_utils.h:47-81 and native/xserver-winlator/cpp/vortekrenderer-winlator-2.1/include/vortek.h:45-53). `vkUnmapMemory` is a step that clears the mapped address. Replies with several descriptors are counted without storing more than the first.
- KotlinString.KotlinString: the value is a sequence of code points without the surrogate-pair view of the JVM.
- CodeHalf.CodeHalf: white space is that of one-character strings in Python.
- FlavorIdentity.Validate: fields are well typed, folding is for ASCII letters, a sorted tuple of names is the multiset it sorts, and the other checks of the manifest are not modelled.
- Provenance.CheckSourcePins: reading the sources file and the shape checks before it are not modelled.
- PeImage.PeInfo: which of several errors is reported is not specified beyond the missing MZ header.
- ElfDynamic.OverflowEscapesIff: the file is at least 64 KiB shorter than the largest signed size, as one held in memory is.
- ElfDynamic.ParseElfDynamic: names are bytes; replacing undecodable ones is not modelled.
- PeWriter.WrittenIsDescribed: the writer lays an image out in one order, with the import table first in its section.
- ElfWriter.ParseWritten: the writer lays a file out in one order, and the sections of no interest have no name.
- Regular-expression parsers, digest checks, path gates and naming tables.
