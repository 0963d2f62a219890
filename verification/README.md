# Verified model of atradio's protocols

atradio plays internet radio and keeps its users' favorites, stations and plays on the AT Protocol. This project
models the parts of it that are protocols, incremental parsers or replicated state, and proves what they promise.

**Media proxy: stream de-framing.** `ChunkedDecoding` is the incremental decoder for chunked bodies (section 7.1 of
RFC 9112), `ChunkedEncoding` its grammar and the round trip, `ChunkedPrinting` a printer of bodies that knows
nothing of the decoder, `UpstreamBody` the head/body split and the body stream. `IcyBlocks` lays out ICY metadata
blocks, `IcyTitleScan` is the proxy's buffered title reader, `IcyCounter` the dev server's byte-counting one, and
`MediaPipeline` joins head, chunks and blocks. `RateLimit` is the proxy's fixed-window limiter. Both title readers
are proved against one definition (`FirstBlock`) of the block that is in the stream, and the decoder against the
printer.

**Connect hub.** `ConnectAccount` says what each step does to one account on one instance; `ConnectRegistry` and
`ConnectHub` are the instance itself, with its nested Maps, whose methods are proved to be those steps.
`ConnectTelling` says frame by frame what a step sends. `ConnectCluster` composes them over several instances with
one relayed event at a time, and `ConnectDeployment` shows that hub objects handling and relaying an event or a
command are exactly such a cluster step. `ConnectNet` lets client events, commands, heartbeats, crashes and
deliveries overlap in any order; on it, `ConnectOverlap` proves that the views converge, `ConnectCleanups` counts
cleanup frames over any run whatever, `ConnectReports` shows that no cleanup is lost while only states change, and
`ConnectCommands` counts command frames. `ConnectOverlapCleanup` and `ConnectOverlapCommand` hold the inputs on
which overlap costs something. `ConnectHeartbeat` recovers from views that diverged. Frames handed to sockets and
messages published are kept as multisets, and `ConnectFrames` counts them over all instances, so "sent exactly
once" can be stated. `TextOrder` is the order of device ids and record keys; `Bytes` and `Basics` hold what several
modules share.

**Index and history.** `RedundantFeeds` is about several copies of one log in any interleaving; `JetstreamIndex` is
the consumer over its keyed tables; `RecentlyPlayed` is the grouped keyset pagination; `Dedup` the bounded table of
first deliveries.

**Clients.** `GrpcMirror` is the optimistic mirror of the terminal client, `Favorites` the reconcile of one
station's favorites over a paginated repository, and `FavoriteRuns` any interleaving of such reconciles.

Where the code is not as exact as one could wish, the exact condition is stated:

- the title is found if and only if its block is complete and fewer than the cap's bytes had been seen when it
  completed (`LiveTitleEndToEnd`), and the two title readers agree if and only if no segment completes a block while
  reaching the cap (`ReadersAgreeExactly`);
- the dedup table forgets if and only if live keys outnumber it (`ClaimAgreesExactly`);
- redundant feeds are harmless to reactions if and only if, under every uri, the reactions stored after the log's
  last deletion are all the same row or nothing is deleted (`ReactionsAgreeExactly`; `ReactionsCanDiverge` is an input);
- an account's cleanup is asked for exactly once along a run if and only if exactly one action passes the guard of
  `reconcilePresence`, or of the greeting, in its own instance's view (`OneCleanupExactly`). An event
  relayed before the next asks exactly when the account as a whole falls silent, or arrives alone and silent
  (`OneCleanup`); overlapping reports never lose a cleanup (`ReportsNeverLoseCleanup`);
  overlapping departures and arrivals can lose it or ask twice (`OverlapLosesCleanup`, `OverlapRepeatsCleanup`);
- a relayed command becomes one frame for every other instance that hosts its target when handed it (`OneCommand`):
  exactly one if the target stays where it is (`SteadyTargetIsFramedOnce`), two on the run of
  `MovingTargetIsFramedTwice`;
- a client that has put a favorite leaves it as the station's only one if and only if some request deleted each stray
  (`OnlyCanonicalExactly`; `FailedDeletionLeavesStray` is an input);
- an edit whose command is outstanding is still in the mirror if and only if no snapshot between edit and count found
  nothing pending (`EditKeptExactly`; `EditBeforeSendCanBeDropped` is an input).

Two notes on documentation. The comment above `cleanupOwner` says exactly one instance acts; the conditions above say
when. The repository's README calls duplicate events across hosts harmless; this holds for favorites, stations,
comments and plays, and for reactions exactly under the condition above.

## Model

| member | source | states |
|---|---|---|
| ChunkedDecoding.ChunkedDecoder.constructor | apps/media-proxy-ts/src/upstream.ts:220-224 | a new decoder waits for a size line with an empty buffer |
| ChunkedDecoding.ChunkedDecoder.Push | apps/media-proxy-ts/src/upstream.ts:226-262 | the loop's new fields and emitted buffers are those of the reference decoder on the bytes fed; no emitted buffer is empty, none is emitted once done |
| ChunkedDecoding.Turn | apps/media-proxy-ts/src/upstream.ts:229-260 | one turn keeps the state well formed and consumes at least one byte, malformed sizes included |
| ChunkedDecoding.Drain | apps/media-proxy-ts/src/upstream.ts:229-260 | the loop ends, in a state where it can only wait |
| ChunkedDecoding.DrainResumes | apps/media-proxy-ts/src/upstream.ts:226-262 | bytes arriving after the loop blocked continue it as if they had been there from the start |
| ChunkedDecoding.ReceiveCut | apps/media-proxy-ts/src/upstream.ts:226-262 | pushing a then b equals pushing a + b: same payload, same buffer, state, remaining and done, for all bytes |
| ChunkedDecoding.CutIndependence | apps/media-proxy-ts/src/upstream.ts:226-262 | the same for any list of segments |
| ChunkedDecoding.DoneIsFinal | apps/media-proxy-ts/src/upstream.ts:215-219 | after done nothing is released; later bytes are only kept |
| ChunkedDecoding.PayloadGrows | apps/media-proxy-ts/src/upstream.ts:226-262 | what was released is a prefix of all that ever will be |
| ChunkedEncoding.LineSizeReads | apps/media-proxy-ts/src/upstream.ts:233-235 | any hexadecimal digits, with any extensions and blanks before them, are read as their value |
| ChunkedEncoding.SizeTurn | apps/media-proxy-ts/src/upstream.ts:230-247 | a size line that arrived whole starts its data run, a zero size ends the body |
| ChunkedEncoding.ChunkDecodes | apps/media-proxy-ts/src/upstream.ts:230-260 | a printed chunk decodes to its data and leaves the decoder at the next size line |
| ChunkedEncoding.RoundTrip | apps/media-proxy-ts/src/upstream.ts:214-263 | decoding any printed body gives exactly the concatenated data; the trailer never leaves |
| ChunkedEncoding.RoundTripCut | apps/media-proxy-ts/src/upstream.ts:214-263 | the same however the body is cut into segments |
| ChunkedEncoding.PrefixOfBody | apps/media-proxy-ts/src/upstream.ts:214-263 | on every prefix of a body only data has left, and done holds exactly from the end of the zero-size line on |
| ChunkedPrinting.PrintedSizeReads | apps/media-proxy-ts/src/upstream.ts:233-235 | a size below 2^53 printed by division by sixteen, in any case, with leading zeros, blanks around it, extensions, a sign or an `0x`, is read back as that size |
| ChunkedPrinting.JunkIsIgnored | apps/media-proxy-ts/src/upstream.ts:235 | what follows the digits of a size is ignored |
| ChunkedPrinting.MalformedSizeEnds | apps/media-proxy-ts/src/upstream.ts:236-241 | a line that starts no number ends the body |
| ChunkedPrinting.PrintedRoundTrip | apps/media-proxy-ts/src/upstream.ts:214-263 | a body whose chunks carry such printed sizes, cut in any way, decodes to exactly its data, and the decoder ends done with the trailer kept |
| UpstreamBody.HeadReader.OnData | apps/media-proxy-ts/src/upstream.ts:110-123 | after each segment the head is split, refused or awaited as all bytes so far decide |
| UpstreamBody.HeadSplitIsCutIndependent | apps/media-proxy-ts/src/upstream.ts:110-123 | however cut, the split is at the first blank line of the whole stream and loses no byte |
| UpstreamBody.HeadTooLargeExactly | apps/media-proxy-ts/src/upstream.ts:113-117 | the head is refused exactly when at some cut it is unfinished past 64 KiB |
| UpstreamBody.HeadTooLargeInBytes | apps/media-proxy-ts/src/upstream.ts:110-117 | in plain numbers: exactly when at some cut more than 65536 bytes have come without a blank line |
| UpstreamBody.BodyStream.constructor | apps/media-proxy-ts/src/upstream.ts:175-188 | the stream starts with the decoding of the leftover |
| UpstreamBody.BodyStream.Enqueue | apps/media-proxy-ts/src/upstream.ts:180-187 | enqueueing is only ever attempted while the stream is open |
| UpstreamBody.BodyStream.Emit | apps/media-proxy-ts/src/upstream.ts:180-193 | the queue stays exactly the decoding of every byte received; once closed nothing is enqueued |
| UpstreamBody.BodyStream.End | apps/media-proxy-ts/src/upstream.ts:194-195 | the end of the socket closes the stream with the queue complete |
| IcyBlocks.FirstBlockOfPrefix | apps/media-proxy-ts/src/icy.ts:64-79 | the first non-empty block is complete in a prefix exactly when the prefix reaches its end, and is the same block |
| IcyBlocks.ResidueResumes | apps/media-proxy-ts/src/icy.ts:64-79 | dropping empty blocks early does not change what later bytes yield |
| IcyBlocks.ResidueIsShort | apps/media-proxy-ts/src/icy.ts:68-77 | while no block is complete fewer than metaint + 4081 bytes are kept |
| IcyBlocks.IcyStreamReads | apps/media-proxy-ts/src/icy.ts:4-7 | in a stream of audio runs and blocks, the first non-empty block is read back, and where it ends |
| IcyBlocks.EarlyBlockBeatsCap | apps/media-proxy-ts/src/icy.ts:30 | a block in first or second place ends at least 14 bytes before the cap |
| IcyTitleScan.TitleScan.constructor | apps/media-proxy-ts/src/icy.ts:38-96 | the leftover alone is judged as if it were the first segment |
| IcyTitleScan.TitleScan.TryParse | apps/media-proxy-ts/src/icy.ts:64-80 | the walk over the buffer reaches the verdict of reading the whole stream from scratch |
| IcyTitleScan.TitleScan.OnData | apps/media-proxy-ts/src/icy.ts:82-88 | each segment moves the verdict as the reference does; while waiting the buffer stays below metaint + 4081 bytes |
| IcyTitleScan.TitleScan.OnErr | apps/media-proxy-ts/src/icy.ts:61-62 | an error, close or timeout gives up |
| IcyTitleScan.DecidedStays | apps/media-proxy-ts/src/icy.ts:51-59 | a finished reader never changes its answer |
| IcyTitleScan.FoundExactly | apps/media-proxy-ts/src/icy.ts:64-88 | the block is found if and only if the bytes seen as it completes are below the cap, for every segmentation |
| IcyTitleScan.NotFoundExactly | apps/media-proxy-ts/src/icy.ts:64-88 | without a complete block the reader waits below the cap and gives up from it on |
| IcyCounter.ReadIcyTitle | apps/web/vite.config.ts:68-110 | for any whole interval, negative ones included, the dev server's reader returns the first complete block reached while the total before each read is below the cap |
| IcyCounter.ReadSegment | apps/web/vite.config.ts:81-108 | after each segment the three counters and the metadata buffer describe exactly where the stream stands |
| IcyCounter.TakeMeta | apps/web/vite.config.ts:97-106 | collecting metadata either leaves the counters right or completes the first block |
| IcyCounter.ReadersAgreeExactly | apps/web/vite.config.ts:68-110 | the two readers give the same answer exactly when no segment completes the block while reaching the cap; then only this one finds it |
| IcyCounter.NoOvershootBelowCap | apps/web/vite.config.ts:69-77 | they agree on every segmentation that stays below the cap |
| MediaPipeline.ScanTitle | apps/media-proxy-ts/src/icy.ts:38-97 | the reader object, fed a body's raw segments until it finishes, reaches the verdict the theorems below are about |
| MediaPipeline.ScanIsExact | apps/media-proxy-ts/src/icy.ts:38-97 | found if and only if the stream holds a block and fewer than the cap's bytes were seen when it completed; then it is that block |
| MediaPipeline.LiveTitleEndToEnd | apps/media-proxy-ts/src/icy.ts:38-97 | for any audio, any blocks, any chunk encoding, any prefix of it arrived and any cut: found, exactly the first non-empty block, if and only if it is complete and fewer than 2 * metaint + 4096 bytes had been seen when it completed; else waiting below the cap and given up from it on |
| MediaPipeline.ChunkedTitleEndToEnd | apps/media-proxy-ts/src/icy.ts:38-97 | in particular once the whole body has arrived: found or given up |
| MediaPipeline.PrintedTitleEndToEnd | apps/media-proxy-ts/src/icy.ts:38-97 | the same for a broadcast in chunks with printed sizes |
| MediaPipeline.TitleFound | apps/media-proxy-ts/src/icy.ts:38-97 | the same for decoded payloads, complete or not |
| MediaPipeline.EarlyTitleIsFound | apps/media-proxy-ts/src/icy.ts:4-7 | a title in the first or second block is found whenever the payload completing it runs fewer than 14 bytes past it |
| MediaPipeline.HeadThenBody | apps/media-proxy-ts/src/upstream.ts:110-143 | a response cut anywhere yields its head and, through the leftover, exactly its decoded body |
| RateLimit.RateLimiter.Check | apps/media-proxy-ts/src/ratelimit.ts:28-36 | the window's counter goes up by one, no other changes; the answer is what is left of the limit, or the fewest whole seconds that end past the window |
| RateLimit.RateLimiter.Sweep | apps/media-proxy-ts/src/ratelimit.ts:39-45 | exactly the entries whose window ended before the current second go |
| RateLimit.SlotRoundTrip | apps/media-proxy-ts/src/ratelimit.ts:31-42 | printing a slot and parsing it at the last colon undo each other, whatever the key contains |
| RateLimit.SlotInjective | apps/media-proxy-ts/src/ratelimit.ts:31 | different keys or windows never share a slot |
| RateLimit.WindowEndIsAhead | apps/media-proxy-ts/src/ratelimit.ts:29-35 | a window ends after now and within its length, so a retry delay is at least one second and at most the window |
| RateLimit.WindowInMs | apps/media-proxy-ts/src/ratelimit.ts:29-30 | on the millisecond clock the window contains the request and is `window` seconds long |
| RateLimit.SharedWindow | apps/media-proxy-ts/src/ratelimit.ts:29-30 | requests a window's length apart never share a window |
| RateLimit.SweepsChangeNothing | apps/media-proxy-ts/src/ratelimit.ts:28-45 | over any run with sweeps anywhere, each decision is that of counting all earlier requests of the same key and window |
| RateLimit.WindowIsExact | apps/media-proxy-ts/src/ratelimit.ts:28-36 | in each window a key is allowed exactly its first limit requests |
| RateLimit.DecidedInMs | apps/media-proxy-ts/src/ratelimit.ts:28-45 | over any run each request is decided by the earlier requests of its key in its window, counted on the millisecond clock: how many are left, or how long to wait |
| RateLimit.AloneIsAllowed | apps/media-proxy-ts/src/ratelimit.ts:28-36 | a key that kept away for a window's length is allowed, one request used |
| RateLimit.IntervalIsTwoWindows | apps/media-proxy-ts/src/ratelimit.ts:29-30 | an interval one window long draws on at most two windows |
| RateLimit.RateBound | apps/media-proxy-ts/src/ratelimit.ts:28-45 | over any run a key gets min(limit, requests) per window and at most twice the limit in any interval one window long |
| ConnectAccount.RefreshSettles | apps/api/src/connect/hub.ts:173-185 | broadcasting and reconciling make the remembered flag agree with the merged roster and leave the registries alone |
| ConnectAccount.GreetSettles | apps/api/src/connect/hub.ts:286-304 | so does the greeting of a new device |
| ConnectAccount.CleanupExactly | apps/api/src/connect/hub.ts:161-185 | a step asks for cleanup exactly when it moved the account from playing to silent and the lowest id of the roster is local; that device, once, nobody else |
| ConnectAccount.GreetCleanups | apps/api/src/connect/hub.ts:286-304 | a hello asks for cleanup exactly when the newcomer is alone and silent |
| ConnectAccount.CleanupTargetIsUnique | apps/api/src/connect/hub.ts:161-166 | a step never asks two devices of one instance |
| ConnectTelling.ReconcileTells | apps/api/src/connect/hub.ts:173-185 | every summary says whether some device of the merged roster plays, and reaches each device connected here once; besides cleanups nothing else is sent |
| ConnectTelling.BroadcastTells | apps/api/src/connect/hub.ts:145-153 | every roster shows exactly the devices connected here as they are and the others as last heard, and reaches each device connected here once |
| ConnectTelling.RefreshTells | apps/api/src/connect/hub.ts:145-185 | a refreshing step sends exactly those rosters and summaries, cleanups apart, and no other frame |
| ConnectTelling.GreetTells | apps/api/src/connect/hub.ts:286-304 | a greeting sends a welcome and a true summary to the newcomer, a roster to everyone here, and no other frame but a cleanup |
| ConnectTelling.HearTells | apps/api/src/connect/hub.ts:327-350 | a relayed device or a departure that was known sends them; an echo or an unknown departure changes nothing |
| ConnectTelling.PruneTells | apps/api/src/connect/hub.ts:309-325 | pruning sends them exactly when some device is unheard of for more than 90 s |
| TextOrder.LowestOf | apps/api/src/connect/hub.ts:164 | the reduce finds the one lowest id |
| TextOrder.LessIsLexicographic | apps/api/src/connect/hub.ts:164 | ids are compared by their first different code unit, and a proper prefix comes first |
| ConnectRegistry.DropStale | apps/api/src/connect/hub.ts:314-319 | the deletion loop leaves exactly the entries heard since the cutoff, and says whether any went |
| ConnectRegistry.Merge | apps/api/src/connect/hub.ts:133-138 | a local device wins over a stale remote copy |
| ConnectRegistry.ProgressStep | apps/api/src/connect/hub.ts:309-325 | a visit of the live iteration reduces the stale accounts or moves on, and re-inserts an emptied account behind the iterator at most once |
| ConnectHub.Hub.constructor | apps/api/src/connect/hub.ts:82-95 | an instance starts with empty registries and nothing sent |
| ConnectHub.Hub.RosterOf | apps/api/src/connect/hub.ts:133-138 | the merged roster; looking it up inserts an empty remote entry when there was none |
| ConnectHub.Hub.AnyPlayingNow | apps/api/src/connect/hub.ts:140-142 | whether some device of the merged roster plays |
| ConnectHub.Hub.BroadcastRoster | apps/api/src/connect/hub.ts:145-153 | every device connected here gets one roster, which shows exactly the account; nothing else changes |
| ConnectHub.Hub.CleanupOwner | apps/api/src/connect/hub.ts:161-166 | the lowest id of the merged roster if connected here, nothing exactly when it is elsewhere or there is none |
| ConnectHub.Hub.AskOwner | apps/api/src/connect/hub.ts:177-180 | an account that fell silent gets exactly the specified cleanup frame, if its lowest device is here, and nothing else changes |
| ConnectHub.Hub.ReconcilePresence | apps/api/src/connect/hub.ts:173-185 | the flag is updated, each device here gets one summary that says whether the account plays, cleanups are exactly the specified ones, other accounts are untouched |
| ConnectHub.Hub.HandleState | apps/api/src/connect/hub.ts:217-222 | a report changes that device, tells everyone here and publishes the device; the presence ledger holds for every account after |
| ConnectHub.Hub.DeliverCommandTo | apps/api/src/connect/hub.ts:203-213 | a command lands exactly when its target is connected here, as one frame to it |
| ConnectHub.Hub.HandleCommand | apps/api/src/connect/hub.ts:224-240 | no self-command; delivered here or else published, never both, never outside the sender's account |
| ConnectHub.Hub.RemoveConn | apps/api/src/connect/hub.ts:242-255 | closing the registered socket removes its device, tells everyone here and publishes a leave; closing a replaced socket changes nothing |
| ConnectHub.Hub.OnHello | apps/api/src/connect/hub.ts:257-305 | a verified hello registers the device, replaces a prior connection of the same id, greets and publishes; the ledger holds after |
| ConnectHub.Hub.OnRelay | apps/api/src/connect/hub.ts:327-350 | a relayed message acts on its account only and tells everyone here, echoes are ignored, and nothing is published |
| ConnectHub.Hub.PruneRemote | apps/api/src/connect/hub.ts:309-325 | exactly the stale devices go; an emptied account leaves the Map and re-enters it at the end, empty, when a roster is read |
| ConnectHub.Hub.AnnounceAll | apps/api/src/connect/hub.ts:353-358 | each local device is announced exactly once, as it is, and nothing else is published |
| ConnectHub.Hub.HeartbeatRemotePresence | apps/api/src/connect/hub.ts:353-360 | the live iteration ends although accounts re-enter, visits no account more than twice, and prunes every account exactly |
| ConnectCluster.MirrorSeesWorld | apps/api/src/connect/hub.ts:133-142 | an instance that mirrors the others sees every hosted device, and plays exactly if the account does |
| ConnectCluster.OneCleanup | apps/api/src/connect/hub.ts:155-185 | from synchronised views an event relayed to every instance leaves them synchronised, and over all instances exactly the due cleanup frame is sent, once |
| ConnectCluster.DueIsUnique | apps/api/src/connect/hub.ts:161-166 | at most one frame, at one instance, is due |
| ConnectCluster.DueExists | apps/api/src/connect/hub.ts:161-185 | one is due exactly when the account fell silent with a device left, or a lone silent device arrived |
| ConnectCluster.CleanupsOfRun | apps/api/src/connect/hub.ts:155-185 | along any run of relayed events every cleanup frame is sent exactly as often as it was due |
| ConnectCluster.OneCommandFrame | apps/api/src/connect/hub.ts:203-240 | relayed before anything else happens, a command changes exactly its target's instance, by that one frame |
| ConnectDeployment.Relay | apps/api/src/connect/hub.ts:375-382 | handing a message to every hub object gives each the specified view, leaves other accounts alone and publishes nothing |
| ConnectDeployment.HandOver | apps/api/src/connect/hub.ts:327-350 | a hub object handed everything that waits for it, of all accounts, reaches the specified views and publishes nothing |
| ConnectDeployment.Drain | apps/api/src/connect/hub.ts:327-350 | once every inbox is handed over no hub has published anything, so the relay is quiet |
| ConnectDeployment.ReportEverywhere | apps/api/src/connect/hub.ts:217-222 | hub objects handling and relaying a report perform exactly the cluster's event step; other accounts are untouched everywhere |
| ConnectDeployment.DepartEverywhere | apps/api/src/connect/hub.ts:242-255 | the same for a closed socket |
| ConnectDeployment.ArriveEverywhere | apps/api/src/connect/hub.ts:257-305 | the same for a device new to the account |
| ConnectDeployment.CommandEverywhere | apps/api/src/connect/hub.ts:224-240 | hub objects handling a command, and relaying it when its target is not connected, perform exactly the cluster's command step; other accounts are untouched |
| ConnectNet.HostsAfter | apps/api/src/connect/hub.ts:217-305 | an event changes only its own device, at its host, and keeps every device hosted at most once |
| ConnectNet.LocalsKept | apps/api/src/connect/hub.ts:203-360 | commands, heartbeats and deliveries change nobody's connections |
| ConnectNet.ActHostedOnce | apps/api/src/connect/hub.ts:217-360 | every action keeps every device hosted at most once |
| ConnectOverlap.HearLearns | apps/api/src/connect/hub.ts:327-350 | hearing a message records exactly what it says, whatever was known |
| ConnectOverlap.ActedLearns | apps/api/src/connect/hub.ts:203-360 | of all actions but events only a delivery teaches an instance anything |
| ConnectOverlap.EventDescribed | apps/api/src/connect/hub.ts:217-305 | an instance whose waiting messages would tell it the truth is still so placed after any event anywhere |
| ConnectOverlap.RunConverges | apps/api/src/connect/hub.ts:203-360 | in any interleaving of events, commands, timely heartbeats and in-order deliveries, every view completed by its waiting messages is the true one |
| ConnectOverlap.OverlapConverges | apps/api/src/connect/hub.ts:203-360 | once no message waits, all views are synchronised again, however everything overlapped |
| ConnectCleanups.ActedCleanup | apps/api/src/connect/hub.ts:173-185 | any action, crash or pruning included, sends a cleanup frame exactly when its instance's own view falls silent and the frame is to the lowest device there, which it hosts, or when it greets a lone silent arrival |
| ConnectCleanups.AskIsUnique | apps/api/src/connect/hub.ts:161-185 | no action asks two devices |
| ConnectCleanups.CleanupsOfAnyRun | apps/api/src/connect/hub.ts:173-360 | along any run whatever, each instance sends each cleanup frame exactly as often as it passes that guard for it |
| ConnectCleanups.TotalCleanupsOfAnyRun | apps/api/src/connect/hub.ts:173-360 | over all instances, a run sends as many cleanups as its actions pass the guard |
| ConnectCleanups.OneCleanupExactly | apps/api/src/connect/hub.ts:155-185 | exactly one cleanup over the cluster if and only if exactly one action passes the guard |
| ConnectReports.OwnerAsks | apps/api/src/connect/hub.ts:161-185 | while no device comes or goes, only the lowest device's instance passes the guard, and does whenever its view falls |
| ConnectReports.OwnerAsksAlways | apps/api/src/connect/hub.ts:161-185 | along such runs the guard is passed exactly as often as that view falls silent |
| ConnectReports.ReportsNeverLoseCleanup | apps/api/src/connect/hub.ts:155-185 | when only states change, however reports, commands, heartbeats and deliveries overlap, every cleanup goes to the lowest device, as often as its instance's view fell; from playing to silent, at rest, at least one was sent |
| ConnectOverlapCleanup.OverlapLosesCleanup | apps/api/src/connect/hub.ts:155-185 | an input, from synchronised views, on which no action passes the guard although the account falls silent and a device is left |
| ConnectOverlapCleanup.OverlapRepeatsCleanup | apps/api/src/connect/hub.ts:155-185 | an input on which two actions pass it, and two devices are asked |
| ConnectCommands.ActedFrames | apps/api/src/connect/hub.ts:203-240 | an action sends a command frame exactly when it hands a command to a target connected at its instance, its own relayed commands excepted |
| ConnectCommands.FramesOfAnyRun | apps/api/src/connect/hub.ts:203-350 | along any run the command frames over all instances grow by exactly those landings |
| ConnectCommands.LandedIsFramers | apps/api/src/connect/hub.ts:327-333 | while one command is on its way, its landings are exactly the instances that host the target when handed it |
| ConnectCommands.OneCommand | apps/api/src/connect/hub.ts:203-240 | over all instances and any interleaving a command becomes no frame if it is to its sender, one if its target is connected where it was issued, else one for every other instance hosting the target when handed it |
| ConnectCommands.SteadyTargetIsFramedOnce | apps/api/src/connect/hub.ts:203-240 | exactly one frame if the target stays with its host until handed the command |
| ConnectCommands.RelayedCommandIsCounted | apps/api/src/connect/hub.ts:203-240 | relayed before anything else happens, exactly one frame over the cluster, or none if the target is the sender or nowhere |
| ConnectOverlapCommand.MovingTargetIsFramedTwice | apps/api/src/connect/hub.ts:327-333 | an input, with every device hosted at most once throughout, on which one command becomes two frames |
| ConnectHeartbeat.RoundConverges | apps/api/src/connect/hub.ts:309-360 | every heartbeat and delivery of a round keeps: each beaten instance's devices are known or on their way everywhere |
| ConnectHeartbeat.AntiEntropy | apps/api/src/connect/hub.ts:309-360 | from any views with no old message in flight, one heartbeat everywhere plus delivery, in any order within the TTL, makes every roster show every live device with its current state |
| ConnectHeartbeat.RunTruthful | apps/api/src/connect/hub.ts:309-350 | from one TTL on, pruning leaves only what was heard since, and what was heard since is so |
| ConnectHeartbeat.SyncedAfterTtl | apps/api/src/connect/hub.ts:309-360 | from any views, one round of heartbeats and deliveries later than one TTL after anything stale was heard leaves the whole cluster synchronised, departed and moved copies gone |
| ConnectHeartbeat.DeliveriesDrain | apps/api/src/connect/hub.ts:327-350 | since a delivery publishes nothing (`Drain` on the hub objects), each one takes a message out of the air |
| ConnectHeartbeat.SilentDeviceExpires | apps/api/src/connect/hub.ts:309-325 | a silent remote device survives a tick exactly when the tick is within the TTL of when it was last heard |
| ConnectHeartbeat.GoneBy120Seconds | apps/api/src/connect/hub.ts:33-35 | with 30 s ticks it survives 90 s and is gone by 120 s |
| RedundantFeeds.LastWriterAgrees | README.md:145-148 | any interleaving of in-order copies of a log of upserts and deletes leaves under a key what one copy leaves |
| RedundantFeeds.FirstWriterAgrees | README.md:145-148 | the same for inserts that ignore conflicts and are never deleted |
| RedundantFeeds.SteadyAgrees | README.md:145-148 | the same for inserts and deletes when the inserts after the last delete carry one row |
| RedundantFeeds.InsertsAgreeExactly | README.md:145-148 | and only then, for any two or more copies |
| JetstreamIndex.Consumer.HandleEvent | apps/api/src/jetstream/consumer.ts:453-463 | the cursor becomes the highest time seen and the tables become the specified ones |
| JetstreamIndex.Consumer.ProcessCommit | apps/api/src/jetstream/consumer.ts:401-429 | deletes, upserts, history inserts and ignored collections act on exactly their table |
| JetstreamIndex.Consumer.IndexFavorite | apps/api/src/jetstream/consumer.ts:141-168 | an invalid record changes nothing; else the uri's row keeps its did and rkey, or is new with the event's, and takes the record's fields, and every other row is as it was |
| JetstreamIndex.Consumer.IndexStation | apps/api/src/jetstream/consumer.ts:171-207 | the same for stations |
| JetstreamIndex.Consumer.IndexPlay | apps/api/src/jetstream/consumer.ts:212-227 | a play already there at that actor and time stays as it was, a missing one is added, every other is as it was |
| JetstreamIndex.Consumer.IndexComment | apps/api/src/jetstream/consumer.ts:311-343 | as for favorites, on comments |
| JetstreamIndex.Consumer.IndexReaction | apps/api/src/jetstream/consumer.ts:373-389 | a reaction already there under that uri stays as it was, a missing one is added, every other is as it was |
| JetstreamIndex.AtUriInjective | apps/api/src/jetstream/consumer.ts:48-50 | a uri determines its did and record key |
| JetstreamIndex.UrisAre | apps/api/src/jetstream/consumer.ts:48-50 | the uris of the five collections in full |
| JetstreamIndex.RowsByKey | apps/api/src/jetstream/consumer.ts:401-429 | a commit acts on every key on its own, as a set, a clear or nothing, although conflicting upserts keep did and rkey |
| JetstreamIndex.PlaysByKey | apps/api/src/jetstream/consumer.ts:212-227 | the history insert acts on every (did, playedAt) on its own |
| JetstreamIndex.LastWordStands | apps/api/src/jetstream/consumer.ts:401-429 | favorites, stations and comments hold exactly what the log's last readable word on each uri was; a deletion leaves nothing, an unreadable record changes nothing |
| JetstreamIndex.FirstPlayStands | apps/api/src/jetstream/consumer.ts:212-227 | the history holds exactly the first report for each actor and time |
| JetstreamIndex.FirstReactionStands | apps/api/src/jetstream/consumer.ts:373-389 | reactions hold exactly the first one stored under each uri since its last deletion |
| JetstreamIndex.RedundantFeedsAreHarmless | apps/api/src/jetstream/consumer.ts:401-429 | any interleaving of k full in-order copies of a commit log leaves favorites, stations, comments and plays as one copy does, deletes and invalid records included |
| JetstreamIndex.ReactionsByKey | apps/api/src/jetstream/consumer.ts:373-428 | a commit acts on every reaction uri on its own, as an insert that ignores conflicts, a delete or nothing |
| JetstreamIndex.ReactionsAgreeExactly | apps/api/src/jetstream/consumer.ts:373-428 | every interleaving of two or more copies leaves the reactions one copy leaves, if and only if under every uri the inserts after the log's last deletion carry one row or nothing is deleted |
| JetstreamIndex.ReactionsCanDiverge | apps/api/src/jetstream/consumer.ts:373-389 | an input that fails it: a log and an interleaving of two copies that leave different reactions |
| RecentlyPlayed.ClampLimit | apps/api/src/xrpc/index.ts:28-31 | a limit from 1 to 100 is kept, a larger one is 100, a negative one 1, and zero or no number is the fallback |
| RecentlyPlayed.CursorAdvances | apps/api/src/xrpc/index.ts:252-275 | a page is the next part of the ranking below the cursor; its cursor leaves strictly fewer groups, and exactly the rest |
| RecentlyPlayed.FollowIsRanking | apps/api/src/xrpc/index.ts:240-277 | following cursors from anywhere ends and collects exactly the ranking below |
| RecentlyPlayed.LatestOf | apps/api/src/db/schema.ts:87 | with the primary key (did, playedAt) each station has exactly one latest play among the group maxima |
| RecentlyPlayed.PaginationIsExact | apps/api/src/xrpc/index.ts:249-275 | for any limits the pages list every station the actor played exactly once, as in its latest play, latest first, and nothing else |
| Dedup.Deduper.ClaimFirstDelivery | apps/api/src/discord/firehose.ts:50-68 | a refused claim changes nothing; a granted one is kept for 300000 ms, new keys at the end and known ones in place, and past 20000 keys as specified |
| Dedup.Deduper.DropExpired | apps/api/src/discord/firehose.ts:57-59 | pruning keeps exactly what has not expired, in order |
| Dedup.ClaimBounds | apps/api/src/discord/firehose.ts:50-68 | on every trace at most DEDUP_MAX keys are kept, and a key just claimed is still there with its expiry |
| Dedup.EvictKeepsYoungest | apps/api/src/discord/firehose.ts:60-65 | eviction takes the keys inserted first |
| Dedup.ClaimAgreesExactly | apps/api/src/discord/firehose.ts:50-68 | a claim is answered as by an unbounded TTL map, and table and map go on agreeing if and only if live keys number at most DEDUP_MAX |
| Dedup.RefinesUnbounded | apps/api/src/discord/firehose.ts:50-68 | on every such trace with a clock that never goes back all answers are those of the unbounded map |
| Dedup.RefusedWithinFiveMinutes | apps/api/src/discord/firehose.ts:50-68 | in plain numbers: with at most 20000 keys granted in five minutes, a claim is refused exactly when its key was granted less than 300000 ms before |
| Dedup.OverflowForgets | apps/api/src/discord/firehose.ts:60-65 | past DEDUP_MAX live keys some live key can be claimed a second time |
| Favorites.Pds.ListFavoriteRkeys | crates/atradio-sdk/src/agent.rs:653-706 | the pagination loop ends and returns exactly the keys of the station's favorites, each once, for either cursor habit of the server |
| Favorites.Pds.FilterPage | crates/atradio-sdk/src/agent.rs:679-697 | a page contributes exactly its records whose body names the station |
| Favorites.Pds.Favorite | sdk/go/agent.go:143-158 | run alone, the station ends with exactly its canonical record and no other record changes, but what the canonical key held |
| Favorites.Pds.Unfavorite | crates/atradio-sdk/src/agent.rs:508-514 | run alone, none of the station's favorites is left and no other record changes |
| Favorites.PageAdvances | sdk/typescript/src/agent.ts:406-429 | a page that continues covers everything up to its cursor, and the cursor moves forward |
| FavoriteRuns.StepSafe | crates/atradio-sdk/src/agent.rs:479-503 | every single operation of any client keeps canonical records safe and strays accounted for |
| FavoriteRuns.NeverLost | crates/atradio-sdk/src/agent.rs:474-478 | at every interruption point of every interleaving, whatever failed, a station whose record was put is still favorited |
| FavoriteRuns.EndsWithCanonical | crates/atradio-sdk/src/agent.rs:470-503 | a client whose own requests succeeded leaves its station exactly its canonical record, through any interleaving and whatever failed for the others |
| FavoriteRuns.StrayExactly | crates/atradio-sdk/src/agent.rs:493-501 | a record under no canonical key is there after a run if and only if it was there and no request of the run deleted it |
| FavoriteRuns.OnlyCanonicalExactly | crates/atradio-sdk/src/agent.rs:493-501 | a client that has put its record leaves it as the only favorite if and only if every stray has been deleted by some request |
| FavoriteRuns.OtherStationKept | crates/atradio-sdk/src/agent.rs:493-501 | a step leaves every other station's favorites alone |
| FavoriteRuns.BystandersKept | crates/atradio-sdk/src/agent.rs:493-501 | stations nobody is favoriting keep exactly their favorites through any interleaving |
| FavoriteRuns.FailedDeletionLeavesStray | crates/atradio-sdk/src/agent.rs:497-498 | an input that fails it: from a fresh start, a refused deletion leaves a second favorite |
| GrpcMirror.GrpcRemote.constructor | cli/src/grpc/client.rs:108-164 | the mirror starts as the server's state with nothing pending |
| GrpcMirror.GrpcRemote.Send | cli/src/grpc/client.rs:348-353 | a state command is counted and queued |
| GrpcMirror.GrpcRemote.Issue | cli/src/grpc/client.rs:379-459 | each method shows its command at once, field by field and nothing else (play and pause negate, stop clears the station, mute negates), then queues and counts it |
| GrpcMirror.GrpcRemote.SetVolumeTo | cli/src/grpc/client.rs:421-425 | the volume shown and sent is the asked one, held within 0 and 1 |
| GrpcMirror.GrpcRemote.BumpVolume | cli/src/grpc/client.rs:428-434 | the volume sent is the last known one plus the step, within 0 and 1 |
| GrpcMirror.GrpcRemote.RequestLists | cli/src/grpc/client.rs:386-394 | three fetches are queued and none is counted |
| GrpcMirror.GrpcRemote.TakeNext | cli/src/grpc/client.rs:260-263 | the loop takes the oldest queued command |
| GrpcMirror.GrpcRemote.Completed | cli/src/grpc/client.rs:305-344 | a completed state command lowers the count, which is never zero then; an error is shown |
| GrpcMirror.GrpcRemote.OnState | cli/src/grpc/client.rs:208-234 | a snapshot always brings roster, presence and title, the editable fields only when nothing is pending, and clears the error |
| GrpcMirror.GrpcRemote.OnLost | cli/src/grpc/client.rs:236-247 | a broken stream only shows an error |
| GrpcMirror.EditedShows | cli/src/grpc/client.rs:379-451 | the edits folded into the mirror are exactly those of the methods, field by field |
| GrpcMirror.TogglesUndo | cli/src/grpc/client.rs:396-418 | playing and pausing, or muting and unmuting, undo themselves |
| GrpcMirror.StepAccounted | cli/src/grpc/client.rs:298-353 | pending equals the state commands queued or in flight after every step, and a completion never takes it below zero |
| GrpcMirror.RunAccounted | cli/src/grpc/client.rs:298-353 | the same over every interleaving |
| GrpcMirror.InOrder | cli/src/grpc/client.rs:253-344 | commands complete in the order they were sent, none lost or repeated |
| GrpcMirror.PendingIsUnacked | cli/src/grpc/client.rs:298-353 | the counter is what was sent and not completed |
| GrpcMirror.SettledPlusEdits | cli/src/grpc/client.rs:205-219 | over every interleaving the editable fields are the last settled snapshot with all later edits folded over it in order |
| GrpcMirror.SettledSnapshotWins | cli/src/grpc/client.rs:212-216 | a snapshot that finds nothing pending makes the mirror equal to it |
| GrpcMirror.PendingProtects | cli/src/grpc/client.rs:205-219 | while a command is outstanding no snapshot undoes an edit |
| GrpcMirror.CountedUntilDone | cli/src/grpc/client.rs:298-353 | a state command that was sent and has not completed is counted as pending |
| GrpcMirror.EditKeptExactly | cli/src/grpc/client.rs:205-219 | an edit whose command is outstanding is still in the fold if and only if no snapshot between edit and send found nothing pending; else the mirror is the last such snapshot with the later edits |
| GrpcMirror.EditBeforeSendCanBeDropped | cli/src/grpc/client.rs:421-425 | an input on which such a snapshot drops the edit |

## Left out

- Title text: `parseStreamTitle` and its regular expression, latin1 and utf8 decoding. A title is its block's bytes.
- `open`'s connecting, redirects, status line and header parsing, and the outcome of its promise; only the split at the first blank line is modelled.
- The `error` event and backpressure of `streamBody`; a client's `cancel`.
- Rounding of chunk sizes from 2^53 up, which a double cannot hold exactly; the overflow to Infinity is modelled.
- IcyCounter.ReadIcyTitle: an `icy-metaint` that is not a whole number, which the dev server's reader does not refuse.
- RateLimit.RateLimiter.Check: windows of zero or less; a clock that goes back and the timer that calls `sweep` are left out too.
- ConnectHub.Hub.OnHello: assumes a verified token and one hello per socket whose socket is still open; the failed verification, the close frames and the liveness ping are not modelled.
- ConnectRegistry.Merge: a map from id to device; the order by connection time is left out.
- ConnectHub.Hub.RosterOf: likewise without the order by connection time.
- ConnectHub.Hub.BroadcastRoster: likewise, and without the `self` flag of each receiver.
- ConnectAccount.Sent: a frame counts as sent when handed to a socket, whatever the socket's state; frames are a multiset, so their order within one step is not stated.
- ConnectCluster.OneCleanup: arrivals are of ids new to the account; a hello that replaces a registered id sets the remembered flag itself and is left to `OnHello`.
- ConnectNet.LocalsKept: a crashed instance comes back as the same instance with empty registries and inbox; the code gives it a new id.
- ConnectOverlap.OverlapConverges: assumes one channel order for all instances, no crash, and heartbeats that find nothing older than the TTL; a leave overtaking the join of a migrated device, which `onRelay` applies whatever its origin, is repaired as `SyncedAfterTtl` says.
- ConnectHeartbeat.SyncedAfterTtl: no client event happens during the round.
- JetstreamIndex.Consumer.HandleEvent: forwarding to the firehose, errors caught while processing, and events handled without serialisation; the cursor moves before processing, so nothing is said about a crash.
- JetstreamIndex.Consumer.ProcessCommit: taken as one step; a deleted comment's notifications, live broadcasts, the users cache and `indexedAt` are left out, and dates that do not parse count as invalid records, since their insert fails.
- The cursors of getFavorites, getStations and getGlobalRecentlyPlayed, which can skip rows with equal times, and fractional limits or unparsable cursors.
- `flush` of the Discord queue and the embeds.
- The digest in `favorite_rkey`: any injective function from station ids to keys, though the code keeps 64 bits of it.
- Favorites.Pds.ListRecords: stands for the repository server, whose key order and cursors are assumed, not modelled from code here.
- Favorites.Pds.Favorite: every request succeeds here; `FavoriteRuns` has the failures.
- Favorites.Pds.Unfavorite: every request succeeds; a failed deletion ends the call with the rest still there.
- FavoriteRuns.NeverLost: the TypeScript client stops at its first failed deletion, which is an interruption point here; concurrent `unfavorite` runs are not modelled.
- GrpcMirror.GrpcRemote.Send: the branch for a closed channel, which takes the count back.
- Reconnecting, the contents of the fetched lists and the DSP row tweak (a parameter) in the gRPC client; volumes are reals. The server acknowledges before it applies, so a stale snapshot can still follow an acknowledgement.
- The terminal and web interfaces, audio, OAuth, MPRIS, mDNS, service installers, bindings and settings mappers: plumbing, or one-branch facts.
