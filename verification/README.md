# SistemaHidrico backend: replication, mailboxes, replay cache and live data

A Dafny model of the protocols and state machines in the backend of the water system,
with proofs about whole runs of them. `dafny verify dfyconfig.toml` checks everything.

| file | what it models |
|---|---|
| Chain.dfy | the public event chain of a node: ingest, locator, page for a locator |
| PublicSync.dfy | locator-based sync with fork detection, small-chain reset and paging |
| PeerPush.dfy | cursor-based push of the public log over a lossy network |
| GateSync.dfy | the sorted gate logs, their pull and their push |
| DmMerge.dfy, DmPoll.dfy | two destructive mailboxes, the shared budget of 8, the merge of duplicates |
| DmSend.dfy, DmPipeline.dfy | composing and queueing direct messages, the release outbox, alias changes |
| GateSubmit.dfy | gate submission: checks, cooldown, sequence, store, queue |
| ReplayCache.dfy | the nonce cache of the agent channel |
| Throttle.dfy | the tiered rate limit |
| LiveData.dfy, DataLock.dfy | injected data, ETag coherence, and the lock as it is declared |
| TimeMachine.dfy | compressed snapshots and their expansion |
| EnvPin.dfy, EnvWrite.dfy | the two rewriters of the .env file |
| Viewport.dfy, Downsample.dfy | viewport box and even downsampling in exact arithmetic |

Code that changes state is modelled as classes and loops proved against specification
functions; the properties are lemmas about those functions. Keys, hashes, signatures and
the verdict of the event checks are parameters, so the results hold for every choice of
them. What helpers answer, what the network does to a request and what the clock shows
are parameters too.

## Where the code differs from its description, or a property fails

- The data lock is a plain lock, and the injection, removal and telemetry endpoints bump
  the version, which takes that lock, while they hold it. As written they block themselves
  and every other user of the lock (DataLock). LiveData states what these endpoints do to
  the data and the versions if the bump inside the block went through.
- The fork recovery says it resets only if the remote chain is longer. No length is
  compared: an empty peer makes a node with 1 to 19 events drop them. And a fork behind a
  shared locator entry is never recovered. The locator has gaps, so a small chain can be
  dropped although it shares its oldest events with the peer (PublicSync).
- Ingest refuses events outside a freshness bound, by default a day, of the receiver's
  clock. A chain older than that cannot be taken over by a new node (PublicSync), and an
  event pushed late is answered with status 200, counted by the sender and lost to that
  peer, together with everything after it (PeerPush).
- Resetting the chain keeps the push cursors: the events of the new chain below a peer's
  cursor are never pushed to it, so it gets the new chain completely exactly if its cursor
  was zero, and can take anything exactly if its chain reaches to the cursor (PeerPush).
- A peer leaves gate messages out of the pages of the public chain and redacts others, but
  a node takes over only events that follow each other with the hash they are named by. No
  node gets past the first such event of a peer's chain, and when only gate messages
  follow on the page the sync ends in front of it with success (PublicSync).
- Gate logs are sorted by the store, so they are not append-only: an event that sorts
  before a cursor is missed by pull and push. The cursor also moves past events that the
  receiver refuses, among them all that are older than 30 days, and a pull starts at the
  number of events held locally, own posts included. A new puller of an older gate thus
  never holds all of it, nor does one with posts of its own. What it does hold is stated exactly,
  from any state, and equality of the logs has its exact condition (GateSync).
- The sequences of gate posts are reset with the public chain, by the fork recovery among
  others. A message that was accepted before is then accepted again, with the same
  sequence; between two resets the sequences rise (GateSubmit).
- A gate push with an event whose gate cannot be resolved is answered with status 200, so
  the sender counts the whole batch and never sends it again (GateSync).
- The direct mailbox discards messages without an id when it is collected (DmPoll).
- The cooldown pair is described as stamping after a successful post; the stamp and the
  sequence are written before the event is recorded (GateSubmit).
- The tiers of the rate limit in the docstring are not those of the code; the code's are
  30 s and 200 a day, 120 s and 75, 300 s and 15 (Throttle).
- The release outbox files by message id alone: a second message with a known id is
  answered as queued and dropped (DmSend).
- A message in the legacy format is not queued on a private tier, but one that was queued
  before is delivered only there: the release floor of the lane is private_strong, and
  neither the outbox nor the worker looks at the format. A repeated id or a reported tier
  puts it under a private tier as well (DmSend).
- A satellite with a falsy identifier loses it when a played-back snapshot is compressed
  again (TimeMachine).
- The pin script looks for carriage returns in a text that, read in text mode, never has
  any (EnvPin). The other rewriter grows the file when a value spans lines (EnvWrite).
- A 304 can hide a change while a fetcher stands between storing and bumping, and one after
  a restart can confirm a copy from before it, since the versions start at 0 (LiveData).
- A replay is possible after a restart for the rest of one second if a request was
  accepted in the second of the restart with a timestamp a minute ahead (ReplayCache).

## Model

| member | source | states |
|---|---|---|
| PublicSyncLoop.SyncFromPeer | backend/main.py:1450-1492 | A run against a peer whose chain only grows ends after at most 6 requests and one reset, the reset only from a chain of 1 to 19 events of which the peer knows none that the locator names; without a reset nothing local is lost. From a prefix of an unredacted chain, or after a reset, and if no new event is taken for a duplicate, it succeeds exactly when the peer answered every request and each event of every page was accepted on arrival, and then it leaves the peer's whole chain or five full pages more. Against a peer whose pages hide an event no run gets past it |
| PublicSync.RoundKeeps | backend/main.py:1454-1491 | Every round either counts towards the five or is the one reset, keeps the invariant of the run, and the round that ends the run leaves what the run promises |
| PublicSync.CleanRound | backend/main.py:1454-1491 | A round of a clean run succeeds exactly when its page does, and keeps the node on a prefix of the peer's chain |
| PublicSync.ShortPageExactly | backend/main.py:1484-1490 | A short page leaves a node with everything up to the first event it does not accept; there is no error exactly when that is the whole chain, or all but a last event taken for a duplicate |
| PublicSync.HiddenEndsRun | backend/main.py:5362-5363 | The page that reaches to the first hidden event, a gate message or one whose redacted content is refused, ends the run with the chain in front of it: without an error exactly when all before it was accepted and the page holds nothing but gate messages from it on, so a chain with a hidden 100th event is cut short with success |
| PublicSync.HiddenRound | backend/main.py:1479-1491 | A round against such a peer takes what it accepts of the page before the hidden event and nothing after |
| PublicSync.OldChainIsRefused | backend/services/mesh/mesh_hashchain.py:2064-2092 | A node that starts from nothing cannot take over a chain whose first event is outside the freshness bound: the sync fails and leaves it empty |
| PublicSync.ForkedExactly | backend/main.py:5355-5360 | The peer reports a fork exactly when the node has events and the peer knows none of those its locator names |
| PublicSync.ForkDropsPrefix | backend/main.py:5355-5360 | A node that shares exactly its first s events with the peer is told of a fork exactly when these all lie in the gaps between the locator's distances |
| PublicSync.SmallForkShares | backend/main.py:1466-1477 | A small chain dropped for a fork shares at most three events with the peer, and with 13 events it can share the oldest |
| PublicSync.PrefixRound | backend/main.py:5355-5363 | For a node that holds the first k events the answer is the next page, and it is taken without complaint exactly when every event of it is accepted in its place on arrival |
| PublicSync.SharedForkIsStuck | backend/main.py:1484-1487 | A fork behind an event that the locator still names is not reported as one: the whole page is rejected and the chain stays as it is, however short it is |
| PublicSync.EmptyPeerForks | backend/main.py:1462-1477 | The lengths are never compared, against what the comment says: an empty peer is a fork for every non-empty node, so a node with fewer than 20 events drops them |
| PublicSync.IngestAnswer | backend/main.py:1479-1486 | An answered page only adds to the chain, accounts for each of its events, and after any acceptance the peer knows the node's newest event |
| PublicSyncLoop.SyncPost | backend/main.py:5355-5363 | The endpoint on the chain object answers as the specification of the peer |
| PublicSyncLoop.OneRound | backend/main.py:1455-1491 | One pass of the loop on the chain object is one round of the specification, with the same error and the same chain |
| Chain.IngestKeepsChain | backend/services/mesh/mesh_hashchain.py:2001-2260 | Ingest only appends, keeps event ids distinct and counts each event once as accepted, duplicate or rejected |
| Chain.IngestSlice | backend/services/mesh/mesh_hashchain.py:2001-2260 | A slice of a linked chain fed to a node that holds a prefix, whatever its checks say on arrival: with a gap it is rejected whole, without one the node gets as far as the first event it does not accept, with the counts that go with it |
| Chain.IngestAllAccepted | backend/services/mesh/mesh_hashchain.py:2001-2260 | Without trust in the links: nothing is rejected or called a duplicate exactly when every event is accepted in its place, and then all of the slice is appended |
| Chain.ReachSpec | backend/services/mesh/mesh_hashchain.py:2001-2260 | A node reaches the end of a slice exactly when it accepts every event of it, and otherwise stops in front of one it does not accept |
| Chain.LocatorShape | backend/services/mesh/mesh_hashchain.py:2766-2784 | A locator has at most 32 entries, begins with the newest event, ends with the genesis marker and names only events of the chain |
| Chain.LocatorReach | backend/services/mesh/mesh_hashchain.py:2766-2784 | For any depth up to about four million events the locator names an event at least that deep and at most twice as deep |
| Chain.LocatorExact | backend/services/mesh/mesh_hashchain.py:2766-2784 | The locator names exactly the events at distances 0 to 9, 11, 15, 23 and so on from the newest one, as far as the chain goes |
| Chain.FirstKnownSpec | backend/services/mesh/mesh_hashchain.py:2786-2801 | The answer starts right after the first entry the peer knows, and at genesis exactly when it knows none |
| Chain.Infonet.GetLocator | backend/services/mesh/mesh_hashchain.py:2766-2784 | The doubling walk on the chain object produces the specified locator |
| Chain.Infonet.GetEventsAfterLocator | backend/services/mesh/mesh_hashchain.py:2786-2801 | The search through the index finds the specified page |
| Chain.Infonet.IngestEvents | backend/services/mesh/mesh_hashchain.py:2001-2260 | The ingest loop changes the chain and counts the outcomes as specified and keeps list, head and index consistent |
| Chain.Infonet.ResetChain | backend/services/mesh/mesh_hashchain.py:1668-1690 | The chain object is consistent and empty afterwards |
| PeerPush.RunAccounts | backend/main.py:1744-1788 | For every interleaving of appends, pushes, lost requests, lost replies and refusals on an append-only log, whatever chains the peers hold and whatever they accept: no cursor goes back or passes the log, acknowledged batches concatenate to exactly the log below the cursor, all of it was handed to the peer's ingest, and no peer loses an event |
| PeerPush.BatchFits | backend/main.py:5541-5547 | No batch is longer than the 50 events the receiver takes, so status 200 means that the whole batch was handed to its ingest |
| PeerPush.PushMirrorsExactly | backend/main.py:1775-1777 | A peer whose chain is a prefix of the log that reaches to the cursor stays one after a push exactly when the push was not counted or every event of the batch beyond its chain was accepted on arrival |
| PeerPush.PushFreshExactly | backend/services/mesh/mesh_hashchain.py:2064-2092 | In terms of the clock: if nothing else is against them, exactly when these events are within the freshness bound when they arrive |
| PeerPush.RunMirrorsExactly | backend/main.py:1744-1788 | Over every run on an append-only log such a peer ends with a prefix of the log, one that reaches to the cursor exactly when no counted push brought it an event it refused |
| PeerPush.StaleIsSkipped | backend/services/mesh/mesh_hashchain.py:2083-2092 | An event whose requests were lost for 25 hours: status 200, the cursor passes it, the peer does not have it |
| PeerPush.GapIsForever | backend/main.py:1753-1783 | A peer whose newest event is gone from what is still to be pushed, forked or short of the cursor, never gains an event by push in any run on an append-only log |
| PeerPush.DeliveredPushes | backend/main.py:1744-1788 | Enough delivered pushes, from any cursor within the log, hand over everything from the cursor on; a peer with a prefix gets as far as it accepts when it reaches to the cursor, and nothing when it does not |
| PeerPush.GainsExactly | backend/main.py:1753-1783 | One delivered push brings such a peer something exactly when its chain ends inside the batch and its next event is accepted |
| PeerPush.CompleteExactly | backend/main.py:1474 | After the reset, which empties the log and keeps the cursors, the new log is handed over completely exactly when the cursor was zero |
| PeerPush.NothingBelowCursor | backend/main.py:1474 | In no run after a reset is an event below the cursor that a peer starts with handed to it |
| PeerPush.ResetLosesEvents | backend/main.py:1474 | A run from an empty node through a reset: the first event of the new chain is never handed over and the second cannot be taken |
| PeerPush.PushWorker.PushPeer | backend/main.py:1749-1788 | One request of the worker is one push step of the specification |
| PeerPush.PushWorker.Cycle | backend/main.py:1744-1788 | One cycle over the peers is the run of their push steps with the length taken at its start |
| GateSync.InStepUnlessLate | backend/services/mesh/mesh_hashchain.py:1012-1046 | Gate logs are sorted, not append-only: a puller that holds a prefix still holds one after the peer gains an event exactly when the event does not sort before one already pulled |
| GateSync.PullAdvances | backend/main.py:1876-1917 | A puller that holds a prefix still does after a pull exactly when every event of the page passes its checks at that time, and then it has taken min(50, gap) events; nothing is assumed of the total that was announced |
| GateSync.PullFreshExactly | backend/services/mesh/mesh_hashchain.py:1208-1213 | In terms of the clock: if nothing else is against them, exactly when all of the page is at most 30 days old and at most 300 s ahead at the puller's clock |
| GateSync.PullHolds | backend/main.py:1876-1911 | What one pull brings to a puller in any state: exactly the events of the page at its cursor that pass |
| GateSync.InStepIfNext | backend/services/mesh/mesh_hashchain.py:1012-1046 | An event that comes to the puller by another way, posted there or pushed to it, leaves it in step exactly when it is the peer's next one |
| GateSync.RunStaysInStep | backend/main.py:1870-1917 | Over every run, with any answers lost, any totals announced and other checks at each pull, the puller's log is a prefix of the peer's throughout exactly when no event of the peer sorted before one already pulled, no event came in by another way out of turn, and every page passed; it then never shrinks |
| GateSync.PullsConverge | backend/main.py:1870-1917 | From a prefix, after as many pulls as there are pages in the gap, each with its own checks, the two logs are equal exactly when each event of the gap passed the checks of its page's turn |
| GateSync.PullsHoldExactly | backend/main.py:1870-1917 | From any state of the puller, with posts of its own or without, enough pulls leave it with exactly those events of the peer that it had, and those from its cursor on that passed in their turn |
| GateSync.StaleIsCounted | backend/services/mesh/mesh_hashchain.py:1208-1213 | A gate with one event older than 30 days: a new puller refuses it and counts it as pulled |
| GateSync.OwnPostHides | backend/main.py:1876-1882 | A puller with one post of its own never gets the peer's one event, after any number of pulls |
| GateSync.CountNeverDecreases | backend/main.py:1876-1917 | The remembered count never goes back, whatever the peer announces or sends |
| GateSync.MissedForGood | backend/main.py:1876-1882 | An event of the peer that lies below the cursor and is missing locally is brought in by no run, whatever is pulled, announced or lost and whatever the checks say at each pull, as long as no event of the peer is sorted in before it and nobody posts it locally |
| GateSync.RunCovers | backend/main.py:1958-2012 | In every run of gate pushes, lost requests, lost replies, refusals and new events that are not late, the count never goes back and the acknowledged batches concatenate to exactly the log below it |
| GateSync.CoveredUnlessLate | backend/services/mesh/mesh_hashchain.py:1012-1046 | The count of the push stays truthful after a new event exactly when the event does not sort before one already counted |
| GateSync.HeldExactly | backend/main.py:5574-5673 | The receiver ends up with an id exactly when it had it, or every event of the batch could be assigned to a gate and one of that id passed the checks |
| GateSync.PushReplicatesExactly | backend/main.py:2002-2003 | The count moves on with status 200 alone: the batch is replicated exactly when all of it can be resolved and each event passes the checks or is there already |
| GateSync.PushFreshExactly | backend/services/mesh/mesh_hashchain.py:1208-1213 | In terms of the clock: if nothing else is against them, exactly when the events the receiver lacks are within the bound |
| GateSync.RunReplicatesExactly | backend/main.py:1958-2012 | Over every run without late events the receiver ends up with every acknowledged event exactly when each acknowledged batch was taken whole when it arrived |
| GateSync.SkippedForGood | backend/main.py:1969-1978 | An acknowledged event that the receiver lacks is not brought to it by push in any run without late events, whatever it resolves and checks later |
| GateSync.GatePushWorker.PushGate | backend/main.py:1969-2004 | The loop body sends the next batch after the count and moves the count by it exactly on status 200 |
| GateSync.IngestSlice | backend/services/mesh/mesh_hashchain.py:1186-1271 | The next slice of the peer's sorted log lands exactly at the end of a prefix of it |
| GateSync.SortSorts | backend/services/mesh/mesh_hashchain.py:544-552 | Sorting a gate log gives a sorted log with the same events |
| GateSync.GateStore.IngestPeerEvents | backend/services/mesh/mesh_hashchain.py:1186-1271 | The ingest loop leaves the sorted log with exactly the fresh events added and counts every event of the batch once |
| GateSync.GatePullWorker.PullGate | backend/main.py:1876-1917 | The loop body over gates is one pull of the specification and touches no other gate or peer |
| DmMerge.WinnerIsBest | backend/main.py:7399-7432 | Of the copies of one message id the survivor is one of them and no other copy beats it |
| DmMerge.ReplaceIsStrictWeakOrder | backend/main.py:7399-7432 | Beating is irreflexive and transitive, and so is not being beaten, so the result of the comparisons does not hang on their order |
| DmMerge.AnnotationRank | backend/main.py:7343-7398 | The annotation of a request message decides its authority and recovery ranks |
| DmMerge.MergeMessages | backend/main.py:7435-7461 | Every non-blank id occurs exactly once, as the winning copy; every message without id is kept; the output is sorted by timestamp |
| DmMerge.AddMessages | backend/main.py:7440-7459 | The loop over one source, with list and index updated in place, keeps the index on the survivors |
| DmPoll.CollectSpec | backend/services/mesh/mesh_dm_relay.py:1541-1586 | Collecting from a mailbox hands out distinct pending ids up to the limit; what stays pending is the rest, and more is announced exactly when something is left |
| DmPoll.CollectKeeps | backend/services/mesh/mesh_dm_relay.py:1541-1586 | No message is lost by collecting: it stays, or its id is handed out; only the direct lane discards messages without an id |
| DmPoll.CollectEmpties | backend/services/mesh/mesh_rns.py:1306-1335 | When no more is announced the visited mailboxes are empty, and no mailbox grows |
| DmPoll.BothSpec | backend/main.py:7067-7091 | The two lanes together never exceed 8; no more means that nothing waits in either mailbox (with the direct lane in use); more means that something was handed out |
| DmPoll.BothLoseNothing | backend/main.py:7067-7091 | Every message of either mailbox is still there or its id is handed out |
| DmPoll.DmEndpoint.Poll | backend/main.py:7064-7091 | The ids returned are exactly those taken from the mailboxes: the final cut to 8 never drops a message already removed |
| DmPoll.DmEndpoint.PollUntilDone | backend/main.py:7064-7091 | Polling until no more is announced terminates, both mailboxes are then empty for the keys, and every id that was pending has been returned |
| DmPoll.DmEndpoint.PollLegacy | backend/main.py:7516-7531 | The loop over tokens never drops what it collected, and without an announcement every visited mailbox is empty |
| DmPoll.Mailboxes.CollectFromKeys | backend/services/mesh/mesh_dm_relay.py:1541-1586 | Popping and putting back what exceeds the limit is the specified collection |
| DmPoll.Mailboxes.PopAll | backend/services/mesh/mesh_dm_relay.py:1545-1566 | The popped mailboxes and the first copies of their messages are exactly those of the keys, and the other mailboxes stay |
| ReplayCache.NoReplay | backend/auth.py:343-381 | Within one boot a nonce accepted with a timestamp is accepted with it again only after 16384 other acceptances |
| ReplayCache.ReplayExactly | backend/auth.py:343-381 | The bound is exact: the first repetition while still fresh is accepted if and only if 16384 others were accepted in between |
| ReplayCache.PruneKeepsNewest | backend/auth.py:301-311 | Pruning keeps exactly the newest unexpired entries, at most 16384 |
| ReplayCache.RunTail | backend/auth.py:301-381 | After every run the cache is the tail of the accepted requests, and what fell off has expired or has 16384 later ones behind it |
| ReplayCache.ReplayAfterGrace | backend/auth.py:287-290 | Once the 120 s of grace are over a request accepted before the restart is fresh again exactly when it was accepted in the second of the restart with a timestamp a full minute ahead, for the rest of one second |
| ReplayCache.ReplayAcrossRestart | backend/auth.py:348-381 | Such a request: accepted at 100.2 with timestamp 160, restart at 100.5, accepted again at 220.7 |
| ReplayCache.ReplayDuringGrace | backend/auth.py:348-354 | During grace any accepted timestamp is at most 10 s older than the restart |
| ReplayCache.ReplayGuard.PruneNonceCache | backend/auth.py:301-311 | The two passes over the dictionary prune as specified |
| ReplayCache.ReplayGuard.VerifyHmac | backend/auth.py:314-381 | One verification of the guard is one step of the specification |
| Throttle.SpacingAndCap | backend/main.py:3985-4037 | Within an entry's life counted sends are at least 30 s apart and the daily count never exceeds 200, whatever tiers apply in between |
| Throttle.AnyDayWindow | backend/main.py:4007-4037 | Any window of 86400 s holds at most 400 counted sends of an entry |
| Throttle.RunKeeps | backend/main.py:3985-4037 | Every run splits the sends into the current day, the day before and older ones, each day within the cap |
| Throttle.EvictionForgets | backend/main.py:3957-3964 | Once the cache has dropped an entry the next send is let through, however recent the last one was |
| Throttle.ThrottleTable.CheckThrottle | backend/main.py:3967-4037 | The check with its table of entries is the specified one and leaves other senders alone |
| GateSubmit.RunKeeps | backend/main.py:4975-5215 | In every reachable state, across chain resets, lost cooldown stamps and events from peers, each queued event is in the gate store under its id, is locked private_strong and carries an envelope exactly when it carries that envelope's hash; no id is queued twice |
| GateSubmit.AdmittedExactly | backend/main.py:5119-5143 | After any run a request gets through to recording exactly when it passes the screening, the sequence table works, its sequence is positive and above those of all the sender's posts since the chain was last reset, and every stamp of the sender in that gate that was not dropped is 30 s old |
| GateSubmit.RunRises | backend/services/mesh/mesh_hashchain.py:1824-1845 | In every run the posts of one sender between two resets of the chain carry rising sequences |
| GateSubmit.RunSpaces | backend/main.py:4040-4062 | In every run with a clock that does not go back the posts of one sender to one gate are checked 30 s after each earlier stamp that was not dropped, resets included |
| GateSubmit.SpentUntilReset | backend/services/mesh/mesh_hashchain.py:1824-1845 | A request whose sequence is spent is refused and changes nothing in every run until the chain is reset |
| GateSubmit.ReplayAfterReset | backend/services/mesh/mesh_hashchain.py:1668-1690 | The very request that was accepted is refused half a minute later, and accepted a second time with the same sequence when the chain is reset in between |
| GateSubmit.SubmitKeeps | backend/main.py:4975-5215 | One submission keeps that, takes nothing out of the store, and one answered as queued has an item in the queue |
| GateSubmit.ReplyIsVerified | backend/main.py:5119-5206 | The queued reply target is the verified one except exactly when a prepared request verified none and the body names one |
| GateSubmit.FailedRecordIsSpent | backend/main.py:5119-5206 | When recording fails after the checks the stamp and the sequence are already spent, against the comment of the cooldown pair: the same message is refused in every run until the chain is reset, a new one for 30 s |
| GateSubmit.GateService.SubmitEnvelope | backend/main.py:4975-5215 | The handler with its early returns is the specified submission |
| GateSubmit.GateService.ValidateAndSetSequence | backend/services/mesh/mesh_hashchain.py:1824-1845 | A sequence is taken exactly when it is positive and above the last one, and only then remembered |
| GateSubmit.GateService.ResetChain | backend/services/mesh/mesh_hashchain.py:1668-1690 | Resetting the chain empties the sequence table and nothing else of the gate side |
| LiveData.NativeConserved | backend/routers/ai_intel.py:592-657 | Over any injections and removals the native items of every layer stay unchanged and in order |
| LiveData.ApplySpec | backend/routers/ai_intel.py:613-655 | A replacing injection leaves exactly its own batch injected, an adding one appends it, a removal leaves none |
| LiveData.RemoveRestores | backend/routers/ai_intel.py:636-655 | After any history removing gives back exactly the native list from before the first injection |
| LiveData.RecentOfRecent | backend/routers/data.py:397-401 | Popping the oldest on every append keeps the newest hundred of all points |
| LiveData.LiveStore.InjectData | backend/routers/ai_intel.py:592-631 | The endpoint changes the layer, the version and the reported numbers as specified, or nothing for a layer that is not injectable |
| LiveData.LiveStore.RemoveInjected | backend/routers/ai_intel.py:634-657 | The endpoint cleans one or all injectable layers and reports the number of injected items over all of them |
| LiveData.LiveStore.TurimiquireTelemetry | backend/routers/data.py:395-402 | A point is appended, the oldest beyond a hundred goes, and the version moves |
| LiveData.LiveStore.UpdateLayers | backend/routers/data.py:323-330 | Known flags take the new values and the layer version moves exactly when an assignment changed one |
| LiveData.WriteShows | backend/routers/data.py:103-105 | A finished write either leaves what readers see or gives the store an ETag it never had |
| LiveData.NotModifiedIsCurrent | backend/routers/data.py:525-534 | In every interleaving of writers, readers and restarts a 304 confirms exactly what would be sent, provided the client read its copy since the process started and no fetch stands between its data and its bump |
| LiveData.RunKeeps | backend/routers/data.py:525-534 | No copy of this start of the process carries a later ETag than the store, and one with the store's own ETag is current unless a fetch is half done |
| LiveData.HalfDoneFetchHides | backend/services/ai_intel_store.py:139-150 | The proviso is needed: between storing and bumping a 304 confirms an old copy |
| LiveData.RestartHides | backend/services/fetchers/_store.py:156 | So is the other one: the versions start at 0 with the process, and a copy from before a restart is confirmed against other data |
| LiveData.SameETagOtherBody | backend/routers/data.py:525-534 | Two responses with one ETag can differ, because the ETag is taken before the data is read; neither is confirmed afterwards |
| LiveData.BodiesAgreeExactly | backend/routers/data.py:525-534 | A second response under a current ETag has the body of the first exactly when what readers see is the same at its read as when its ETag was taken |
| LiveData.InTimeBodiesAgree | backend/routers/data.py:525-534 | In every run a reader whose ETag is still the store's when it reads, with no fetch half done, gets the very response of each copy of this start with that ETag |
| DataLock.BumpInsideBlocks | backend/routers/ai_intel.py:613-619 | A writer that bumps the version inside its locked block stops itself: its data is stored, and in no schedule does any thread move again |
| DataLock.NothingMovesAgain | backend/services/fetchers/_store.py:214-225 | Once the holder waits for the lock it holds no schedule changes anything |
| DataLock.ReleasedFirstNeverBlocks | backend/services/ai_intel_store.py:139-150 | Writers that bump after the block never reach that state, whatever the schedule |
| DataLock.CalmPrograms | backend/services/ai_intel_store.py:139-150 | The writers that bump afterwards and the readers are of that kind, the others are not |
| DataLock.ProgramsAreLocked | backend/services/fetchers/_store.py:152 | The writers and readers hold the lock for every access |
| TimeMachine.Retraction | backend/routers/ai_intel.py:831-880 | In each of the 11 layers of the expansion table compressing an expanded entity gives the compressed one back, order included, exactly when no falsy satellite id other than null was emitted |
| TimeMachine.SatelliteZeroIsLost | backend/routers/ai_intel.py:857-861 | A satellite numbered 0 without id: the number is emitted and lost on the way back |
| TimeMachine.LayerRetraction | backend/routers/ai_intel.py:911-929 | A list snapshot played back and compressed again is the same snapshot exactly when every satellite id survives |
| TimeMachine.Tables | backend/routers/ai_intel.py:1221-1233 | In each of these layers every emitted short key expands to the name it came from, and no two short keys share a name |
| TimeMachine.ExpandEntity | backend/routers/ai_intel.py:1236-1245 | The loop over keys expands as specified |
| TimeMachine.CompressLayerData | backend/routers/ai_intel.py:911-929 | The loop over items compresses as specified, skips what is not a dictionary, and an exception of one item ends it |
| EnvPin.RewriteAgreesWithParser | scripts/refresh_privacy_core_pin.py:30-63 | For all lines and digests parsing the rewritten lines gives the old settings with only the pin changed, and a line was replaced exactly when the parser saw a pin |
| EnvPin.RewriteTwice | scripts/refresh_privacy_core_pin.py:50-63 | Rewriting is idempotent, and the second time a line is always replaced |
| EnvPin.KeySeen | scripts/refresh_privacy_core_pin.py:50-56 | The parser sees a key exactly when some line would be replaced |
| EnvPin.RefreshOnce | scripts/refresh_privacy_core_pin.py:69-96 | After a refresh the file on disk parses to the old settings with only the pin changed, and running the script again leaves it alone |
| EnvPin.NoCarriageReturns | scripts/refresh_privacy_core_pin.py:83-93 | The text the script reads never contains a carriage return, so its search for them never finds one |
| EnvPin.ParseEnvLines | scripts/refresh_privacy_core_pin.py:30-39 | The loop fills the dictionary with the last value of each key |
| EnvPin.ReplaceOrAppendPin | scripts/refresh_privacy_core_pin.py:50-63 | The loop builds the specified lines and reports whether one was replaced |
| EnvWrite.WriteTwice | backend/routers/ai_intel.py:2656-2678 | Writing a setting twice is writing it once exactly when the value is read back on one line: no newline, and no carriage return but at its very end |
| EnvWrite.OtherLinesStay | backend/routers/ai_intel.py:2661-2673 | For every value: where the setting is found the other lines are read back unchanged and in order, with the further lines of the value after each place; where it is not, all lines stay and the header and the further lines follow |
| EnvWrite.OneLineAddsNothing | backend/routers/ai_intel.py:2661-2670 | A value on one line leaves no further lines, so nothing but the setting changes |
| EnvWrite.FoundAfterwards | backend/routers/ai_intel.py:2672-2673 | After any write the next call finds the setting |
| EnvWrite.WriteEnvValue | backend/routers/ai_intel.py:2656-2678 | The loop and the appended block give the specified text |
| Viewport.SpanCovered | backend/routers/data.py:54-64 | Every longitude of the input span, wrapped when west is past east, lies in the box after a whole number of turns |
| Viewport.BoxIsSpan | backend/routers/data.py:54-64 | The box has -180 <= west <= east <= 180 and is the whole circle or exactly the input span moved by whole turns |
| Viewport.SpanKept | backend/routers/data.py:54-64 | A span strictly between two passes of the antimeridian is not widened |
| Viewport.NormalizedLongitude | backend/routers/data.py:47-51 | A normalised longitude is the input moved by whole turns into [-180, 180] |
| Viewport.LatitudesCovered | backend/routers/data.py:55-56 | Cutting at the poles loses no latitude in between |
| Downsample.EvenlySpread | backend/main.py:3590-3594 | Exactly max items are taken, from the first one on at strictly growing positions no further apart than len / max rounded up, and the clamp to the last index never takes effect |
| Downsample.NearKept | backend/main.py:3590-3594 | Every item is less than len / max, rounded up, behind a kept one |
| DmSend.PreparedIsSound | backend/main.py:6824-6983 | Whatever the helpers answer, what is queued on a private tier is not in the legacy format, a sealed message carries a 32-digit hexadecimal salt, the message is the sender's own, and the legacy format appears exactly when it was asked for or only the legacy signature held |
| DmSend.DowngradeOnPrivate | backend/main.py:4108-4133 | A downgraded signature never gets through on a private tier, always with status 403; the later checks for it cannot decide anything |
| DmSend.RunKeeps | backend/services/mesh/mesh_private_outbox.py:255-310 | In every run of requests and worker steps each item is complete, a sealed one with its 32-digit salt, and no message id is filed twice |
| DmSend.RunOrigin | backend/main.py:6824-6997 | In every run each queued payload stems from a request of the run, and one in the legacy format from a request on a tier that was not private |
| DmSend.RunDelivers | backend/services/mesh/mesh_private_release_worker.py:162-189 | In every run what is delivered is delivered at private_strong and stays so: a delivered legacy message always stands under a private tier |
| DmSend.AcceptedIsFiled | backend/services/mesh/mesh_private_outbox.py:269-283 | A message answered as queued is in the outbox exactly when its id was new or was filed with the same payload; otherwise the earlier payload stays |
| DmSend.StepAgrees | backend/services/mesh/mesh_private_outbox.py:269-283 | One step leaves no legacy message under a private tier exactly when it is none of these: a request on a private tier with the id of a waiting legacy message, a private tier reported for one, the delivery of one |
| DmSend.RunAgreesExactly | backend/services/mesh/mesh_private_release_worker.py:103-189 | Over every run no legacy message ever stands under a private tier exactly when every step was of that kind |
| DmSend.LegacyDeliveredDisagrees | backend/services/mesh/mesh_private_release_worker.py:171-189 | No run in which the worker delivers a legacy message is such a run |
| DmSend.LegacyDelivered | backend/services/mesh/mesh_private_release_worker.py:171-189 | The ordinary way to one: a legacy message queued on a public tier and delivered when the private lane is up |
| DmSend.LegacyUnderPrivate | backend/services/mesh/mesh_private_outbox.py:269-283 | Two requests with one message id that leave a legacy payload under a private tier |
| DmSend.DmService.SendSigned | backend/main.py:6824-6997 | The handler with its early returns is the specified request |
| DmPipeline.LegacyOnlyOffPrivate | backend/main.py:9378-9464 | The legacy format is composed only off the private tiers, with the override active, for a peer with no usable session, no key package and no pinned invite |
| DmPipeline.RegisteredExactly | backend/main.py:9288-9298 | Composing registers an alias change exactly when it succeeds with updates for a named peer, under the very ciphertext and format it returns |
| DmPipeline.RunCarried | backend/main.py:9249-9464 | In every run each message that carried a change stems from a composition of the run with exactly its ciphertext, format and updates, and one in the legacy format from one off the private tiers |
| DmPipeline.RunIsGood | backend/services/mesh/mesh_private_release_worker.py:186-192 | In every run an alias change is applied only for a message delivered to that peer with the very ciphertext composed with the change, at most a day earlier, and never twice for one composed message |
| DmPipeline.ComposeSendDeliver | backend/services/mesh/mesh_wormhole_dead_drop.py:951-966 | A composed message queued under a new id and delivered within a day has its change applied exactly when no legacy signature rewrote its format |
| DmPipeline.Composer.CommitIfPresent | backend/services/mesh/mesh_wormhole_dead_drop.py:951-966 | For a delivered payload the object applies the alias change, or none, that the pipeline's delivery step does |
| DmPipeline.Composer.ComposeDm | backend/main.py:9249-9464 | The function with its early returns composes and registers as specified |

## Left out

- HTTP, Tor, MQTT, subprocesses, CCTV proxying, market, satellite and geocode endpoints: input and output.
- HMAC, SHA-256, Ed25519 and MLS: uninterpreted functions or answers of helpers.
- Peer-store refresh and operator endpoints, privacy-claim, release-gate and DM-root status tables: large case tables and map updates that would only add easy members.
- `_bbox_filter`: its padding can turn a wide box across the antimeridian into another one, so covering the box needs extra bounds.
- Float rounding, NaN and infinities: coordinates, times and scores are exact reals; the finiteness test of the viewport has no counterpart.
- Stripping and lower-casing of request fields, and the parsing of malformed numbers and bodies: requests are modelled after normalisation.
- PublicSyncLoop.SyncFromPeer: leaves out the check that the answer is a list, the protocol version, the deadline of a request and the hydration of gate messages from the chain; the peer's chain only grows during the run, a peer that resets meanwhile is not covered.
- Chain.Infonet.IngestEvents: the checks after the linkage test (schema, network, replay filter, sequence, freshness, revocation, signature, hash) are one verdict on the event and the chain that can be another at each arrival and for each node; the freshness bound is written out, false positives of the replay filter and key bindings left by refused events are part of the verdict. Within one batch it does not change otherwise.
- PeerPush.RunAccounts: peers change by the pushes of the run alone; one that appends or syncs on its own meanwhile is not covered. The runs lie between two resets; what a reset does to the accounting is stated by CompleteExactly, NothingBelowCursor and DeliveredPushes.
- GateSync.GateStore.IngestPeerEvents: the checks of one event and its replay fingerprint are one verdict on the event at this call, with the bound on its age written out in PullFreshExactly; ids are those of the verified event.
- GateSync.RunStaysInStep: the peer's log only grows during a run, and events of other gates with the same id are not part of the runs, only of the classes.
- GateSync.HeldExactly: the batch holds events of one gate, as the push worker sends them; the rebuilding of each event from its known fields is left out.
- DmPoll.DmEndpoint.Poll: expiry of messages while they wait and the shared relay store behind the mailboxes are left out; an exception of the direct lane before it takes anything out is covered.
- ReplayCache.ReplayGuard.VerifyHmac: one verification is atomic, although the source awaits the request body (`backend/auth.py:363`) between the check and the record; two requests interleaved there are not covered.
- Throttle.ThrottleTable.CheckThrottle: the eviction policy of the table's cache is not modelled, an eviction ends the entry's life (EvictionForgets).
- GateSubmit.RunKeeps: removals from the release queue do not occur in the source; the source joins sender and gate with a colon into one cooldown key, the model keeps the pair. A restart drops all stamps; that it can also lose the sequences of the last moments before a crash, because they are written to disk with a delay, is left out.
- GateSubmit.RunSpaces: needs a clock that does not go back; the source takes the wall clock.
- LiveData.LiveStore.InjectData: states the effect if the version bump inside the locked block went through; as the lock is declared it does not (DataLock.BumpInsideBlocks).
- LiveData.LiveStore.RemoveInjected: the same, when something was removed.
- LiveData.LiveStore.TurimiquireTelemetry: the same; the list is appended to in place in the source; a reader that serialises it at that moment is not covered, each write is one step.
- LiveData.NotModifiedIsCurrent: freshness timestamps and totals derived in the payload, and the caps of the startup payload, are functions of the same data and flags and are left out.
- TimeMachine.Retraction: the sigint dictionary of lists and the layers without an expansion table are left out; for the latter playback keeps the short key of the name.
- EnvPin.RefreshOnce: a byte order mark and the line separator of the platform are left out; lower-casing is ASCII, which decides the same comparisons.
- EnvWrite.WriteEnvValue: writing to a temporary file and renaming it, and the copy into the process environment, are left out.
- DmSend.DmService.SendSigned: the nonce cache, the sequence table and the block list are answers of helpers; a failed save of the outbox leaves it unchanged, as in the source.
- DmPipeline.RunIsGood: pending alias changes are filed under peer, format and ciphertext as a triple; the source hashes the three joined by a bar.
