# Verification of the gateway's protocol engines

A Dafny model of the stateful parts of this repository, one module per component: the listener
registry and its dispatcher, the token refresh handshake and the token lookup, the voice session
loop, chunk reassembly and fragmentation, the CLAD wire format, the datagram, connection and named
transports, the multi-limiter and the connection-history ring. `dafny verify dfyconfig.toml` checks
everything.

Concurrent code is a labelled step relation (`State`, `Step`, `Enabled`, `Next`) over explicit
goroutine, lock and channel states; its theorems speak of every run from the initial state. Code
that updates an object in place is a class or a method over arrays, sequences and maps, proved
against functions on values, and the theorems are about those functions.

| File | Models |
|---|---|
| `Common.dfy` | bytes, options and the read buffer that every connection has |
| `ListenerTable.dfy` | the table `managedChannels` and its two updates, shared by the listener models |
| `ListenerProtocol.dfy` | every interleaving of create, delete callback, dispatch, clean-up and consumers |
| `ListenerCompletion.dfy` | when a dispatch can return, and when it never does |
| `ListenerHistory.dfy` | what runs of the registry come to, told from the steps taken and the state before them |
| `ListenerManager.dfy` | the registry as an object, one call at a time |
| `TokenHandshake.dfy` | callers, listener and updater over unbuffered channels |
| `TokenLookup.dfy` | the token list with its cached index |
| `TokenRace.dfy` | checks and list updates that interleave without a lock |
| `VoiceSession.dfy` | the event loop of the voice process and its log of effects |
| `VoiceHistory.dfy` | what that loop has done after any run, told from the events alone |
| `Reassembly.dfy`, `FeedCache.dfy` | camera and audio reassembly, on values and in the byte buffer |
| `FaceFragments.dfy` | cutting a face image into chunks |
| `UpdateProgress.dfy` | the filter on reported update progress |
| `UpdateRace.dfy` | the same where restarts and status loops interleave without a lock |
| `CladCodec.dfy`, `CladSchemas.dfy` | the wire format for any schema, and the schemas of the nested messages |
| `CladBuffer.dfy`, `DocMessages.dfy`, `RobotMessages.dfy`, `VisionMessages.dfy` | the generated methods themselves, on a mutable buffer |
| `WireLayout.dfy`, `DocRequests.dfy`, `RobotLayout.dfy` | the bytes of the messages, spelled out field by field |
| `Datagram.dfy`, `BaseConn.dfy`, `MultiRouting.dfy` | the IPC transports |
| `MultiLimiter.dfy` | an ordered list of token buckets |
| `ConnectRing.dfy` | the ring of connection samples and the page that shows it |

## What the proofs found

Where a property one would expect is false of the code, the model keeps the code and the proof says
exactly when the property holds.

- `SafeClose` alone is not safe to call twice: the second call panics if and only if the channel held
  at least two messages (`SafeCloseTwice`). The registry is safe because a channel is listed exactly
  while it is open.
- A dispatch with more than five late listeners never gives back its read lock, whatever else runs
  (`TooManyLateBlocksForever`), and then no other dispatch with a late listener returns either, because
  its clean-up needs the write lock. Wherever its goroutines are, a dispatch can still return if and
  only if it has no late listener or no dispatch holding the read lock, itself
  included, has more than five (`CompletesIffFewLate`). Delete callbacks are blocked by the same dispatches
  and no others (`DeletableIffFewLate`). A state in which six late listeners of one
  message block the dispatch of another with a single one is reachable (`BlockedByAnother`).
- A check whose update is due is not bound to wait for it: the notifications are anonymous, so it may get
  that of another check and look its token up in the old list. This can happen if and only if another
  check waits already or comes in meanwhile (`LookUpCanOvertakeIff`).
- A token check succeeds for an empty token while the per-runtime token is empty and any entry is
  stored, because the hash comparison accepts whatever equals the per-runtime token
  (`EmptyTokenAccepted`; `AcceptanceCondition` has the exact condition).
- Checks and list updates share the list and the cached index without a lock. Some interleaving makes an
  indexed read panic if and only if some list may be followed by a shorter one (`PanicsIffMayShrink`);
  as ForceUpdate puts in an empty one, that is as soon as there ever is a list with an entry
  (`ForcedPanicsIffEverFilled`). Some interleaving leaves the index out of range if and only if a list of
  two entries or more may be followed by a shorter one (`LeavesRangeIffMayShrinkLong`). With checks and
  updates kept apart neither happens (`SafeApart`).
- A bad hotword leaves `strm` on a stream that was already closed, and that stream is still answered
  (`ClosedStreamStillAnswered`).
- An image of several chunks whose id is 0xFFFFFFFF is never delivered, and a chunk that overflows the
  buffer its chunk 0 asked for brings the feed down (`FullSequenceResynchronises`, `CrashIffOverflow`),
  as does any data for an image of no pixels (`FirstChunkCrashesIff`, `ImageWithoutPixelsCrashes`).
- A restart and a turn of the status loop write the two progress globals without a lock. A poll between
  the two writes of a restart leaves its progress out of 1, and no later poll replaces that pair
  (`PolledInBetween`, `ReportedUntilRestart`). Some interleaving reports an invalid pair if and only if
  some sane poll has a progress above 1 (`InvalidIffPastOne`), and a pair that is neither a sane poll nor
  0/1 if and only if some sane poll expects more than one unit (`InventedIffMoreThanOne`). With two status
  loops no restart is needed (`TwoLoopsSuffice`); with the writes kept apart all reports are valid
  (`ValidApart`).
- The chunk count formula is the ceiling if and only if the remainder is neither 0 nor one less than
  the chunk size (`CountIsCeilingIff`).
- Decoding a boolean and encoding it again changes any byte above 1, so re-encoding reproduces the
  input if and only if every boolean byte was 0 or 1 (`Canonical`). The document messages have no
  booleans. Four byte length prefixes are not checked by Pack, so the round trip holds if and only if
  every length fits its prefix (`RoundTripIffInRange`).
- On the robot's 32 bit processor a four byte string length from 2^31 on makes Unpack of a document
  panic where it should fail: exactly when the bytes reach as far as that length (`DocCrashesIff`), 21
  bytes being enough (`DocThatCrashes`), and never for messages whose prefixes are shorter
  (`CheckedNeverCrashes`).
- A message from the engine is understood if and only if it fits the read buffer behind its two size
  bytes; a longer one is cut and refused (`ReceivedIffShort`).
- A second `Close` of a connection can panic; one cannot (`PanicIffTwoCloses`).
- A routed message arrives as it was sent if and only if its frame fits the read buffer on both legs,
  with the receiver's name and with the sender's (`IntactIffBothFit`, `IntactIffAllFit`); a payload of
  32768 bytes never does (`FullBufferIsCut`).
- `Send` reports the payload length when the whole frame is written, and also for one short write
  (`ReportedIsPayloadLength`).
- The connection page shows the finished samples as long as probes end in the order of their ticks, one
  fewer for each probe in flight (`WindowIsHistory`). It shows a slot still in flight if and only if
  some probe ended before an earlier one (`UnfinishedShownIff`), as happens when a probe times out; at
  first such a slot reads as a success of 0 ms (`InFlightShownAsSuccess`).

## Model

| member | source | states |
|---|---|---|
| ListenerTable.SwapRemoveMultiset | cloud/ipc_manager.go:143-144 | swap-remove loses exactly one occurrence of the removed element and keeps all others |
| ListenerTable.RemoveEffect | cloud/ipc_manager.go:139-155 | one deletion takes the channel out of its tag, leaves every other tag alone, and drops the key exactly when the list is empty |
| ListenerTable.RemoveAllEffect | cloud/ipc_manager.go:213-222 | a clean-up pass removes exactly the marked channels that are still present; the tag keeps a key iff a listener survives |
| ListenerProtocol.StepKeeps | cloud/ipc_manager.go:139-249 | every atomic step of every goroutine keeps the invariant "registered iff open, up to the channel being closed right now", exactly-once sends and lock discipline |
| ListenerProtocol.NoPanic | cloud/ipc_manager.go:139-249 | in no run is a channel closed twice or sent to after its close |
| ListenerProtocol.OneHomeWhileOpen | cloud/ipc_manager.go:139-181 | an open channel is in the table at exactly one tag and position, a closed one nowhere, in every reachable state |
| ListenerProtocol.DispatchEffect | cloud/ipc_manager.go:211-249 | once the read lock is released, each listener read under it accepted the message exactly once, or never and is marked; no other channel got it; at the end the marked ones are closed and gone |
| ListenerProtocol.CriticalSectionEffect | cloud/ipc_manager.go:139-164 | when a section unlocks, the table is the one recorded at its lock minus exactly the channels recorded there, which are all closed; CallbackEffect and CleanUpEffect say which those are |
| ListenerCompletion.FanOutStep | cloud/ipc_manager.go:232-248 | each step of a dispatch lowers a rank until it can unlock; steps of others leave it alone |
| ListenerCompletion.StuckOnlyWhenMarksFull | cloud/ipc_manager.go:212-249 | a dispatch without an enabled step of its own has more than five late listeners |
| ListenerCompletion.TooManyLateBlocksForever | cloud/ipc_manager.go:212-249 | with more than five late listeners no continuation releases the read lock, creates or deletes a channel; BlockedByAnother reaches such a state |
| ListenerCompletion.ReleaseReader | cloud/ipc_manager.go:232-248 | a reading dispatch with at most five late listeners can release the read lock from wherever its goroutines are, and no further listener becomes late |
| ListenerCompletion.ReleaseAll | cloud/ipc_manager.go:223-249 | if no reading dispatch has more than five late listeners, all of them can, so that the write lock becomes free |
| ListenerCompletion.Finish | cloud/ipc_manager.go:213-222 | from the released read lock a dispatch comes to its end, through its clean-up if it has marks and the write lock is free |
| ListenerCompletion.NeverDone | cloud/ipc_manager.go:211-249 | while some dispatch reads with more than five late listeners, no dispatch with a clean-up before it returns, in any continuation |
| ListenerCompletion.CompletesIffFewLate | cloud/ipc_manager.go:211-249 | a dispatch that holds the read lock can still return, clean-up included, iff it has no late listener or no dispatch holding the read lock has more than five |
| ListenerCompletion.BlockedByAnother | cloud/ipc_manager.go:211-249 | reachable from the start: six late listeners of one message, and the dispatch of another message with one late listener that can never return |
| ListenerHistory.AsCreated | cloud/ipc_manager.go:167-181 | over every run the channels are those of the creations, in order, with their tags and capacities, and the dispatches those of the calls, with their tags and messages |
| ListenerHistory.CallbackEffect | cloud/ipc_manager.go:157-163 | over every run and every interleaving up to its unlock, a delete callback closes its channel, takes exactly it out of its tag, and leaves all other channels and tags as they were at its lock |
| ListenerHistory.CleanUpEffect | cloud/ipc_manager.go:213-222 | the same for a clean-up: exactly the marked listeners are closed and delisted |
| ListenerHistory.DeliveredOnceOrClosed | cloud/ipc_manager.go:211-249 | when a dispatch is done, each channel listed at its read lock has accepted exactly its message exactly once, or never and is closed and gone; no other channel ever accepts it |
| ListenerHistory.ConsumerGetsAll | cloud/ipc_manager.go:199-208 | over every run what has left an open channel is what its consumer was given; deleting a channel loses at most one message |
| ListenerHistory.DeletableIffFewLate | cloud/ipc_manager.go:157-163 | some schedule carries out the callback of a channel iff no dispatch that holds the read lock has more than five late listeners |
| ListenerProtocol.SafeCloseTwice | cloud/ipc_manager.go:199-208 | SafeClose of its own result panics iff the open channel held two messages or more |
| ListenerManager.Manager.CreateChannel | cloud/ipc_manager.go:167-181 | a fresh open channel is appended under its tag; registered iff open is kept |
| ListenerManager.Manager.CreateUniqueChannel | cloud/ipc_manager.go:185-196 | succeeds iff every channel ever created for the tag is closed, and then is the tag's only listener |
| ListenerManager.Manager.SafeClose | cloud/ipc_manager.go:199-208 | panics iff the channel was closed and still held a message; else the channel is closed, one buffered message lost |
| ListenerManager.Manager.DeleteListenerUnsafe | cloud/ipc_manager.go:139-155 | never panics on a channel of the registry, however often it is called; the table changes as RemoveEffect describes |
| ListenerManager.Manager.Cleanup | cloud/ipc_manager.go:213-222 | closes all marked channels and changes the table as RemoveAllEffect describes |
| ListenerManager.Manager.FanOut | cloud/ipc_manager.go:232-248 | every listener with room gets the message appended once; the full ones are marked; blocked iff more than five are full |
| ListenerManager.Manager.AfterFanOut | cloud/ipc_manager.go:213-222 | the deferred clean-up closes and removes the marked listeners and leaves the others of the dispatch alone |
| ListenerManager.Manager.SendToListeners | cloud/ipc_manager.go:211-249 | completes iff at most five listeners are full; then exactly those are closed and removed and all others hold the message once more |
| TokenHandshake.StepKeeps | cloud/tokens.go:257-288 | every step keeps "callers waiting = notifications owed" and "a force caller waits iff the updater holds its channel" |
| TokenHandshake.NotificationsConserved | cloud/tokens.go:111-113 | conservation over every run, with at most two notifications owed |
| TokenHandshake.UpdatesNeverOverlap | cloud/tokens.go:274-288 | starts and ends of updates alternate in every history |
| TokenHandshake.Progress | cloud/tokens.go:264-288 | while any caller is pending some step other than an arrival is enabled |
| TokenHandshake.RankFalls | cloud/tokens.go:264-288 | every step other than an arrival lowers the ranking function |
| TokenHandshake.EveryoneServed | cloud/tokens.go:257-288 | without arrivals every schedule ends within the rank, and one that cannot go on has served every caller |
| TokenHandshake.NeverDeadlocked | cloud/tokens.go:257-288 | no reachable state with a pending caller is stuck |
| TokenHandshake.UpdatesAreAccounted | cloud/tokens.go:264-288 | over every run, counted in its steps: each check is decided once, the updates started are those of the due checks and the forced ones, checks that are not due are answered without, and the answers of the updater follow updates that have ended |
| TokenHandshake.ServedEitherWay | cloud/tokens.go:264-270 | a check on its own has one whole update before its look-up if it is decided due, and none otherwise |
| TokenHandshake.LookUpCanOvertakeIff | cloud/tokens.go:111-113 | a check whose update is due can go on to its look-up before a whole update has passed iff another check waits already or further checks may come in |
| TokenLookup.ClientTokenManager.FirstMatch | cloud/tokens.go:127-137 | the plain search: the first entry that matches, and none before it does |
| TokenLookup.ClientTokenManager.CheckToken | cloud/tokens.go:115-138 | succeeds iff the plain search over the list does (or the per-runtime token is given), names a matching entry, keeps the index in range and moves it only to a match |
| TokenLookup.ClientTokenManager.ForceUpdate | cloud/tokens.go:257-260 | empties the list and resets the index |
| TokenLookup.ClientTokenManager.DecodeTokenJdoc | cloud/tokens.go:141-159 | replaces the list, or invalidates it with the placeholder entry, and resets the index |
| TokenLookup.ClientTokenManager.AcceptanceCondition | internal/token/compare_and_hash.go:35-63 | the exact set of accepted tokens in terms of stored hashes and the per-runtime token |
| TokenLookup.EmptyTokenAccepted | internal/token/compare_and_hash.go:35-63 | with an empty per-runtime token and any stored entry the empty token is accepted, though it matches no hash |
| TokenLookup.Replay | cloud/tokens.go:111-159 | over any sequential history of checks, updates and decodes every check decides as the plain search over the list of that moment |
| TokenRace.StepKeeps | cloud/tokens.go:119-136 | every read or write of a check or update keeps the index in range, if checks and updates are never under way together |
| TokenRace.WholeCheck | cloud/tokens.go:119-136 | a check that nothing gets in between ends, and moves the index only if the cached entry did not match and another did |
| TokenRace.SafeApart | cloud/tokens.go:115-159 | in runs that keep checks and updates apart no indexed read panics and the index is 0 or in range |
| TokenRace.EmptiedInBetween | cloud/tokens.go:119-122 | wherever a list has an entry: emptying it between the length test and the read makes the check panic |
| TokenRace.StaleIndexWritten | cloud/tokens.go:127-134 | a check that writes its index after a shorter list was put in leaves the index out of range |
| TokenRace.ResetUndone | cloud/tokens.go:141-144 | a whole check between the index reset and the new list of an update leaves the index out of range |
| TokenRace.OutOfRangeThenPanics | cloud/tokens.go:119-122 | with the index out of range and entries in the list the next check panics |
| TokenRace.PanicsIffMayShrink | cloud/tokens.go:115-159 | from a list of any length, with updates to lists of any given lengths: some interleaving panics iff some list may be followed by a shorter one |
| TokenRace.LeavesRangeIffMayShrinkLong | cloud/tokens.go:115-159 | some interleaving leaves the index out of range iff a list of two entries or more may be followed by a shorter one |
| TokenRace.ForcedPanicsIffEverFilled | cloud/tokens.go:257-260 | with ForceUpdate among the updates a panic is possible iff some list ever has an entry |
| VoiceSession.StepKeeps | internal/voice/process.go:166-349 | every event keeps: `strm` names the newest stream until its terminal reply, replies go to the newest stream, every other stream is closed |
| VoiceSession.SessionSafety | internal/voice/process.go:166-349 | over every run: at most one terminal reply per stream and nothing after it, replies only to the newest stream, unclosed streams are current, each answer is preceded by the mic stop and followed by the close |
| VoiceSession.ActedOnIffNewestUnanswered | internal/voice/process.go:272-339 | an event of a stream is acted on iff that stream is the newest ever created and has had no terminal reply |
| VoiceSession.ClosedStreamStillAnswered | internal/voice/process.go:172-230 | a concrete run in which a bad hotword closes the current stream and that stream's intent is still passed on |
| VoiceHistory.AudioReachesCurrent | internal/voice/process.go:234-251 | over every run, told from the events: the audio fed and the ends of audio are exactly those that came while some stream was the newest and unanswered, in order, each for that stream |
| VoiceHistory.StreamsOpenAndClose | internal/voice/process.go:174-269 | which hotwords and checks open a stream, of which kind, what closes one, and that the loop's variable is the newest unanswered stream |
| VoiceHistory.RepliesAreThoseOfCurrent | internal/voice/process.go:272-339 | the replies are, in order, those to the events of the stream current at that moment, each with the result, error, session, or connection report with its code, text and counts |
| VoiceHistory.NoticesOfRun | internal/voice/process.go:179-206 | the microphone hears of test hotwords and of current answers, the intent writers of bad hotwords and debug files, and of nothing else |
| VoiceHistory.ComesNextIff | internal/voice/process.go:106-134 | an event can come next iff its stream was opened and is of the kind that has the event's channel |
| VoiceSession.Process.OnHotword | internal/voice/process.go:174-229 | a hotword closes the current stream and opens a new one only for a known mode and locale; otherwise `strm` stays |
| VoiceSession.Process.OnMessage | internal/voice/process.go:231-270 | the other receiver messages, effect by effect; VoiceHistory says from the events what those effects are |
| VoiceSession.Process.Answer | internal/voice/process.go:272-339 | a stale answer changes nothing; a current one is passed on, closes the stream and clears `strm` |
| VoiceSession.Process.OnStreamEvent | internal/voice/process.go:272-339 | what each kind of stream result does |
| VoiceSession.Process.Loop | internal/voice/process.go:166-349 | the loop over any events leaves the state and log of the run that the theorems speak of |
| Reassembly.UnpackFollows | cloud/message_handler.go:2778-2817 | one unpack extends, restarts or breaks the run in the cache; it crashes iff the run overflows and is ready iff the run is complete |
| Reassembly.FeedRefinesReference | cloud/message_handler.go:2847-2858 | the feed over the mutable cache emits exactly the frames of a definition that knows only the chunk history |
| Reassembly.HeldIsSuffix | cloud/message_handler.go:2778-2817 | what is held is always a suffix of the input that is a contiguous run without a complete prefix |
| Reassembly.FrameIffImage | cloud/message_handler.go:2778-2817 | soundness and completeness: a chunk makes a frame iff some suffix ending in it is chunks 0..k-1 of one id, k declared by the last, fitting the buffer; the frame is exactly their payloads in order |
| Reassembly.CrashIffOverflow | cloud/message_handler.go:2811-2812 | the feed goes down on exactly the chunks that overflow the buffer of their run |
| Reassembly.FirstChunkCrashesIff | cloud/message_handler.go:2800-2812 | one chunk is enough: a chunk 0 with more data than the buffer it asks for |
| Reassembly.ImageWithoutPixelsCrashes | cloud/message_handler.go:2800-2812 | any data for an image of width 0 brings the feed down |
| Reassembly.PartialSequence | cloud/message_handler.go:2778-2817 | from any cache state the first j chunks of a full sequence leave exactly those chunks in the cache |
| Reassembly.FullSequenceResynchronises | cloud/message_handler.go:2847-2858 | from any cache state a full in-order sequence that fits gives one frame, at its last chunk, with the whole payload, unless it has several chunks and the sentinel id |
| Reassembly.CameraImageArrives | cloud/message_handler.go:2800-2801 | an image of at most width*height*3 bytes, in uint32 arithmetic, arrives whole from any cache state |
| Reassembly.AudioGroupArrives | cloud/message_handler.go:2433-2472 | an audio group of at most 1600 two byte samples arrives whole from any cache state |
| Reassembly.AudioChunkCrashesIff | cloud/message_handler.go:2433-2472 | the first chunk of an audio group brings a fresh feed down iff it holds more than 3200 bytes |
| FeedCache.FeedCache.Reset | cloud/message_handler.go:2769-2776 | the cache after a reset |
| FeedCache.FeedCache.CopyIn | cloud/message_handler.go:2811-2813 | the payload is in the array from `size` on and no other byte changed |
| FeedCache.FeedCache.UnpackChunk | cloud/message_handler.go:2433-2472 | the unpacker on the byte array computes the unpacker on values, new array or old |
| FeedCache.FeedLoop | cloud/message_handler.go:2508-2533 | the loop over the array emits the frames of the value model, so FrameIffImage speaks of it |
| FaceFragments.Convert | cloud/message_handler.go:808-815 | the quotient and remainder by 256 of each pixel are its two bytes, high byte first; a run-time error iff a slice or array bound is passed |
| FaceFragments.MakeChunk | cloud/message_handler.go:803-818 | chunk number, count and pixel count of the message, and the part of the image it decodes to |
| FaceFragments.SendFaceDataAsChunks | cloud/message_handler.go:798-827 | all chunks are sent iff the bounds hold and no write fails; in every case what is received, written out again high byte first, is the data as far as it goes, all of it on success |
| FaceFragments.CountIsCeilingIff | cloud/message_handler.go:831-831 | (N+P+1)/P is the least count that covers N pixels iff N mod P is neither 0 nor P-1 |
| FaceFragments.FaceImageIsCovered | cloud/message_handler.go:829-833 | the robot's face, 17664 pixels by 600, takes 30 chunks and meets all bounds |
| UpdateProgress.UpdateStatus.Report | cloud/message_handler.go:3011-3021 | what is reported is the polled or the last good pair, never behind the last one, and never behind a sane poll |
| UpdateProgress.StatusStream | cloud/message_handler.go:2996-3021 | over any history of whole restarts and whole turns of the loop, one after the other, all reported pairs are valid, come from a poll of their stretch or are 0/1, and never fall within a stretch |
| UpdateRace.ValidApart | cloud/message_handler.go:3011-3021 | in every interleaving that keeps writes and copies of the two globals apart all reports are valid |
| UpdateRace.PolledInBetween | cloud/message_handler.go:3113-3114 | a poll between the two writes of a restart leaves its progress out of 1 |
| UpdateRace.ReportedUntilRestart | cloud/message_handler.go:3011-3021 | such a pair is replaced by no poll at all: until the next restart every report is it |
| UpdateRace.InvalidIffPastOne | cloud/message_handler.go:3111-3115 | over all interleavings of restarts and status loops an invalid report is possible iff some sane poll has a progress above 1 |
| UpdateRace.InventedIffMoreThanOne | cloud/message_handler.go:3111-3115 | some interleaving reports a pair that is neither a sane poll nor 0/1 iff some sane poll expects more than one unit |
| UpdateRace.TwoLoopsSuffice | cloud/message_handler.go:3011-3021 | with two status loops a mixed pair is reported without any restart |
| UpdateRace.AcceptedIsOwnPoll | cloud/message_handler.go:3011-3021 | a turn that accepts reports the pair it polled itself, a sane one, whatever others write meanwhile |
| CladCodec.DecEnc | internal/clad/cloud/docs.go:35-84 | little-endian numbers survive encoding when they fit the width |
| CladCodec.EncDec | internal/clad/cloud/docs.go:35-84 | bytes survive decoding to a number and encoding again |
| CladCodec.UnpackPacked | internal/clad/gateway/messageRobotToExternal.go:653-700 | for every schema: unpacking packed bytes followed by anything gives the value and leaves exactly what followed |
| CladCodec.RoundTripIffInRange | internal/clad/cloud/docs.go:77-82 | that round trip holds iff every length fits its prefix |
| CladCodec.CheckedRoundTrip | internal/clad/gateway/messageRobotToExternal.go:677-700 | for schemas whose prefixes Pack checks, a successful Pack is enough |
| CladCodec.UnpackedFits | internal/clad/gateway/messageRobotToExternal.go:139-175 | whatever Unpack returns has the shape of the schema and lengths in range |
| CladCodec.UnpackExtends | internal/clad/cloud/docs.go:441-453 | Unpack looks at no byte beyond those it consumes |
| CladCodec.StrictPrefixFails | internal/clad/vision/offboardVision.go:52-98 | unpacking any strict prefix of a packed message fails |
| CladCodec.PrefixFree | internal/clad/vision/offboardVision.go:100-143 | no packed message is the beginning of another one of its type |
| CladCodec.Canonical | internal/clad/cloud/docs.go:35-84 | packing again what was unpacked succeeds with as many bytes as were consumed, and with the same bytes iff every boolean byte was 0 or 1 |
| CladCodec.BoolFreeClean | internal/clad/cloud/docs.go:581-656 | schemas without booleans always meet that condition |
| CladCodec.CrashesFails | internal/clad/cloud/docs.go:50-57 | with fewer than 2^31 bytes in the buffer, a 32 bit int turns into a panic only what would be a failure |
| CladCodec.CheckedNeverCrashes | internal/clad/gateway/messageRobotToExternal.go:653-675 | a schema without four byte prefixes has no input that panics |
| CladCodec.SizeIsLength | internal/clad/cloud/docs.go:297-308 | Size is the number of bytes of a successful Pack, in uint32 arithmetic |
| CladSchemas.CanonicalWithSize | internal/clad/gateway/messageRobotToExternal.go:642-700 | for any message: Size of what was unpacked is the number of bytes consumed, and packing it again gives those bytes iff the booleans were clean |
| CladSchemas.DocumentsAreCanonical | internal/clad/cloud/docs.go:581-656 | document requests and responses, with all nested lists and the union tag, re-encode to exactly the bytes consumed |
| WireLayout.NumbersLowByteFirst | internal/clad/cloud/docs.go:62-67 | numbers of every width are written low byte first |
| WireLayout.TextLayout | internal/clad/cloud/docs.go:68-82 | a string is its length and its bytes; too long for one or two length bytes it is refused |
| WireLayout.DocLayout | internal/clad/cloud/docs.go:61-84 | a document is DocVersion, FmtVersion, the short metadata and the long JSON, byte by byte |
| WireLayout.UnionLayout | internal/clad/cloud/docs.go:588-656 | a union is its tag byte and the value behind it, without a value the byte 255; a tag with nothing behind it is refused |
| DocRequests.RequestLayout | internal/clad/cloud/docs.go:588-600 | tag 0 to 4 and the fields of each request in order, spelled in bytes; refused iff something is too long for its prefix |
| DocRequests.RequestReceivedIff | internal/clad/cloud/docs.go:602-656 | those bytes, whatever follows them, are read as that request iff a document in it has JSON below 4 GiB; any other tag is refused |
| DocRequests.ResponseLayout | internal/clad/cloud/docs.go:923-935 | tag 0 to 5 and the fields of each response in order, spelled in bytes |
| DocRequests.ResponseReceivedIff | internal/clad/cloud/docs.go:937-997 | those bytes are read as that response iff all JSON in it is below 4 GiB; any other tag is refused |
| CladSchemas.RobotMessagesRoundTrip | internal/clad/gateway/messageRobotToExternal.go:2020-2240 | the robot union around a completed action, enrolled names or an observed face: whenever Pack of the message succeeds, the tag and its bytes make the round trip and every truncation is refused |
| RobotLayout.FaceLayout | internal/clad/gateway/messageRobotToExternal.go:1425-1505 | an observed face, its nested structs and six lists, spelled in bytes |
| RobotLayout.RobotMessageLayout | internal/clad/gateway/messageRobotToExternal.go:2027-2040 | tags 1, 5 and 6 and the fields of the three robot messages, spelled in bytes; those bytes, whatever follows them, are read as that message |
| CladSchemas.WrittenSize | cloud/ipc_manager.go:488-507 | Write sends two bytes and then the message; the two bytes tell its length iff it is below 65536 |
| CladSchemas.ReceivedIffShort | cloud/ipc_manager.go:627-643 | a message behind any two bytes is decoded to its value iff the read buffer holds it all, and else refused |
| CladSchemas.RobotMessageReceived | cloud/ipc_manager.go:623-643 | the same for the three robot messages as the engine sends them, on success of Pack alone |
| CladBuffer.Buffer.ReadUInt | internal/clad/cloud/docs.go:36-41 | a number is read whole or not at all; a short read uses up the buffer |
| CladBuffer.Buffer.ReadText | internal/clad/cloud/docs.go:42-49 | length, Next and the length comparison together read a string of the wire format, and cannot panic with a one or two byte length |
| CladBuffer.Buffer.ReadLongText | internal/clad/cloud/docs.go:50-57 | the same with a four byte length, which panics iff it is 2^31 or more |
| CladBuffer.Buffer.ReadUInt32s | internal/clad/gateway/messageRobotToExternal.go:663-670 | the one-go read of a slice of numbers is the element by element format, and fails exactly when four bytes per element are not there |
| CladBuffer.Buffer.WriteUInt32s | internal/clad/gateway/messageRobotToExternal.go:693-695 | the one-go write of a slice is the element by element format |
| CladBuffer.Buffer.WriteText | internal/clad/cloud/docs.go:68-76 | the length check, prefix and bytes together write a string of the wire format or refuse it |
| DocMessages.PackDoc | internal/clad/cloud/docs.go:61-84 | appends both versions, the short metadata and the long JSON, byte by byte; fails iff the metadata has 256 bytes or more, leaving a longer buffer |
| DocMessages.UnpackDoc | internal/clad/cloud/docs.go:35-59 | on success the bytes read are those of the document returned; fails where the format does, and panics on exactly the inputs of DocCrashesIff |
| DocMessages.DocBytesUnpack | internal/clad/cloud/docs.go:35-59 | the bytes of a document, whatever follows them, are read as that document if its JSON is below 4 GiB |
| DocMessages.DocCrashesIff | internal/clad/cloud/docs.go:50-57 | a document panics with a 32 bit int iff its bytes reach as far as the length of JsonDoc and that is 2^31 or more |
| DocMessages.DocThatCrashes | internal/clad/cloud/docs.go:441-453 | 21 bytes that panic as a document, and as the one item of a read response |
| DocMessages.SizeOfDoc | internal/clad/cloud/docs.go:24-33 | the running uint32 sum is the size of the format |
| DocMessages.PackResponseDoc | internal/clad/cloud/docs.go:412-420 | a struct inside a struct, written as the format says |
| DocMessages.UnpackResponseDoc | internal/clad/cloud/docs.go:402-410 | a struct inside a struct, read as the format says, with the panics of the inner one |
| DocMessages.SizeOfResponseDoc | internal/clad/cloud/docs.go:395-400 | its size, through the nested call |
| DocMessages.ReadResponse.Pack | internal/clad/cloud/docs.go:455-468 | appends the count and the items, byte by byte, or fails iff there are too many items or some metadata is too long |
| DocMessages.ReadResponse.Unpack | internal/clad/cloud/docs.go:441-453 | the loop that fills the freshly made slice reads the list format: the bytes read are those of the items, same failures, and a panic iff an item read after good ones panics |
| DocMessages.ReadResponse.Size | internal/clad/cloud/docs.go:432-439 | the loop that sums in uint32 gives the size of the format |
| DocMessages.ReadResponseRoundTrip | internal/clad/cloud/docs.go:432-468 | a packed response comes back, item by item with what follows left over, iff every JsonDoc is below 4 GiB |
| RobotMessages.PackCompletion | internal/clad/gateway/messageRobotToExternal.go:125-137 | writes the byte 255, or the byte 1 and the animation's name, refused iff that is too long |
| RobotMessages.UnpackCompletion | internal/clad/gateway/messageRobotToExternal.go:139-175 | the tag decides what is read; an unknown tag fails |
| RobotMessages.SizeOfCompletion | internal/clad/gateway/messageRobotToExternal.go:118-123 | the size of the union as it is written |
| RobotMessages.RobotCompletedAction.Pack | internal/clad/gateway/messageRobotToExternal.go:677-700 | appends three numbers, the counted number list and the nested union, byte by byte, or fails iff the list or the name is too long |
| RobotMessages.RobotCompletedAction.Unpack | internal/clad/gateway/messageRobotToExternal.go:653-675 | on success the bytes read are those of the receiver's new fields and the buffer holds the rest; fails where the format does |
| RobotMessages.RobotCompletedAction.Size | internal/clad/gateway/messageRobotToExternal.go:642-651 | the sum with the multiplied list length is the size of the format |
| RobotMessages.RobotCompletedActionRoundTrip | internal/clad/gateway/messageRobotToExternal.go:653-700 | what one object packed another unpacks, field by field, with exactly the remainder, whenever Pack succeeded |
| VisionMessages.OffboardImageReady.Pack | internal/clad/vision/offboardVision.go:100-143 | appends four numbers, two boolean bytes, the counted strings and the name, byte by byte, or fails iff one of them is too long |
| VisionMessages.OffboardImageReady.Unpack | internal/clad/vision/offboardVision.go:52-98 | the receiver's fields are the decoded message and the buffer holds the rest, or both this and the format fail |
| VisionMessages.ImageRead | internal/clad/vision/offboardVision.go:52-98 | the message's bytes, whatever follows them, are read as the message, a boolean being true for every byte but 0 |
| VisionMessages.OffboardImageReady.Size | internal/clad/vision/offboardVision.go:34-50 | the running uint32 sum is the size of the format |
| VisionMessages.PackTexts | internal/clad/vision/offboardVision.go:119-134 | the loop over ProcTypes writes a list of strings, refusing a list or a string that is too long |
| VisionMessages.UnpackTexts | internal/clad/vision/offboardVision.go:72-88 | the loop over ProcTypes reads a list of strings |
| VisionMessages.OffboardImageReadyRoundTrip | internal/clad/vision/offboardVision.go:52-143 | what one object packed another unpacks, field by field, with exactly the remainder, whenever Pack succeeded |
| Datagram.InboxAppend | internal/ipc/dgram.go:113-137 | what one more packet adds to the filtered sequence of an address |
| Datagram.ConnectsWithAnkiconn | internal/ipc/dgram.go:118-134 | from the eight letters ANKICONN on, and from no other first packet, an address is given what it sends |
| Datagram.OneClientPerAddress | internal/ipc/dgram.go:127-134 | the clients offered to Accept are distinct and are exactly the addresses that sent a connection packet |
| Datagram.InboxGrows | internal/ipc/dgram.go:91-142 | what an address has been given only ever grows at its end |
| Datagram.PacketListener.Handle | internal/ipc/dgram.go:105-137 | one packet through the reused buffer refines the filter; copies delivered before keep their contents |
| Datagram.PacketListener.CutShort | internal/ipc/dgram.go:115-134 | a turn whose select never hands over loses its copy, or leaves in the map one new client that nobody was offered |
| Datagram.Serve | internal/ipc/dgram.go:91-142 | for every packet sequence, however the loop ends or gets stuck: each client holds a prefix of its address's packets after the first connection packet, those removed, as separate copies, and the clients offered are exactly those of the full turns |
| BaseConn.StepKeeps | internal/ipc/baseconn.go:22-46 | every step of reader, consumers and closers keeps the invariant, unless it closes the read channel a second time |
| BaseConn.ConnectionSafety | internal/ipc/baseconn.go:63-95 | with at most one Close: no send on the closed channel, a nil read only after the kill, deliveries in order and without a gap before it |
| BaseConn.PanicIffTwoCloses | internal/ipc/baseconn.go:22-28 | some interleaving panics iff Close is called at least twice |
| BaseConn.CloseProgress | internal/ipc/baseconn.go:22-28 | until Close returns, a step that needs neither peer nor consumer is enabled; a reader in its read gets out by the close of the socket alone |
| BaseConn.CloseReturns | internal/ipc/baseconn.go:22-28 | no schedule of such steps outlasts the work left, and one that cannot go on has let Close return |
| BaseConn.NextFromHistory | internal/ipc/baseconn.go:63-95 | what can happen next, told from the history: arrivals until the socket is closed, deliveries always, drops and nil answers from the kill on |
| BaseConn.OfferedCanBeDelivered | internal/ipc/baseconn.go:88-92 | before a kill the message on offer can be delivered, and then everything read has been |
| BaseConn.AllCanBeDelivered | internal/ipc/baseconn.go:63-95 | some run reads and delivers any messages, in order |
| MultiRouting.IndexOfNul | internal/ipc/multi/client.go:27-27 | the first NUL, or -1 iff there is none |
| MultiRouting.ReceiveRoundTrip | internal/ipc/multi/client.go:22-34 | a frame that was read whole is received as (from, payload) iff the name is non-empty and NUL-free, whatever the payload |
| MultiRouting.DestinationRoundTrip | internal/ipc/multi/server.go:95-120 | the server splits a frame into (dest, payload) iff the name is NUL-free |
| MultiRouting.ReportedIsPayloadLength | internal/ipc/multi/client.go:48-56 | Send reports the payload length iff the whole frame was written, or a write no longer than the header happens to be that long |
| MultiRouting.OwnerIsLastRegistered | internal/ipc/multi/server.go:139-141 | a name belongs to the connection that registered under it and after which none did |
| MultiRouting.OneMessage | internal/ipc/multi/client.go:22-34 | where a frame of any length goes and what is left of it, after the cut of the read buffer |
| MultiRouting.IntactIffBothFit | internal/ipc/baseconn.go:67-94 | a message reaches its client as it was sent iff its frames with the receiver's and with the sender's name are both at most 32768 bytes |
| MultiRouting.FullBufferIsCut | internal/ipc/baseconn.go:67-94 | a payload of 32768 bytes between clients with one letter names loses its last two bytes |
| MultiRouting.EndToEnd | internal/ipc/multi/server.go:95-148 | over any run with well-formed names and payloads of any length, each client receives exactly what the read buffers leave of each message, in order |
| MultiRouting.IntactIffAllFit | internal/ipc/multi/server.go:95-148 | with names as the handshake lets them through, that is every message meant for it, sender and payload intact, iff all of them fit |
| MultiRouting.Server.Forward | internal/ipc/multi/server.go:130-137 | the message is written to the owner of its destination, or to nobody |
| MultiRouting.Server.AddClient | internal/ipc/multi/server.go:139-141 | a name belongs to the connection registered last under it |
| MultiRouting.MessageRoutine | internal/ipc/multi/server.go:123-148 | the routing loop writes what the end-to-end theorems speak of |
| MultiLimiter.MultiLimiter.Allow | cloud/multilimiter.go:21-28 | granted iff every bucket has a burst and, with the time since its last use, a whole period saved; then each has exactly one period less; if one has none, those before it pay all the same and the others do not |
| MultiLimiter.Balance | cloud/multilimiter.go:21-28 | grants paid for plus credit left never exceed a full bucket plus the time passed, for every bucket |
| MultiLimiter.WindowBound | cloud/multilimiter.go:21-28 | over any calls at non-decreasing times the grants in a window of length T are at most burst + floor(T/period), for every bucket |
| MultiLimiter.SavedTokensAreGranted | cloud/multilimiter.go:21-28 | if every bucket has k tokens saved, the next k calls are granted, whenever they are made |
| MultiLimiter.BurstIsGranted | cloud/multilimiter.go:21-28 | calls at one moment on full buckets: as many are granted as the smallest burst, no more |
| MultiLimiter.TokenSchedule | cloud/tokens.go:66-83 | from full buckets an update each minute is granted three times, the fourth iff a quarter of an hour has passed since the first; with one each quarter after that, the seventh iff an hour has |
| MultiLimiter.SixIdleHoursRefill | cloud/tokens.go:66-83 | six idle hours refill all three buckets, and an empty hourly one not a moment earlier |
| ConnectRing.ConnData.Tick | internal/cloudproc/dev/connect.go:40-52 | a tick claims the slot of the running number and, once round, drops the oldest sample |
| ConnectRing.ConnData.ProbeEnds | internal/cloudproc/dev/connect.go:53-73 | a probe that ends, in whatever order, fills in the slot its tick claimed and no other |
| ConnectRing.ConnData.WindowTicks | internal/cloudproc/dev/connect.go:114-125 | the window shows as many ticks as probes have ended, from tick t-719 on, finished samples for those that have ended, and never the slot claimed next |
| ConnectRing.ConnData.WindowIsHistory | internal/cloudproc/dev/connect.go:114-125 | while probes end in tick order the window is exactly the finished samples of the last 719 ticks, oldest first: 719 of them less those in flight |
| ConnectRing.ConnData.UnfinishedShownIff | internal/cloudproc/dev/connect.go:114-125 | an unfinished slot is shown, and a finished sample missing at the end, iff some probe ended before that of an earlier tick |
| ConnectRing.Run | internal/cloudproc/dev/connect.go:35-76 | over any run of ticks and probes the ring stays sound, so the theorems about the window apply |
| ConnectRing.InFlightShownAsSuccess | internal/cloudproc/dev/connect.go:53-73 | two ticks whose probes end in reverse order: the page shows the one in flight, as a success, and not the one that ended |
| ConnectRing.Page | internal/cloudproc/dev/connect.go:78-131 | the rows cut the window, without loss and in order, into errors and the maximal stretches of successes between them |

## Left out

- The RPC handlers and the proto/CLAD field copiers: one request, one response, easy members only.
- gRPC, HTTP, TLS, S3, sockets, files: foreign I/O; their results are free inputs of the steps and methods.
- Generated protobuf code, JSON, base64 and SHA-256: the hash comparison is an uninterpreted predicate that is false on an empty hash.
- Logging, DAS, crash reports, ESN and certificate checks, weather, speech to text.
- internal/ipc/stream.go: its message boundaries rest on one full read per message.
- The camel-case URL expression and the locale parser; `localeOk` is the verdict of the latter.
- ListenerProtocol.NoPanic: CreateUniqueChannel is not a step, because its check and its creation are two critical sections; ListenerManager.Manager.CreateUniqueChannel has its sequential contract.
- ListenerCompletion.CompletesIffFewLate: says that a returning schedule exists, with consumers that take messages; fairness of Go's scheduler and timers is not modelled.
- ListenerManager.Manager.SendToListeners: no consumer runs during the call, so a listener is late iff it is full; ListenerProtocol has the consumers.
- ListenerTable.SwapRemoveMultiset: the lists are values; that the source's slices share no array with a running dispatch is the locks' doing in ListenerProtocol.
- ListenerManager.Manager.SafeClose: a panic is an out-parameter, and execution goes on after it.
- TokenHandshake.NotificationsConserved: when an update is due is a free choice, and ForceUpdate always gets a response channel it waits on, as both callers of it do.
- TokenHandshake.LookUpCanOvertakeIff: which of two waiting checks a notification reaches is a free choice; in Go it is the one that waits longest, as in the schedule of the proof.
- TokenHandshake.EveryoneServed: UpdateTokens is taken to return, though it blocks on the jdocs socket until that answers.
- TokenHandshake.UpdatesNeverOverlap: rests on there being one updater goroutine, which is how the model has it; the one call of UpdateTokens in Init comes before that goroutine starts.
- TokenLookup.Replay: histories are sequential; TokenRace has the interleavings, of list lengths only, with each read and write of the list and the index atomic, and whether an entry matches a free choice.
- TokenLookup.ClientTokenManager.DecodeTokenJdoc: fields that a failing unmarshal may have set before the list is replaced; files, UpdateTokens and its server exchange.
- VoiceSession.SessionSafety: intent writers are one output, without their fan-out, write errors and the error listener; the streams' own goroutines are the arrival of events; the receivers' multiplexing is left out.
- Reassembly.FrameIffImage: camera and audio share one model; a chunk carries the buffer size its own message would ask for, and a buffer of that size is always to be had.
- FeedCache.FeedLoop: one feed at a time, without the channel and the request stream around it; a client that hangs up ends the loop early.
- FaceFragments.SendFaceDataAsChunks: pixelsPerChunk is 600, as its only caller passes; a slice's capacity is taken to be its length.
- UpdateProgress.StatusStream: the float64 quotient is any function that keeps the order of exact fractions (and, for UpdateRace.InvalidIffPastOne, tells some progress from none), as it does below 2^53; its histories are sequential, UpdateRace has the interleavings, with each read and write of a global atomic.
- CladCodec.UnpackPacked: floats and signed numbers are their bit patterns, strings are bytes.
- CladSchemas.RobotMessagesRoundTrip: three arms of the robot union are spelled out, the others are a parameter; so in RobotLayout.RobotMessageLayout.
- CladSchemas.WrittenSize: what the engine and the switchboard make of it is not in this repository.
- RobotMessages.RobotCompletedAction.Unpack: what a failing Unpack leaves in the receiver and the buffer is not stated; the same holds for the other Unpack methods.
- DocMessages.PackDoc: Doc, ResponseDoc and the action union are embedded by value in the source and are datatypes here, so their Pack, Unpack and Size are functions of a value and not methods with a receiver.
- MultiLimiter.WindowBound: each rate limiter is an exact bucket over integer time; the float arithmetic of golang.org/x/time/rate is not part of this model.
- Datagram.Serve: what a client reads from its channel is what was handed to it; read errors only end the loop.
- BaseConn.ConnectionSafety: the copy out of the reader's buffer is left out (Datagram.PacketListener.Handle has the same code); messages are opaque.
- MultiRouting.EndToEnd: names are as the server read them in the handshake; its shutdown, failing writes, and what a cut message leaves unread on a stream socket.
- ConnectRing.Run: a probe ends before its slot is claimed again an hour later, as its timeout of one tick sees to, and its first statement, which stores the time, is taken with the tick; the text of the page's rows.
