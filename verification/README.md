# KMFlow, modelled and verified in Dafny

KMFlow shares one keyboard and mouse between two machines. Each machine runs a daemon. A
session between two daemons forwards captured input in datagrams, hands the focus over in
messages on an ordered control stream, and keeps the clipboards in step. This project models
the daemon's state machines and byte formats and proves properties of them for every input,
every run and every interleaving.

`dafny verify dfyconfig.toml` checks the whole project.

## How the model is laid out

- `Proto`: events, frames, control messages, and the casts of the source. Motion is `real`;
  `AsI32` truncates and saturates as `f64 as i32` does, `WrapI32` wraps as a release build does.
- `Tracker`, `EdgeDetection`: one axis of the clamped cursor; the edge detector with its corners.
- `Peer`: one session as a state machine, one function for each branch of the main loop and of
  the receive-only loop. `Session`: the class that updates the fields in place, each method
  proved equal to its function and its send logs to what the function sends.
- `FocusProtocol`: two sessions, two ordered control streams, and datagram paths that lose,
  reorder and duplicate. Either machine may fall back to its receive-only loop at any time.
- `Transitions`: every field of the state and every output of a step, said for both loops in
  terms of cursor paths, held sets and messages, and what follows for whole runs.
- `HeldKeys`, `Batching`, `Switching`, `ReceiveOnly`, `EdgeReach`, `CursorDrift`, `Grab`:
  theorems about runs of sessions.
- `Evdev`: the kernel record decoder and encoder, as classes over device queues, and what they
  do to each other. `EndToEnd`: capture, batching, replay and writing composed.
- `Lifecycle`, `Clipboard`, `Discovery`, `Wire`: shared daemon state under many sessions, echo
  suppression, the announced-peer table, and the byte formats.

One branch of a `select!` is one step, and one control message is received whole. Clocks are
integer milliseconds passed in. Where the source iterates over a hash set, any order is allowed.

## What turned out not to hold

- The design page (`PLAN.html:395`, `PLAN.html:587`) has held keys released whenever the focus
  switches. The code does so only in an emergency or at cleanup. After an ordinary hand-back the
  receiver keeps exactly what a replayed frame last pressed: for a period begun with nothing
  held, what the sender tracked when it sent the last frame replayed (`HandbackLeavesExactly`,
  `HandbackAfterAllFrames`). `HandbackStrandsKey` is a whole run that strands a key.
- Even the emergency flush misses one case; `EmergencyFlushes` says exactly which, and
  `EmergencyStrandsKey` is a run into it.
- One of the two loops never stamps a switch, so they agree if and only if no frame reaches the
  edge in the cooldown of just one of them (`LoopsAgreeIff`); `LoopsDifferInCooldown` shows one.
- Two returns of the focus keep 500 ms apart unless an emergency release, stamping nothing,
  comes between. Within the cooldown a session that is local again can return the focus a second
  time if and only if no focus message brought it back (`SecondReturnIff`); `EmergencyVoidsCooldown`
  returns twice in one millisecond.
- A failed grab is not retried by later polls (`FailedGrabIsNotRetried`): one poll puts the grab
  right if and only if a request is unseen or it was right already (`PollSettlesIff`), and a
  request is unseen if and only if something moved the focus since the last (`UnseenIffMoved`).
- A receive dropped half way stalls the stream or reads no message at all, and the receiver
  resumes if and only if the drop fell between two messages (`DroppedReceiveResumesIff`).
- A captured or received move that takes the i32 sum out of range, as a saturated cast can, throws
  the cursor to the opposite border in a release build (`TrackIsClampIff` says exactly when).
- Overlapping sessions void the reported connection state (`OverlapBreaksReport`); a poll between
  the two actions of a clipboard delivery echoes it (`EchoIff`, `OnePollEchoes`).

## Model

| member | source | states |
|---|---|---|
| FocusProtocol.FocusSafety | crates/kmflow-daemon/src/lib.rs:613-776 | in every reachable state of two daemons, under any interleaving and any datagram loss, reordering or duplication, both forward only while a focus message is still in flight |
| FocusProtocol.DrainLength | crates/kmflow-daemon/src/lib.rs:738-775 | delivery alone terminates: a run of deliveries is exactly as long as the work it does, two for a Ping and one for any other message, whatever the schedule |
| FocusProtocol.DrainedLeavesOneLocal | crates/kmflow-daemon/src/lib.rs:580-603 | from any reachable state, deliveries that cannot be extended have emptied both streams and leave at least one machine local |
| FocusProtocol.ForwarderIsServed | crates/kmflow-daemon/src/lib.rs:685-729 | then a machine that still forwards has a partner that replays each of its frames or takes the focus back |
| FocusProtocol.DrainOutcome | crates/kmflow-daemon/src/lib.rs:740-759 | deliveries leave a machine forwarding if and only if it was forwarding and no focus message was on its way to it |
| FocusProtocol.EmergencyFreesBoth | crates/kmflow-daemon/src/lib.rs:613-633 | the emergency chord at one machine leaves both local once the streams drain |
| FocusProtocol.HandoverCompletesIff | crates/kmflow-daemon/src/lib.rs:667-680 | after an edge hit the other machine ends local, and this one ends forwarding if and only if no focus message was crossing |
| Transitions.FocusMovesIff | crates/kmflow-daemon/src/lib.rs:613-713 | in either loop the focus leaves exactly when a local cursor comes to stand on a cell that fires, on received moves only 500 ms after the stamp, and comes home exactly by the chord of scancodes 29, 56 and 1 or a focus message |
| Transitions.FocusHistory | crates/kmflow-daemon/src/lib.rs:538-776 | after any run the focus is away if and only if some input took it and none since brought it home, or it was away at the start and none ever did |
| Transitions.StepSends | crates/kmflow-daemon/src/lib.rs:613-683 | SwitchFocus is sent exactly on reaching the edge, ReleaseFocus exactly on the chord, a batch exactly for other events captured while forwarding |
| Transitions.ReplaysIff | crates/kmflow-daemon/src/lib.rs:708-728 | a frame is replayed whole exactly if it finds a local session with an emulator and no move of it reaches the edge, and otherwise not at all; a session never replays what it captured |
| Transitions.GrabAskedIff | crates/kmflow-daemon/src/lib.rs:660-760 | the grab is asked for exactly on reaching the edge and dropped on the chord and on every focus message, but never by what the receive-only loop receives |
| Transitions.CursorFollows | crates/kmflow-daemon/src/lib.rs:659-706 | the cursor goes through exactly the moves a local session captures or receives, and to the centre on reaching the edge and on every focus message |
| Transitions.RestFollows | crates/kmflow-daemon/src/lib.rs:738-776 | the stamp changes with focus messages of the main loop only, the frame number with each frame, the loop when the capture ends |
| Transitions.PongsEchoPings | crates/kmflow-daemon/src/lib.rs:764-769 | along any run of either loop the Pongs sent echo the Pings received, each once and in order |
| Transitions.ChordInStream | crates/kmflow-daemon/src/lib.rs:946-950 | after any run the next captured event releases the focus exactly if the session forwards and, over everything captured, the last action on each of the three chord keys was a press |
| Transitions.CleanupEnds | crates/kmflow-daemon/src/lib.rs:780-800 | cleanup leaves the focus local and nothing tracked, and sends one frame of releases exactly if the session was forwarding and tracked something |
| HeldKeys.NoStuckKeys | crates/kmflow-daemon/src/lib.rs:610-658 | at every moment of a remote period over an in-order lossless path, whatever both machines do, the receiver holds no more than the sender tracked when it sent the last frame replayed; with the frames under way replayed too, no more than it tracks now |
| HeldKeys.ReceiverMirrors | crates/kmflow-daemon/src/lib.rs:720-728 | and exactly that much, if the sender held nothing when the period began and the receiver has an emulator |
| HeldKeys.EmergencyFlushes | crates/kmflow-daemon/src/lib.rs:614-629 | after an emergency release the receiver holds nothing, if and only if the triggering event did not itself let go of something the receiver holds |
| HeldKeys.EmergencyStrandsKey | crates/kmflow-daemon/src/lib.rs:635-648 | a run into the failing case: a key and the chord go down in one batch, the key comes up, and the receiver is left holding exactly that key |
| HeldKeys.CleanupFlushes | crates/kmflow-daemon/src/lib.rs:780-800 | cleanup of a forwarding session leaves the receiver holding nothing |
| HeldKeys.HandbackLeavesExactly | crates/kmflow-daemon/src/lib.rs:740-749 | the ordinary hand-back releases nothing: the receiver keeps exactly the keys and buttons whose last replayed action was a press; for a period begun with nothing held, nothing is left if and only if the sender tracked nothing when it sent the last frame replayed |
| HeldKeys.HandbackAfterAllFrames | crates/kmflow-daemon/src/lib.rs:740-759 | if the frames under way are still replayed, what is left is what the sender tracks at the hand-back, so nothing if and only if that is nothing |
| HeldKeys.HandbackStrandsKey | crates/kmflow-daemon/src/lib.rs:740-759 | from any idle link whose sender holds nothing and whose receiver can hand the focus back, a run presses a key, replays it, hands the focus back by a frame at the edge and releases the key locally: the sender tracks nothing and the receiver holds the key |
| Batching.BatchingConserves | crates/kmflow-daemon/src/lib.rs:608-658 | however the captured stream is cut into batches and whatever runs in between, the data frames concatenate to what an event-by-event machine forwards, and both end in the same state |
| Batching.CutsDoNotMatter | crates/kmflow-daemon/src/lib.rs:635-654 | two ways of cutting the same chord-free stream forward the same events and end in the same state but for the frame counter |
| Batching.HeldIsStreamFold | crates/kmflow-daemon/src/lib.rs:635-645 | what is tracked after a run is the fold over everything captured, heads and drained events alike, whatever the cuts |
| Batching.HeldIffLastPressed | crates/kmflow-daemon/src/lib.rs:1011-1039 | a key or button is tracked if and only if the last action on it in the captured stream was a press, or there was none and it was tracked at the start |
| Batching.FramesAreNumbered | crates/kmflow-daemon/src/lib.rs:952-955 | data frames carry 1 to 64 events, and the k-th frame of a run, flushes included, the number start + k + 1 modulo 2^32 |
| Switching.SwitchingIsPaid | crates/kmflow-daemon/src/lib.rs:661-713 | along any run of either loop a forwarding session's cursor stays at the screen centre, and every edge hit has been paid for by a centre-to-edge span of motion processed while local |
| Switching.FreshSwitchingIsPaid | crates/kmflow-daemon/src/lib.rs:107-108 | from a fresh session, k hits cost at least k spans |
| Switching.SecondReturnIff | crates/kmflow-daemon/src/lib.rs:691-711 | in the main loop under a monotone clock, within 500 ms after a return a session that is local again can return the focus on some received frame if and only if no focus message was processed since |
| Switching.ReturnsAreSeparated | crates/kmflow-daemon/src/lib.rs:691-711 | hence two returns of the focus on received motion with no emergency release between them are at least 500 ms apart |
| Switching.EmergencyVoidsCooldown | crates/kmflow-daemon/src/lib.rs:614-632 | two returns in the same millisecond, with an emergency release between them |
| ReceiveOnly.LoopsAgreeIff | crates/kmflow-daemon/src/lib.rs:514-605 | from like states the two loops send and replay the same if and only if no frame reaches the edge while just one of them is in its cooldown, and then they end alike |
| ReceiveOnly.LoopsDifferInCooldown | crates/kmflow-daemon/src/lib.rs:580-603 | right after any hand-over, one frame to the edge is replayed by the main loop and answered with the focus by the receive-only loop |
| ReceiveOnly.ReceiveOnlySimulates | crates/kmflow-daemon/src/lib.rs:538-603 | with equal stamps and no frame inside the main loop's cooldown, the receive-only loop simulates the main loop |
| EdgeReach.FocusCanLeaveIff | crates/kmflow-daemon/src/lib.rs:659-682 | from any cursor position some run hands the focus over if and only if the screen has a firing cell: twice the dead zone along the edge, or a one-pixel dead zone that leaves the high border uncovered |
| EdgeReach.DefaultDeadZone | crates/kmflow-daemon/src/edge.rs:3 | with the daemon's own dead zone that is exactly 100 pixels along the target edge |
| EdgeDetection.EdgeDetector.FiringCell | crates/kmflow-daemon/src/edge.rs:32-83 | a cell on which the detector fires exists on every such screen |
| EdgeDetection.EdgeDetector.FiresIff | crates/kmflow-daemon/src/edge.rs:32-83 | the detector fires exactly on the border cells at least the dead zone away from both corners, whatever the target, a one-pixel dead zone on a high border excepted |
| EdgeDetection.EdgeDetector.FiresOnlyOnBorder | crates/kmflow-daemon/src/edge.rs:38-65 | a hit names the target edge, lies on its border cell, and happens only on a screen that has a firing cell |
| Tracker.RunIsOneClamp | crates/kmflow-daemon/src/lib.rs:662-665 | any run of clamped moves is one clamp of start plus total, to the interval between where the two border cells are carried |
| Tracker.Contraction | crates/kmflow-daemon/src/lib.rs:696-699 | two trackers fed the same moves never drift further apart and never swap order |
| Tracker.MeetIffBorder | crates/kmflow-daemon/src/lib.rs:547-550 | two trackers have met if and only if the one further from a border has stood on it |
| Tracker.StepBound | crates/kmflow-daemon/src/lib.rs:662-665 | a step moves the cursor no further than its motion, even when the i32 sum wraps |
| Tracker.TrackIsClampIff | crates/kmflow-daemon/src/lib.rs:662-665 | a step is a plain clamp of the sum exactly when the sum fits i32; otherwise it lands on the low border |
| Proto.AsI32Truncates | crates/kmflow-daemon/src/lib.rs:662-664 | the cast of motion truncates toward zero and saturates at both ends of i32 |
| Proto.WrapIsCongruent | crates/kmflow-daemon/src/lib.rs:662-665 | an i32 sum that overflows, as this one does for a saturated motion, is the one i32 value congruent to the exact sum modulo 2^32 |
| CursorDrift.CursorsNeverDriftApart | crates/kmflow-daemon/src/lib.rs:694-706 | two cursors taken through the same frame end no further apart on either axis and on the same sides of each other |
| CursorDrift.WalkStopsAtFirst | crates/kmflow-daemon/src/lib.rs:694-706 | a frame hits exactly if, out of cooldown, the clamped path of some prefix of its moves ends on a cell that fires; the walk stops at the first such move with the cursor there, and otherwise goes through all of them |
| Grab.GrabAlternates | crates/kmflow-daemon/src/lib.rs:907-931 | in every interleaving of main-loop steps and polls, failing or not, the watch value is the focus flag, and successful calls alternate, starting with a grab |
| Grab.GrabFollowsFocus | crates/kmflow-daemon/src/lib.rs:914-930 | if no call fails, one poll after any run brings the grab in line with the focus |
| Grab.PollSettlesIff | crates/kmflow-daemon/src/lib.rs:914-929 | after any run of a session and its capture thread, failures included, one good poll leaves the grab equal to the focus if and only if a change is unseen or it was equal already |
| Grab.UnseenIffMoved | crates/kmflow-daemon/src/lib.rs:914-916 | after any run a change is unseen exactly if, since the last poll, the edge was reached, the chord completed or any focus message received, repeated ones included |
| Grab.FailedGrabIsNotRetried | crates/kmflow-daemon/src/lib.rs:914-931 | from a fresh session a run that crosses the edge and fails to grab once stays forwarding without a grab through any number of further polls |
| Grab.CaptureThread.Poll | crates/kmflow-daemon/src/lib.rs:914-931 | the in-place check of the watch channel is the modelled poll |
| Session.PeerSession.OnCaptured | crates/kmflow-daemon/src/lib.rs:608-683 | one captured event, with its in-place batch of at most 64, is a legal step of the state machine, takes a prefix of the queue, and sends exactly what that step sends |
| Session.PeerSession.WalkCursor | crates/kmflow-daemon/src/lib.rs:691-706 | the loop over a frame's moves stops where the modelled walk stops |
| Session.PeerSession.OnDatagram | crates/kmflow-daemon/src/lib.rs:685-736 | a received frame in the main loop |
| Session.PeerSession.OnDatagramReceiveOnly | crates/kmflow-daemon/src/lib.rs:538-579 | a received frame in the receive-only loop |
| Session.PeerSession.OnControl | crates/kmflow-daemon/src/lib.rs:738-776 | a control message in the main loop |
| Session.PeerSession.OnControlReceiveOnly | crates/kmflow-daemon/src/lib.rs:580-603 | a control message in the receive-only loop |
| Session.PeerSession.Cleanup | crates/kmflow-daemon/src/lib.rs:780-801 | the end of a session |
| Session.PeerSession.FlushPressedKeys | crates/kmflow-daemon/src/lib.rs:1041-1056 | exactly one release per held key, then one per held button, in some order |
| Session.PeerSession.CheckEmergencyHotkey | crates/kmflow-daemon/src/lib.rs:946-950 | true exactly when scancodes 29, 56 and 1 are all held |
| Session.PeerSession.TakeSeq | crates/kmflow-daemon/src/lib.rs:952-955 | the counter wraps at 2^32 and the new value is handed out |
| Evdev.StreamComesBackIff | crates/kmflow-input/src/evdev_emulate.rs:157-202 | any list of events written and captured again from rest comes back, but for zero motion dropped and two-axis scrolls split, if and only if every event is encodable: whole motion in i32, no vertical scroll of -2^31, scancodes of 16 bits outside the button range |
| Evdev.MoveComesBack | crates/kmflow-input/src/evdev_emulate.rs:159-167 | a written move is captured as its truncated motion, or not at all if both axes truncate to zero |
| Evdev.ScrollComesBack | crates/kmflow-input/src/evdev_emulate.rs:183-191 | a written scroll is captured as one event for each axis not zero, vertical first, truncated |
| Evdev.KeyComesBack | crates/kmflow-input/src/evdev_emulate.rs:192-199 | a written key is captured as the key of its low 16 bits, or as a button if those name one |
| Evdev.ButtonsInKernelOrder | crates/kmflow-input/src/evdev_capture.rs:20-24 | buttons are encoded and decoded by the kernel numbers 0x110 to 0x114 |
| Evdev.OneMovePerReport | crates/kmflow-input/src/evdev_capture.rs:167-182 | between two reports motion of both axes only adds up; a report captures the whole of it as one move, unless it is zero, and nothing else captures a move |
| Evdev.OthersComeAtOnce | crates/kmflow-input/src/evdev_capture.rs:183-200 | buttons, keys and wheels are captured record by record, whatever the pending motion and the remembered keys |
| Evdev.HeldKeysFollow | crates/kmflow-input/src/evdev_capture.rs:276-283 | the remembered keys are exactly the keys, not buttons, that the captured events leave down |
| Evdev.RepeatedCallsTranslate | crates/kmflow-input/src/evdev_capture.rs:125-208 | repeated early-returning calls equal one translation of the whole stream |
| Evdev.SuccessiveCallsTranslate | crates/kmflow-input/src/evdev_capture.rs:152-205 | so do successive calls that each take records from any devices in any order |
| Evdev.EvdevCapture.NextEvent | crates/kmflow-input/src/evdev_capture.rs:125-208 | the nested read loops consume heads of the device queues, in some order, and make one call of the translation on them |
| Evdev.EvdevEmulator.Emit | crates/kmflow-input/src/evdev_emulate.rs:157-202 | the records are appended one by one to exactly the modelled encoding |
| Evdev.EvdevCapture.UngrabPointer | crates/kmflow-input/src/evdev_capture.rs:235-247 | only an ungrab of grabbed devices forgets the held keys |
| Evdev.CaptureAccounts | crates/kmflow-input/src/evdev_capture.rs:167-204 | for any record stream, raw motion totals are the captured totals plus pending motion, and wheel totals and held codes agree, autorepeat aside |
| Evdev.ReplayPreservesEffect | crates/kmflow-input/src/evdev_capture.rs:254-289 | writing the captured events again has the effect of the original stream up to pending motion |
| EndToEnd.RemoteDesktopFollows | crates/kmflow-daemon/src/lib.rs:720-728 | what the receiver's emulator writes has the effect of the sender's own kernel records, whatever the device interleaving and the batch cuts, up to motion pending at the sender |
| Lifecycle.Lifecycle | crates/kmflow-daemon/src/state.rs:15-56 | for any number of overlapping sessions and retries the state is only ever Disconnected, Active or Reconnecting; with no session everything is idle; a connection is reported, and a remote screen known, if and only if the last session to come or go came |
| Lifecycle.SharedStateIs | crates/kmflow-daemon/src/lib.rs:794-800 | after any run of overlapping sessions and retries: Active exactly if the last session to come or go, or attempt to fail, was one that came; the screen of the last to come; focus and tracked keys as last worked |
| Lifecycle.ConnectedIffUpSince | crates/kmflow-daemon/src/state.rs:48-56 | along any path of allowed transitions the state counts as connected exactly if it has been Connected or Active since it was last Disconnected |
| Lifecycle.Predecessors | crates/kmflow-daemon/src/state.rs:15-34 | from which states each state can be entered |
| Lifecycle.NonOverlappingIsExact | crates/kmflow-daemon/src/lib.rs:794-800 | if sessions never overlap, established, connected and remote screen known are the same thing |
| Lifecycle.OverlapBreaksReport | crates/kmflow-daemon/src/lib.rs:781-800 | with two overlapping sessions the first to end resets the state the second is using |
| Lifecycle.DaemonState.TransitionTo | crates/kmflow-daemon/src/state.rs:37-45 | a refused transition changes nothing and is reported |
| Clipboard.Provenance | crates/kmflow-daemon/src/clipboard.rs:51-88 | in every run of two machines, for any hash, a payload sent was put on the clipboard by the sender's own user or was there at the start, and a machine sends at most its user's copies plus one |
| Clipboard.CopySpreadsIff | crates/kmflow-daemon/src/clipboard.rs:71-101 | from any state a copied text is sent and delivered exactly if it is not empty and its hash is not the last one seen; then both clipboards hold it and neither machine sends it again |
| Clipboard.DeliveryReplaces | crates/kmflow-daemon/src/clipboard.rs:97-113 | a delivered text is on the clipboard and is not polled back; images and file lists change nothing |
| Clipboard.EchoIff | crates/kmflow-daemon/src/clipboard.rs:98-103 | with storing and writing as two actions, the delivered text is echoed by the next poll if and only if it is not empty and a poll in between last sent something of another hash |
| Clipboard.OnePollEchoes | crates/kmflow-daemon/src/clipboard.rs:71-79 | a single poll in between suffices |
| Clipboard.ClipboardSync.PollOnce | crates/kmflow-daemon/src/clipboard.rs:71-86 | one round of the outgoing task |
| Clipboard.ClipboardSync.ApplyIncoming | crates/kmflow-daemon/src/clipboard.rs:97-113 | one payload at the incoming task |
| Discovery.TableTiming | crates/kmflow-net/src/discovery.rs:165-176 | every entry is younger than two PEER_TTL, and a key heard within one is in the table |
| Discovery.SweepExpiresIff | crates/kmflow-net/src/discovery.rs:170 | a sweep expires exactly the keys last heard a whole PEER_TTL ago |
| Discovery.NotifyGap | crates/kmflow-net/src/discovery.rs:130-152 | what is notified is the sender's address with the announced port; a key is notified again only after an announce gap of at least PEER_TTL, and always after two |
| Discovery.NeverSelf | crates/kmflow-net/src/discovery.rs:127-129 | in every run, its own broadcasts included, a machine is never in its own table and they notify nothing |
| Discovery.EntriesAreLatest | crates/kmflow-net/src/discovery.rs:133-152 | an entry has the address and time of its key's latest announce, and the fingerprint of the one last notified |
| Discovery.StaysInIff | crates/kmflow-net/src/discovery.rs:165-176 | along any run a peer in the table is never dropped if and only if it announces itself between any two sweeps, and then it is not notified again |
| Discovery.AnnouncerStays | crates/kmflow-net/src/discovery.rs:146-176 | a peer whose announces, up to the end of the run, follow each other in less than PEER_TTL is never expired nor notified again |
| Discovery.DiscoveryTable.Receive | crates/kmflow-net/src/discovery.rs:124-153 | the in-place receipt of one announce |
| Discovery.DiscoveryTable.Sweep | crates/kmflow-net/src/discovery.rs:168-170 | the in-place expiry keeps exactly the entries younger than PEER_TTL |
| Wire.PrefixReceives | crates/kmflow-net/src/quic.rs:174-181 | on every byte prefix of the stream the receiver yields exactly the messages that arrived whole and then waits |
| Wire.StreamRoundTrip | crates/kmflow-net/src/quic.rs:166-181 | any list of payloads below 2^32 bytes is received as sent |
| Wire.FrameRoundTripIff | crates/kmflow-net/src/quic.rs:168 | a payload comes back if and only if its length fits in 32 bits |
| Wire.DroppedReceiveLosesIff | crates/kmflow-net/src/quic.rs:174-181 | with k bytes of a frame forgotten, the rest of the stream still yields its message if and only if k is 0 |
| Wire.DroppedReceiveStalls | crates/kmflow-net/src/quic.rs:175-179 | for the text messages the program sends, forgetting 1 to all but the last 4 bytes makes the receiver wait for at least 2^29 more |
| Wire.DroppedReceiveGarbles | crates/kmflow-net/src/quic.rs:177-180 | forgetting all but 1 to 3 bytes makes it wait or read bytes that begin with a zero, which is no message |
| Wire.DroppedReceiveResumesIff | crates/kmflow-net/src/quic.rs:174-181 | so the receiver resumes with a text message if and only if the drop fell at one end of the frame |
| Wire.ControlStream.RecvControl | crates/kmflow-net/src/quic.rs:174-181 | one whole receive on the bytes in flight |
| Wire.ParsesIff | crates/kmflow-net/src/discovery.rs:202-217 | a packet is accepted exactly if it starts with the magic and reaches past the fingerprint whose length its ninth byte gives |
| Wire.ParseAfterBuildIff | crates/kmflow-net/src/discovery.rs:190-217 | for valid strings, parsing what was built gives it back if and only if the fingerprint has at most 255 bytes and the hostname is not empty |
| Wire.BuildAfterParseIff | crates/kmflow-net/src/discovery.rs:202-217 | whenever parsing succeeds, rebuilding gives the packet back byte for byte if and only if both strings were valid UTF-8 |

## Left out

- Send failures: sends on a live session succeed, so an oversized frame that would end the session is not modelled.
- Dropped receives: what a `select!` that abandons a half-read control message does to the byte stream is proved, but not run through the session model.
- Wire.DroppedReceiveResumesIff: messages are text without control characters, the one after the drop shorter than 256 bytes, as every message after the handshake is, and less than 2^29 bytes arrive.
- Time of day: `timestamp_us` in frames is left out; nothing reads it.
- Handshake: version check, edge inference and the peers map are left out; a session starts fresh with its edge given.
- Disconnect in the two-machine system: nothing in the source sends PeerDisconnecting, so the system has no such message; a single session ends on it.
- Screens: extents are 1 to 2^30 pixels; larger ones make the source's clamp panic or its sums wrap further.
- Floating point: motion has no NaN, infinity, negative zero or rounding; pending sums are exact, as f64 sums of i32 values are below 2^53.
- Overflow checks: i32 sums and negations wrap, as in a release build; a debug build panics there. The tracker theorems assume no overflow.
- Emulator errors: writing a record always succeeds, and a session has an emulator or has none throughout.
- Shutdown: the shutdown eventfd in the capture loop and the shutdown branches of the sessions are left out.
- Clipboard tools: reads and writes succeed; images and file lists are ignored, as the source does.
- Discovery.DiscoveryTable.Receive: keys are pairs rather than the text "host:port", and receipt is one step although the source releases the lock between its read and its write.
- Announce length: the 512-byte receive buffer, which cuts longer packets, is left out.
- Clipboard streams: the tag, length and 10 MB limit of clipboard payloads are left out.
- Discovery sweeps: they run exactly every PEER_TTL, without scheduling drift.
- Wire.ParseAfterBuildIff: UTF-8 decoding is a parameter that is the identity on valid text and never shortens a text.
- Wire.ControlStream.RecvControl: payloads are opaque bytes; the JSON encoding of messages is left out.
- Lifecycle.Lifecycle: a retry may happen at any time; the check that skips a connect attempt while Active, and the delays, only remove runs.
- QUIC, TLS, TOFU, epoll, ioctl, uinput set-up, the X11 back end, IPC, the command line and screen detection: foreign calls and plumbing.
