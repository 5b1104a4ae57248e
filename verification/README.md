# vscreen: a verified model

This project models the stateful core of vscreen, a server that lets agents share browsers, and
proves what that core promises.  `dafny verify dfyconfig.toml` checks all of it.

* **Leases** (`LockSpec`, `LockManager`, `LockRuns`, `LockTheorems`, `LockLifetimes`, `LockWaits`).  Sessions take exclusive or
  observer leases on browser instances, renew them, upgrade them, wait for them in a queue, and
  lose them to a reaper or when they disconnect.  `LockSpec` states the rules as the
  readers-writer discipline reads, on values; the class in `LockManager` runs them as the program
  does, entry by entry and waiter by waiter, and is proved to compute them; `LockRuns` lets any
  number of sessions act in any order, with `acquire_or_wait` in separate steps; the other three
  say what holds over every such run, of leases, of how long they last, and of calls that wait.  A ledger built only from arguments and results of calls
  says which leases ought to exist.
* **Media wire stack** (`Bytes`, `AnnexB`, `H264Packetizer`, `Vp9Packetizer`, `RtpTransport`,
  `RtspMessage`, `MediaRuns`).  Byte streams are cut into NAL units, NAL units and VP9 frames into payloads,
  payloads into RTP packets, packets into `$`-frames.  The program only sends.  The receivers are
  written here from sections 5.2, 5.6 and 5.8 of RFC 6184, section 4.2 of RFC 9628, section 5.1 of
  RFC 3550 and section 10.12 of RFC 2326, optional fields included, and every layer, and the whole
  stack over runs of frames, is proved to be undone by them.  For Annex B of ITU-T H.264 the
  extraction of NAL units is written out as well, and it is proved when the splitter agrees with it.
* **Streaming parsers** (`Text`, `SseProxy`, `JsonScan`, `VisionStream`).  A chunk-fed reader of
  server-sent events and the brace scanner that lets a vision call return early; each agrees with a
  definition on the whole text.
* **Protocol state machines** (`CdpClient`, `CdpFates`, `Backoff`, `RtspSession`, `RtspRuns`,
  `TransportHeader`).  Matching of browser responses to commands across timeouts and lost
  connections; reconnection waits; RTSP sessions and their sender tasks; the Transport header.
* **Pixel layout** (`PixelLayout`).  Padding to even size, and the 4:2:0 planes.

Conventions.  Time is a parameter.  Lock tokens, session ids and cancellation tokens are counters,
so new ones are fresh, as random UUIDs are taken to be.  Sockets and channels are append-only
logs; a send that fails, a subscription that is refused or a timer that fires is an argument.  A
map of structs that the program mutates in place is a class with a map of values, since each
struct is owned by its map.  16-bit and 32-bit counters are bit vectors and wrap as in the
program.  Loops of the program that work on parts of a structure are methods of their own.

## Model

| member | source | states |
|---|---|---|
| `LockManager.AcquireOn` | crates/vscreen-server/src/lock_manager.rs:183-273 | The branches of an acquire (renew, upgrade, grant, refuse with the blocker) compute the readers-writer rule: renew the lease that covers the request, else refuse exactly when another session's lease conflicts, else grant |
| `LockManager.AcquireKeepsInv` | crates/vscreen-server/src/lock_manager.rs:174-274 | An acquire keeps: an exclusive lease stands alone, observers are observer leases of different sessions |
| `LockManager.InstanceLockManager.AcquireInner` | crates/vscreen-server/src/lock_manager.rs:174-274 | The whole new state and result of an acquire; only the named instance changes, and only a new grant takes a new token; the lease returned expires at now plus the ttl, or two minutes from now when the ttl is beyond 2^63 - 1 ms |
| `LockManager.InstanceLockManager.Enqueue` | crates/vscreen-server/src/lock_manager.rs:294-307 | A refused call joins the end of the queue of its instance |
| `LockManager.InstanceLockManager.RemoveFromQueue` | crates/vscreen-server/src/lock_manager.rs:623-627 | Every waiter of the session leaves the queue, the others stay in order |
| `LockManager.StripLeases` | crates/vscreen-server/src/lock_manager.rs:347-366 | The leases a rule picks go, the others stay in order; it reports whether any went |
| `LockManager.PopPromoted` | crates/vscreen-server/src/lock_manager.rs:630-656 | The popping loop takes exactly the prefix that the promotion rule names |
| `LockManager.InstanceLockManager.TryPromote` | crates/vscreen-server/src/lock_manager.rs:630-656 | The popped waiters, and no others, are signalled, in order |
| `LockManager.InstanceLockManager.ReleaseWithToken` | crates/vscreen-server/src/lock_manager.rs:336-382 | A release by session or token: leases ended, one promotion if any ended, empty entry dropped; an error exactly when nothing matched |
| `LockManager.InstanceLockManager.RenewWithToken` | crates/vscreen-server/src/lock_manager.rs:395-427 | A renewal extends the first matching lease, exclusive before observers, and nothing else, to now plus the ttl (two minutes beyond 2^63 - 1 ms); an error exactly when none matches |
| `LockManager.InstanceLockManager.CheckAccessWithToken` | crates/vscreen-server/src/lock_manager.rs:440-496 | Access by session or token, with the error that names the holder |
| `LockManager.InstanceLockManager.HeldBy` | crates/vscreen-server/src/lock_manager.rs:500-505 | True exactly when the session holds some lease on the instance |
| `LockManager.ReapOn` | crates/vscreen-server/src/lock_manager.rs:560-589 | The reaper's work on one entry, with its two places that promote, promotes once exactly when a lease was due |
| `LockManager.InstanceLockManager.ReapExpired` | crates/vscreen-server/src/lock_manager.rs:555-598 | Every instance is swept once, in any order |
| `LockManager.InstanceLockManager.ReleaseAllForSession` | crates/vscreen-server/src/lock_manager.rs:543-552 | Every instance is released and then purged of the session's waiters |
| `LockManager.InstanceLockManager.UnregisterSession` | crates/vscreen-server/src/lock_manager.rs:139-143 | The session is inactive and swept from every instance |
| `LockSpec.StripFacts` | crates/vscreen-server/src/lock_manager.rs:356-366 | Ending leases by a rule keeps the invariant and ends exactly those the rule picks |
| `LockSpec.OthersInOrder` | crates/vscreen-server/src/lock_manager.rs:549-551 | Purging a session keeps the order of the other waiters |
| `LockRuns.StepKeeps` | crates/vscreen-server/src/lock_manager.rs:174-656 | Every step of every session keeps the run invariant on leases, ledger, tokens, queues and waiting calls |
| `LockRuns.RunInv` | crates/vscreen-server/src/lock_manager.rs:116-656 | The invariant holds in every state of every run |
| `LockTheorems.LedgerIsStored` | crates/vscreen-server/src/lock_manager.rs:174-598 | Over every run, the leases granted and not yet released, reaped or replaced are exactly those stored, each once |
| `LockTheorems.MutualExclusion` | crates/vscreen-server/src/lock_manager.rs:205-273 | Over every run, two leases on one instance are observer leases of two sessions |
| `LockTheorems.AcquireSucceedsIffUnblocked` | crates/vscreen-server/src/lock_manager.rs:174-274 | In every reachable state an acquire succeeds exactly when every lease of another session there, and the request itself, is for observing |
| `LockTheorems.AcquiredLeaseCovers` | crates/vscreen-server/src/lock_manager.rs:174-274 | In every reachable state a successful acquire returns the lease of the caller that covers the request, renewed, or else a new lease as asked for, field by field, expiring at now plus the ttl (two minutes beyond 2^63 - 1 ms); it and the leases of other sessions are exactly those stored afterwards, and no other instance changes |
| `LockTheorems.RefusalNamesHolder` | crates/vscreen-server/src/lock_manager.rs:226-256 | In every reachable state a refusal names the first stored lease, which is the caller's own exactly when the first of several observers asks for an exclusive lease |
| `LockTheorems.RefusalNamesCaller` | crates/vscreen-server/src/lock_manager.rs:226-235 | A run in which that happens |
| `LockTheorems.RenewalIsExact` | crates/vscreen-server/src/lock_manager.rs:395-427 | In every reachable state a renewal succeeds exactly when some lease has the session or the token, moves the expiry of the first such lease to now plus the ttl (two minutes beyond 2^63 - 1 ms) and changes nothing else |
| `LockTheorems.TokenNamesOneLease` | crates/vscreen-server/src/lock_manager.rs:239-270 | A token names one lease (instance, session, type) for the rest of the run |
| `LockTheorems.EndedLeaseStaysEnded` | crates/vscreen-server/src/lock_manager.rs:336-598 | A lease that ended never comes back |
| `LockTheorems.NotifiedInArrivalOrder` | crates/vscreen-server/src/lock_manager.rs:293-656 | Per instance, notified waiters followed by the queue are a subsequence of the arrivals, nobody twice |
| `LockTheorems.NoOvertaking` | crates/vscreen-server/src/lock_manager.rs:630-656 | Nobody is notified while an earlier arrival is still queued |
| `LockTheorems.FinishedLeavesNoEntry` | crates/vscreen-server/src/lock_manager.rs:309-322 | A call that has returned has no entry in any queue |
| `LockTheorems.TimeoutPurgesSession` | crates/vscreen-server/src/lock_manager.rs:315-321 | A call that ends in Timeout takes away every entry of its session on its instance and no other, in order, and touches no lease |
| `LockTheorems.WaitEndsBySignal` | crates/vscreen-server/src/lock_manager.rs:309-314 | A call that waited and did not time out was notified |
| `LockTheorems.FinishedIsFinal` | crates/vscreen-server/src/lock_manager.rs:277-323 | A call returns once, with one result |
| `LockTheorems.PromotionShape` | crates/vscreen-server/src/lock_manager.rs:630-656 | A promotion takes nobody under an exclusive lease, else the maximal leading run of observers, then one exclusive request exactly when it is next and no observer lease is held |
| `LockTheorems.UnregisterIsExact` | crates/vscreen-server/src/lock_manager.rs:139-143 | Unregistering ends every lease and wait of the session everywhere and no other session's, and notifies one promotion on each instance where it held a lease |
| `LockTheorems.ReleaseIsExact` | crates/vscreen-server/src/lock_manager.rs:336-382 | A release ends exactly the leases with the session or the token, on that instance alone, notifies one promotion exactly when there were any, keeps every waiter either notified or queued in order, and then leaves no empty entry |
| `LockTheorems.ReapIsExact` | crates/vscreen-server/src/lock_manager.rs:555-598 | Reaping ends exactly the leases with expiry at or before now, leaves no empty entry, promotes once exactly where a lease ended, and keeps every waiter either notified or queued in order |
| `LockTheorems.ObserverAccessIffHeld` | crates/vscreen-server/src/lock_manager.rs:430-505 | In every reachable state token-free observer access succeeds exactly when the session holds a lease |
| `LockTheorems.AccessMeansMatchingLease` | crates/vscreen-server/src/lock_manager.rs:440-496 | In every reachable state access, with or without a token, means a lease with the session or the token that is strong enough |
| `LockTheorems.RefusedAccessNamesHolder` | crates/vscreen-server/src/lock_manager.rs:440-496 | A refused access names the holder of the exclusive lease when there is one, and says that nothing is held otherwise |
| `LockTheorems.ExclusiveAccessIsSole` | crates/vscreen-server/src/lock_manager.rs:430-505 | Exclusive access for one session means no other session holds anything there |
| `LockLifetimes.LeaseLastsUntilReaped` | crates/vscreen-server/src/lock_manager.rs:555-598 | Over every run a lease that nothing releases, renews or replaces is there exactly as long as every reaping was before its expiry |
| `LockLifetimes.TakenLeaseLasts` | crates/vscreen-server/src/lock_manager.rs:191-200 | Over every run a lease acquired, upgraded, won by waiting or renewed at some time for some ttl stays through every reaping before that time plus the ttl and is ended by the first one at or after it, unless it is released, renewed or replaced in between |
| `LockWaits.CallWasMade` | crates/vscreen-server/src/lock_manager.rs:277-292 | Every waiting call goes back to one call with the request that it keeps |
| `LockWaits.WaitOutcome` | crates/vscreen-server/src/lock_manager.rs:277-323 | Every call that returned did so at one step; a lease it was answered with is its session's, of the type asked for or exclusive, for the ttl of that very request, and in the ledger; Timeout exactly when it was purged |
| `LockWaits.RetryIffUnblocked` | crates/vscreen-server/src/lock_manager.rs:311-314 | The last try of a signalled call succeeds exactly when every lease of another session there, and its own request, is for observing |
| `LockWaits.ArrivalsAsk` | crates/vscreen-server/src/lock_manager.rs:300-306 | Whoever is queued or was notified asks for what its call asks for, in its name |
| `LockWaits.EnqueueIsExact` | crates/vscreen-server/src/lock_manager.rs:294-307 | Joining the queue adds the request of the call at the end, at its instance alone |
| `LockWaits.SignalledWhenNotified` | crates/vscreen-server/src/lock_manager.rs:309-314 | A blocked call is signalled by the step that notifies its entry and by no other |
| `LockWaits.NotifiedWhenLeaseEnds` | crates/vscreen-server/src/lock_manager.rs:336-382 | Nobody is notified at an instance except by a step that ends a lease there |
| `LockWaits.WakeUpLost` | crates/vscreen-server/src/lock_manager.rs:286-307 | A run in which the lease in the way is released between the refusal and the entry into the queue: nothing is held and the call waits |
| `AnnexB.SkipToFirstCode` | crates/vscreen-rtsp/src/h264_packetizer.rs:121-134 | The first loop stops just past the first start code, or at the end |
| `AnnexB.SplitAnnexB` | crates/vscreen-rtsp/src/h264_packetizer.rs:119-158 | The index scan returns the non-empty pieces of the one cut of the stream |
| `AnnexB.CutRebuilds` | crates/vscreen-rtsp/src/h264_packetizer.rs:119-158 | Dropped prefix, start codes and pieces rebuild every byte string; no piece holds a start code, and a zero byte just before a three-byte code belongs to the code |
| `AnnexB.CutIsUnique` | crates/vscreen-rtsp/src/h264_packetizer.rs:119-158 | A stream has only that cut |
| `AnnexB.NalsAreClean` | crates/vscreen-rtsp/src/h264_packetizer.rs:141-155 | Every NAL unit returned is non-empty and free of start codes |
| `AnnexB.NalHoldsNoCode` | crates/vscreen-rtsp/src/h264_packetizer.rs:141-155 | The bytes 00 00 01 stand nowhere in a NAL unit returned |
| `AnnexB.SplitOfJoin` | crates/vscreen-rtsp/src/h264_packetizer.rs:119-158 | NAL units joined by 3- or 4-byte codes, behind any harmless prefix, come back as they were |
| `AnnexB.StandardIffNoPadding` | crates/vscreen-rtsp/src/h264_packetizer.rs:119-158 | The NAL units are those that clauses B.2 and 7.4.1 of ITU-T H.264 extract exactly when, behind the first start code, 00 00 00 stands only as the front of a four-byte code and the stream does not end in 00 |
| `AnnexB.PaddingWitness` | crates/vscreen-rtsp/src/h264_packetizer.rs:136-155 | A stream with one padding byte, which the splitter leaves on the NAL unit |
| `H264Packetizer.Packetize` | crates/vscreen-rtsp/src/h264_packetizer.rs:44-64 | The payloads of a stream: each NAL unit whole if it fits, in fragments otherwise |
| `H264Packetizer.FragmentFuA` | crates/vscreen-rtsp/src/h264_packetizer.rs:69-109 | The fragmenting loop yields the fragments of the NAL unit in order |
| `H264Packetizer.FuBytes` | crates/vscreen-rtsp/src/h264_packetizer.rs:75-98 | The two FU octets, bit by bit |
| `H264Packetizer.FragmentShape` | crates/vscreen-rtsp/src/h264_packetizer.rs:69-109 | At least two fragments within the limit; S on the first alone, E on the last alone, never both; R clear; F, NRI and type kept |
| `H264Packetizer.PayloadsFit` | crates/vscreen-rtsp/src/h264_packetizer.rs:44-64 | Every payload is non-empty and at most MTU - 12 bytes |
| `H264Packetizer.WholeOrFull` | crates/vscreen-rtsp/src/h264_packetizer.rs:44-109 | A NAL unit goes out whole exactly when it fits behind the 12-byte RTP header, and every fragment but the last fills the MTU |
| `H264Packetizer.FragmentsReassemble` | crates/vscreen-rtsp/src/h264_packetizer.rs:69-109 | The receiver of section 5.8 puts the fragments together again, whatever follows them |
| `H264Packetizer.DepacketizeInverts` | crates/vscreen-rtsp/src/h264_packetizer.rs:44-109 | NAL units of types 1 to 23 of any sizes survive packetizing |
| `H264Packetizer.PacketizeRoundTrip` | crates/vscreen-rtsp/src/h264_packetizer.rs:32-109 | Depacketizing what a stream is cut into gives the split of the stream, every payload within the MTU |
| `Vp9Packetizer.Packetizer.New` | crates/vscreen-rtsp/src/vp9_packetizer.rs:24-31 | Picture ids start at 0, the MTU is 1200 |
| `Vp9Packetizer.Packetizer.WithMtu` | crates/vscreen-rtsp/src/vp9_packetizer.rs:35-42 | No MTU below 100 |
| `Vp9Packetizer.Packetizer.Packetize` | crates/vscreen-rtsp/src/vp9_packetizer.rs:62-104 | The payloads of a frame under the current picture id, which then advances; a receiver gets from them one frame, with that id, the bytes, the key flag, and the size set at the time on key frames and empty frames |
| `Vp9Packetizer.Packetizer.PacketsOf` | crates/vscreen-rtsp/src/vp9_packetizer.rs:66-81 | Empty, single-packet and long frames |
| `Vp9Packetizer.Packetizer.Fragment` | crates/vscreen-rtsp/src/vp9_packetizer.rs:83-103 | The loop over continuation packets yields them in order up to the end of the frame |
| `Vp9Packetizer.Packetizer.NextChunk` | crates/vscreen-rtsp/src/vp9_packetizer.rs:94-101 | The last packet is recognised exactly when the rest fits |
| `Vp9Packetizer.NextPictureIdWraps` | crates/vscreen-rtsp/src/vp9_packetizer.rs:63-64 | Picture ids count to 2^15 - 1 and start over |
| `Vp9Packetizer.DescriptorRead` | crates/vscreen-rtsp/src/vp9_packetizer.rs:124-162 | A receiver of section 4.2 reads every descriptor as meant: P, B, E, picture id, size, and where the data starts |
| `Vp9Packetizer.FrameShape` | crates/vscreen-rtsp/src/vp9_packetizer.rs:62-109 | B on the first packet alone, E on the last alone, one picture id, every payload within the MTU |
| `Vp9Packetizer.PacketsFull` | crates/vscreen-rtsp/src/vp9_packetizer.rs:66-103 | A frame goes out in one packet exactly when it fits, and every packet but the last fills the MTU |
| `Vp9Packetizer.FrameReceived` | crates/vscreen-rtsp/src/vp9_packetizer.rs:62-162 | The packets of a frame are received as that frame, whatever follows them |
| `Vp9Packetizer.RunRoundTrip` | crates/vscreen-rtsp/src/vp9_packetizer.rs:45-104 | Every run of frames, with changes of resolution in between, is received frame by frame |
| `Vp9Packetizer.FramesFromShape` | crates/vscreen-rtsp/src/vp9_packetizer.rs:62-64 | The frames received carry the bytes sent, the width and height of their call on key frames and empty frames, and consecutive picture ids modulo 2^15 |
| `RtpTransport.PacketRoundTrip` | crates/vscreen-rtsp/src/transport.rs:576-588 | A receiver of section 5.1 reads back every field of a packet |
| `RtpTransport.PacketLayout` | crates/vscreen-rtsp/src/transport.rs:576-588 | The bytes of the fixed header: version 2, marker and type, and number, time and source with the high byte first |
| `RtpTransport.FrameLayout` | crates/vscreen-rtsp/src/transport.rs:63-69 | A dollar sign, the channel, the length with the high byte first, the data |
| `RtpTransport.FrameRoundTrip` | crates/vscreen-rtsp/src/transport.rs:63-69 | The framed data is read back exactly when it is shorter than 2^16 bytes |
| `Bytes.LengthTruncates` | crates/vscreen-rtsp/src/transport.rs:66-67 | The 16-bit cast keeps a length modulo 2^16, and unchanged exactly below 2^16 |
| `RtpTransport.DeframeInverts` | crates/vscreen-rtsp/src/server.rs:161-218 | The reader of a connection gets back all frames of legal length, in order, and passes over RTSP messages between them |
| `RtspMessage.MessageRead` | crates/vscreen-rtsp/src/server.rs:174-218 | Header lines, a blank line and a body of the length last declared are read as one message, whatever follows |
| `RtspMessage.LengthLineRead` | crates/vscreen-rtsp/src/server.rs:187-191 | The Content-Length line that goes with a body declares its length, whatever was declared before |
| `RtpTransport.ResponseIsMessage` | crates/vscreen-rtsp/src/parser.rs:264-299 | Responses, with a body and its Content-Length line anywhere among the headers or without a body, are such messages |
| `RtpTransport.RtpVideoStream.constructor` | crates/vscreen-rtsp/src/transport.rs:447-488 | A stream starts at number 0 and time 0, with payload type 96 and the increment of its frame rate |
| `RtpTransport.FrameTicksWitness` | crates/vscreen-rtsp/src/transport.rs:458-458 | The increment is 90000 / fps rounded down, 3000 without a frame rate: values at 0, 1, 24, 25, 30, 60 and 90001 |
| `RtpTransport.RtpVideoStream.SendFrame` | crates/vscreen-rtsp/src/transport.rs:495-527 | Position, counters and output after a call, also one whose sends fail midway: nothing of the failing packet is recorded; the time moves by exactly one increment when the call completes and else not at all |
| `RtpTransport.RtpVideoStream.SendPayloads` | crates/vscreen-rtsp/src/transport.rs:503-522 | The loop sends packet after packet until the first error |
| `RtpTransport.RtpVideoStream.SendPacket` | crates/vscreen-rtsp/src/health.rs:78-82 | A packet sent is counted with its bytes and uses up one number |
| `RtpTransport.OneByOne` | crates/vscreen-rtsp/src/transport.rs:503-522 | Packets sent one by one amount to the closed form: numbers, counters and output |
| `MediaRuns.NumbersAreConsecutive` | crates/vscreen-rtsp/src/transport.rs:503-510 | Over every run, failing sends included, emitted packets are numbered consecutively modulo 2^16 |
| `MediaRuns.TimesAndMarkers` | crates/vscreen-rtsp/src/transport.rs:503-524 | One time per frame, moving on with each completed frame; the marker on exactly the last packet of each completed frame |
| `MediaRuns.ClockTicks` | crates/vscreen-rtsp/src/transport.rs:524-524 | In 32-bit arithmetic the time of the next call is one increment later exactly when a call was completed |
| `MediaRuns.TimesMoveOn` | crates/vscreen-rtsp/src/transport.rs:503-524 | Packets of the first call carry the time the stream starts at; packets of adjacent calls differ by exactly one increment when the earlier call was completed, and else carry the same time |
| `MediaRuns.CountersMatch` | crates/vscreen-rtsp/src/health.rs:78-82 | Over every run the health counters equal packets and bytes emitted, and the output is those packets |
| `MediaRuns.CountersAreOutput` | crates/vscreen-rtsp/src/health.rs:78-82 | The counters tell how many writes and how many bytes the output consists of, without the four bytes of each frame on TCP |
| `MediaRuns.RunAssembled` | crates/vscreen-rtsp/src/transport.rs:495-527 | For every run up to its end or its first failing send, a receiver that cuts at markers and checks numbers and times has exactly the payloads of the completed frames, and of the frame that failed the packets that got out |
| `MediaRuns.GroupsArrive` | crates/vscreen-rtsp/src/transport.rs:58-71 | The completed frames arrive over a connection shared with frames of other channels and RTSP messages |
| `MediaRuns.LogIsWire` | crates/vscreen-rtsp/src/transport.rs:58-71 | What a TCP stream writes is its packets as frames on its channel |
| `MediaRuns.DatagramsArrive` | crates/vscreen-rtsp/src/transport.rs:50-57 | Over UDP the datagrams a stream has sent are received frame by frame |
| `MediaRuns.H264EndToEnd` | crates/vscreen-rtsp/src/transport.rs:495-527 | For every run of H.264 frames of types 1 to 23, up to its end or its first failing send, over such a connection: deframe, strip RTP, cut at markers, undo FU-A, and the NAL units of each frame sent that has any are back in order |
| `MediaRuns.H264StreamDecodes` | crates/vscreen-rtsp/src/transport.rs:58-71 | The same for the bytes the stream itself writes; the 16-bit length never truncates |
| `MediaRuns.H264DatagramsDecode` | crates/vscreen-rtsp/src/transport.rs:495-527 | The same over UDP |
| `MediaRuns.Vp9EndToEnd` | crates/vscreen-rtsp/src/transport.rs:495-527 | For every such run of VP9 frames every frame sent arrives, with its picture id |
| `Text.TrimMeans` | crates/vscreen/src/mcp_proxy.rs:175-175 | Trimming takes the white space off both ends, all of it and nothing else |
| `SseProxy.HandleSseResponse` | crates/vscreen/src/mcp_proxy.rs:142-193 | However the text is cut into chunks, the output is the trimmed non-blank payloads of the `data:` lines of the whole text, in order |
| `SseProxy.TakeEvents` | crates/vscreen/src/mcp_proxy.rs:167-182 | Taking events off the buffer changes no output, whatever text follows, and leaves no blank line behind |
| `SseProxy.WriteBlock` | crates/vscreen/src/mcp_proxy.rs:171-181 | The lines of a block, carriage returns dropped, yield the payloads of its text |
| `SseProxy.BlockThenRest` | crates/vscreen/src/mcp_proxy.rs:167-169 | Cutting at a blank line splits the payloads |
| `SseProxy.StreamPayloads` | crates/vscreen/src/mcp_proxy.rs:142-193 | Events sent as `data: ` lines among other fields, each ended by a blank line, are written out as their data, one by one |
| `JsonScan.FindObject` | crates/vscreen-server/src/vision.rs:740-776 | The loop with its four variables is the scan of the text |
| `JsonScan.ExtractJson` | crates/vscreen-server/src/vision.rs:720-777 | Fenced blocks first, then the scan |
| `JsonScan.ObjectCutOut` | crates/vscreen-server/src/vision.rs:740-776 | Any JSON object, with braces and escapes in strings, is cut out exactly when, in what stands before it, no initial part has more opening than closing braces and there are as many of both in all |
| `JsonScan.ObjectExtracted` | crates/vscreen-server/src/vision.rs:720-777 | In a text without fences, the object behind any such prefix is what is extracted |
| `JsonScan.NoBraceIsLevel` | crates/vscreen-server/src/vision.rs:740-776 | Every prefix without braces is such a prefix |
| `JsonScan.StrayBraceHidesObject` | crates/vscreen-server/src/vision.rs:762-770 | Behind every prefix with closing braces and no opening one the object is not found: what is found, if anything, starts behind its opening brace |
| `JsonScan.StrayBraceWitness` | crates/vscreen-server/src/vision.rs:762-770 | In `} {}` nothing is found, while an opening brace behind a closing one makes good for it |
| `JsonScan.KeepsValue` | crates/vscreen-server/src/vision.rs:745-773 | A value of the JSON grammar inside an object leaves the scan as it was |
| `JsonScan.AnswerIsFinal` | crates/vscreen-server/src/vision.rs:720-777 | An answer survives more text exactly when no fenced block turns up, or one with the same content |
| `JsonScan.JsonBlockIsFinal` | crates/vscreen-server/src/vision.rs:722-727 | A complete block fenced as JSON is final whatever follows |
| `JsonScan.JsonBlockExtracted` | crates/vscreen-server/src/vision.rs:722-727 | A block fenced as JSON is extracted, trimmed, whatever stands around it |
| `JsonScan.PlainBlockExtracted` | crates/vscreen-server/src/vision.rs:728-738 | With no block fenced as JSON, the first fenced block is extracted, trimmed, exactly when it starts with an opening brace; else the whole text is scanned |
| `VisionStream.CallOllamaFast` | crates/vscreen-server/src/vision.rs:431-528 | However the stream is cut into chunks, the result is that of its complete lines, one event each |
| `VisionStream.TakeLine` | crates/vscreen-server/src/vision.rs:440-517 | One line: error, content, stuck in thinking, early exit, last line |
| `VisionStream.RunningMeans` | crates/vscreen-server/src/vision.rs:440-517 | As long as the call goes on all content so far is gathered, holds no JSON, and the thinking lines are counted |
| `VisionStream.LineDecides` | crates/vscreen-server/src/vision.rs:440-517 | The line that ends a call: a failure is reported, JSON in the content or the last line answers with all of it, and a call without content is given up beyond 500 thinking lines when the time for thinking is over; nothing else ends it |
| `VisionStream.AnswerIsPrefix` | crates/vscreen-server/src/vision.rs:497-517 | An answer is the complete content, or a part of it in which JSON was found |
| `VisionStream.EarlyExitSound` | crates/vscreen-server/src/vision.rs:497-506 | The early answer holds the JSON of the complete content exactly when the complete content has no fenced block, or one with that JSON |
| `VisionStream.FenceFreeExitSound` | crates/vscreen-server/src/vision.rs:497-506 | Where the complete content has no fence, the early answer holds the same JSON |
| `VisionStream.EarlyExitMisses` | crates/vscreen-server/src/vision.rs:497-506 | A stream on which leaving early gives other JSON than the complete content |
| `VisionStream.EarlyResponseSame` | crates/vscreen-server/src/vision.rs:671-717 | Where the early answer holds the JSON of the complete content, and that JSON can be read, the response has the same click target and verdict |
| `VisionStream.ObjectDecidesResponse` | crates/vscreen-server/src/vision.rs:671-705 | A fence-free text with a JSON object behind a level prefix is answered from that object: the click target exactly when both coordinates are there, and found unless it says otherwise |
| `VisionStream.WordsDecideResponse` | crates/vscreen-server/src/vision.rs:706-717 | Without JSON that can be read there is no click target, and nothing is found exactly when one of four phrases stands in the text, whatever the case |
| `CdpClient.CdpClient.Register` | crates/vscreen-cdp/src/client.rs:406-410 | A command is pending under an id never used before |
| `CdpClient.CdpClient.SendRequest` | crates/vscreen-cdp/src/client.rs:412-412 | The command waits, or has an error to clean up |
| `CdpClient.CdpClient.CleanUp` | crates/vscreen-cdp/src/client.rs:412-431 | The error paths take the entry out and return: SendFailed behind a refused send, Timeout behind the timer |
| `CdpClient.CdpClient.HandleMessage` | crates/vscreen-cdp/src/client.rs:352-359 | A response goes to the command pending under its id and to no other |
| `CdpClient.CdpClient.ClearPending` | crates/vscreen-cdp/src/client.rs:268-269 | At a disconnect the channel of every pending command closes, and no other |
| `CdpClient.CdpClient.TakeResponse` | crates/vscreen-cdp/src/client.rs:417-427 | The caller returns with the response in its channel, with the error that the response reports, or with a lost connection when the channel closed |
| `CdpClient.StepKeeps` | crates/vscreen-cdp/src/client.rs:214-433 | Every step keeps: the pending map holds exactly the commands that can still get a response |
| `CdpClient.OutcomeStands` | crates/vscreen-cdp/src/client.rs:401-433 | Over every run each command completes at most once |
| `CdpClient.ResponseHasOwnId` | crates/vscreen-cdp/src/client.rs:352-359 | A response reaches only the command with its id |
| `CdpClient.ResponsesAreNotShared` | crates/vscreen-cdp/src/protocol.rs:9-14 | No two commands get the same response |
| `CdpClient.ReturnedIsNotPending` | crates/vscreen-cdp/src/client.rs:412-431 | A command that has returned leaves no entry behind |
| `CdpClient.NoResponseAfterDisconnect` | crates/vscreen-cdp/src/client.rs:268-269 | A command pending at a disconnect never gets a response, whatever arrives after reconnecting |
| `CdpClient.LateResponseIgnored` | crates/vscreen-cdp/src/client.rs:352-359 | A late or unknown response changes nothing |
| `CdpFates.CommandFate` | crates/vscreen-cdp/src/client.rs:401-433 | From the events after a command was issued alone: Timeout exactly when its timer fired, SendFailed exactly when its send was refused, and else the first message with its id, the error in it, or ConnectionLost exactly when the connection ended before; its channel holds what came first |
| `CdpFates.ResponseReachesCaller` | crates/vscreen-cdp/src/client.rs:352-425 | A first message with the id of a command, before its timer and before a disconnect, is in its channel from then on; the timer never fires; and unless the send is refused the caller returns with that very message |
| `CdpFates.ResponseWitness` | crates/vscreen-cdp/src/client.rs:401-425 | A run in which a command is answered |
| `Backoff.BaseDelayGrows` | crates/vscreen-cdp/src/client.rs:888-892 | The wait without jitter never shrinks with the attempt and never passes the cap, shift overflow and saturation included |
| `Backoff.BaseDelayDoubles` | crates/vscreen-cdp/src/client.rs:888-892 | The first wait is the initial one, each further one twice the one before, up to the cap; from attempt 32 on the factor is 2^32 - 1 |
| `Backoff.JitteredDelayRange` | crates/vscreen-cdp/src/client.rs:894-901 | The jittered wait lies between half the whole milliseconds and all of them |
| `Backoff.JitterShrinks` | crates/vscreen-cdp/src/client.rs:894-897 | Below half the milliseconds the jitter takes off one millisecond per attempt |
| `Backoff.TotalWaitBounded` | crates/vscreen-cdp/src/client.rs:272-291 | The waits of n attempts total at most n times the cap |
| `Backoff.Reconnect` | crates/vscreen-cdp/src/client.rs:272-330 | One outage: which attempt connects, how many are made, where a shutdown cuts a wait short, and a total wait, cut one included, of at most max_attempts times max_delay |
| `RtspSession.RtspSessionManager.HandleSetup` | crates/vscreen-rtsp/src/handler.rs:148-296 | The new sessions and the status, in every error case and order of checks |
| `RtspSession.RtspSessionManager.CreateSession` | crates/vscreen-rtsp/src/session.rs:409-440 | A ready session without tracks under a fresh token |
| `RtspSession.RtspSessionManager.HandlePlay` | crates/vscreen-rtsp/src/handler.rs:298-581 | The session plays, and every track without a task whose medium there is gets one |
| `RtspSession.RtspSessionManager.SpawnTasks` | crates/vscreen-rtsp/src/handler.rs:340-571 | The loop over the tracks, in place |
| `RtspSession.RtspSessionManager.HandlePause` | crates/vscreen-rtsp/src/handler.rs:583-615 | The token is cancelled and replaced, every handle taken out and its task aborted; a ready session is refused |
| `RtspSession.RtspSessionManager.AbortTasks` | crates/vscreen-rtsp/src/session.rs:295-302 | The aborting loop takes every handle |
| `RtspSession.RtspSessionManager.Remove` | crates/vscreen-rtsp/src/session.rs:460-469 | A session is removed, its token cancelled, its tasks aborted |
| `RtspSession.RtspSessionManager.HandleTeardown` | crates/vscreen-rtsp/src/handler.rs:617-629 | A teardown removes the session or answers that there is none |
| `RtspSession.RtspSessionManager.ReapExpired` | crates/vscreen-rtsp/src/session.rs:566-579 | Exactly the sessions idle for longer than the timeout are removed, in any order |
| `RtspSession.RtspSessionManager.TeardownAll` | crates/vscreen-rtsp/src/session.rs:588-593 | All sessions are removed |
| `RtspSession.RtspSessionManager.TaskReturns` | crates/vscreen-rtsp/src/handler.rs:528-546 | A sender task ends by itself; its handle stays in the track |
| `RtspRuns.StepKeeps` | crates/vscreen-rtsp/src/handler.rs:148-640 | Every request, reaping, cancelling of the manager, teardown and ending of a task keeps the invariant on sessions, tracks, tokens and tasks |
| `RtspRuns.TrackIdsDistinct` | crates/vscreen-rtsp/src/handler.rs:199-256 | In every reachable state a session has at most one track 0, video, and one track 1, audio |
| `RtspRuns.SetupIsExact` | crates/vscreen-rtsp/src/handler.rs:148-296 | A refused SETUP changes nothing; an accepted one adds one track, as asked for and idle, to one session of the instance |
| `RtspRuns.SetupAnswers` | crates/vscreen-rtsp/src/handler.rs:148-296 | 404, 461, 500 and 454 each exactly under its condition, in the order of the checks |
| `RtspRuns.SetupTwiceRefused` | crates/vscreen-rtsp/src/handler.rs:240-256 | A track can be set up once in a session: 455 exactly when it is there |
| `RtspRuns.OtherAnswers` | crates/vscreen-rtsp/src/handler.rs:298-629 | PLAY, PAUSE and TEARDOWN answer 454 exactly without a session, PAUSE 455 exactly in a ready one, and a refusal changes nothing |
| `RtspRuns.TasksOnlyWhilePlaying` | crates/vscreen-rtsp/src/handler.rs:320-341 | Every live task belongs to a playing session, has its current token, and is held by one of its tracks |
| `RtspRuns.PauseIsExact` | crates/vscreen-rtsp/src/handler.rs:594-607 | A successful PAUSE stops all tasks of its session and no others, cancels its token for a fresh one, empties its handles, and changes no other session |
| `RtspRuns.RemovalIsExact` | crates/vscreen-rtsp/src/session.rs:295-302 | Teardown, reaping and shutdown stop all tasks of the sessions removed and no others |
| `RtspRuns.RemovedIsTornDown` | crates/vscreen-rtsp/src/session.rs:295-302 | The token of a removed session is cancelled and every task it has a handle on aborted |
| `RtspRuns.ReapIsExact` | crates/vscreen-rtsp/src/session.rs:566-579 | Reaping removes exactly the sessions idle for longer than the timeout and changes no other |
| `RtspRuns.TouchedSurvives` | crates/vscreen-rtsp/src/session.rs:185-187 | A session is there after every reaping up to the timeout after its last activity |
| `RtspRuns.NothingSendsAfterShutdown` | crates/vscreen-rtsp/src/session.rs:583-585 | Session tokens are children of the token of the manager: once that is cancelled no task sends, whatever is requested later |
| `RtspRuns.PlayStartsExactly` | crates/vscreen-rtsp/src/handler.rs:339-571 | After a successful PLAY a track sends exactly when the server is not shutting down and it had no task and its medium is there, or had one that has not ended; the session plays, its token and all other sessions are as before |
| `RtspRuns.EndedTaskIsNotReplaced` | crates/vscreen-rtsp/src/handler.rs:339-341 | A run in which a successful PLAY leaves a track silent although its medium is there: its task had ended and still has its handle |
| `TransportHeader.Parse` | crates/vscreen-rtsp/src/parser.rs:336-412 | Whatever is parsed is a pair of 16-bit ports or of 8-bit channels |
| `TransportHeader.NumberRoundTrip` | crates/vscreen-rtsp/src/parser.rs:363-371 | A decimal number is read back exactly when it fits its type |
| `TransportHeader.SingleNumber` | crates/vscreen-rtsp/src/parser.rs:366-404 | A single number stands for itself and its successor, with the error cases |
| `TransportHeader.HeaderRoundTrip` | crates/vscreen-rtsp/src/parser.rs:336-440 | Parsing undoes formatting for every pair of ports and every pair of channels |
| `TransportHeader.UdpText` | crates/vscreen-rtsp/src/parser.rs:343-346 | A formatted UDP header, for any ports, is never taken for an interleaved one |
| `TransportHeader.FormChosen` | crates/vscreen-rtsp/src/parser.rs:336-375 | The header is refused as missing RTP/AVP exactly when that stands nowhere, and read as interleaved only with one of the two marks of that form, as UDP only with neither |
| `TransportHeader.ClientRequestRead` | crates/vscreen-rtsp/src/parser.rs:376-412 | A request with a pair of ports or a single one is read, with the error cases at the top of the range |
| `TransportHeader.TcpRequestRead` | crates/vscreen-rtsp/src/parser.rs:347-378 | What stands behind `interleaved=` is read as a pair of channels or a single one, or refused as an invalid channel |
| `TransportHeader.HeaderText` | crates/vscreen-rtsp/src/parser.rs:423-440 | The formatted header, piece by piece |
| `TransportHeader.ServerPortsRead` | crates/vscreen-rtsp/src/parser.rs:423-432 | A client finds the ports of the server in the answer |
| `PixelLayout.PadToEven` | crates/vscreen-video/src/pipeline.rs:172-194 | Every pixel keeps its row and column, all else is black, an even frame is unchanged whatever its buffer |
| `PixelLayout.CopyRows` | crates/vscreen-video/src/pipeline.rs:186-190 | The row loop copies every row to its new stride |
| `PixelLayout.RgbToI420Sw` | crates/vscreen-video/src/convert.rs:47-73 | In bounds for every size; each luma cell from its own pixel, each chroma cell (j, i) from pixel (2j, 2i) |
| `PixelLayout.RgbToI420` | crates/vscreen-video/src/convert.rs:11-44 | Both errors exactly when they apply, otherwise the three planes, odd sizes included |
| `PixelLayout.I420Cells` | crates/vscreen-video/src/convert.rs:47-73 | Red, green and blue of pixel (row, col) are the bytes from 3 * (row * width + col) on; they make the luma sample at row * width + col and, on even rows and columns, both chroma samples of that block |
| `PixelLayout.PaddedCells` | crates/vscreen-video/src/pipeline.rs:172-194 | Byte by byte, with the strides written out: where each byte of the padded frame comes from |
| `PixelLayout.PaddingKeepsChroma` | crates/vscreen-video/src/pipeline.rs:172-194 | The chroma planes of the padded frame are those of the frame itself: padding never shows in them |
| `PixelLayout.PaddedLuma` | crates/vscreen-video/src/pipeline.rs:172-194 | The luma of the padded frame is that of the frame at its place and that of black elsewhere |

Where the code and its documentation differ, the model follows the code: the module comment of
the VP9 packetizer speaks of flexible mode, but its descriptors are those of the non-flexible one;
an empty VP9 frame announces its size even when it is not a key frame; `extract_json` promises the
first object in surrounding prose, but an object is cut out exactly when the braces before it are as
`JsonScan.ObjectCutOut` says, and a closing brace in prose that has no opening one loses it; the
comment in `handle_play` speaks of tracks that do not have a sender task, but a track whose task has
ended by itself is passed over too (`RtspRuns.EndedTaskIsNotReplaced`); `split_annex_b` leaves
padding bytes on NAL units (`AnnexB.PaddingWitness`), and is right exactly on the streams that
`AnnexB.StandardIffNoPadding` describes; `acquire_or_wait` promises to wait until the lease becomes
available, but a release between its refusal and its entry into the queue wakes nobody
(`LockWaits.WakeUpLost`): it is signalled only by the end of a lease granted later
(`LockWaits.NotifiedWhenLeaseEnds`).

## Left out

- InstanceLockManager: each public method is one atomic step; the moment between giving up the guard of an entry and removing the empty entry is not a step of its own
- InstanceLockManager: a notification is no reservation, so nothing is said about a waiter being granted its lease in the end
- InstanceLockManager: status reports, `is_auto_acquired` and the interval of the reaper, which only read or repeat what is modelled
- LockSpec: one reading of the clock per call, where the program reads it up to twice; overflow of dates beyond the calendar
- RtpVideoStream: sender and receiver reports, partial writes on TCP, and counters beyond 2^64; the audio stream, whose packets are built the same way without fragmenting
- RtpVideoStream: the byte counter counts whole packets with headers, so it is not the octet count of section 6.4.1 of RFC 3550
- H264Packetizer: nothing is promised for NAL units of types 0 and 24 to 31 that fit one packet, which section 5.2 of RFC 6184 reads as other structures
- MessageRead: header lines beyond ASCII, which the program refuses when they are not UTF-8; a connection that ends inside a message
- HandleSseResponse: a chunk that splits a character is dropped by the program as not UTF-8; the text modelled is that of the chunks taken in
- CallOllamaFast: the readers of JSON and the clock are parameters; a character split between chunks
- JsonScan: depths beyond 2^31
- CdpClient: screencast frames and their acknowledgements, serialisation, and ids beyond 2^64
- RtspSession: port allocation, URL and header parsing, SDP, health, and what a task sends; why a task ends is not modelled, only that it may at any time
- TransportHeader: lower-casing beyond ASCII, here and in the words `parse_response` looks for; a single number at the top of its range, whose successor overflows in the program, is an error of its own here
- PixelLayout: the colour arithmetic in floating point, which is a parameter, and sizes whose byte count exceeds 32 bits
- Codecs, JPEG and audio, HTTP and MCP handlers, process management, memory ring buffers, the instance registry and configuration checks: no promise that spans several calls rests on them
