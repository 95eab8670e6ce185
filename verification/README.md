# A verified model of the CANopen receiver

The receiver listens to a CAN bus, rebuilds SDO transfers it only observes,
polls objects as an SDO client itself, correlates raw request/response
transactions, decodes bit fields and reports metrics and logs. This project
models that behaviour in Dafny and proves what the parts guarantee, alone and
together. `dafny verify dfyconfig.toml` checks everything.

## How the model is built

Code that changes state step by step is modelled by classes and loops
(`SdoObserver.Observer`, `SdoPoller.SdoPoller`, `RawPoller.RawPoller`,
`Sniffer.Sniffer`, `Receiver.Receiver`, the validators of `Config`, the retry
loops and schedules of `Retry`, the bit loop of `Codec`). Each method is proved
against a specification function on values; the theorems are about those
functions, over all inputs, all runs or all interleavings.

| file | subject |
|---|---|
| `Bytes.dfy`, `Bus.dfy` | byte strings, little-endian numbers, 64-bit wrap-around, frames |
| `SdoMessages.dfy`, `SdoObserver.dfy`, `SdoRuns.dfy` | frames read as messages, the observer, whole runs |
| `SdoEncoding.dfy`, `RoundTrip.dfy`, `LossDetection.dfy`, `History.dfy` | reference encoder, round trips, lost and repeated segments, history of every event |
| `SdoPoller.dfy`, `PollerRuns.dfy`, `LockStep.dfy` | the active client, arbitrary traffic, lock step with the observer |
| `Codec.dfy` | bit fields |
| `Config.dfy`, `Retry.dfy` | validation, backoff, retry loops, schedules |
| `RawPoller.dfy`, `RawProtocol.dfy` | the single-slot correlator and all its interleavings |
| `Sniffer.dfy`, `Routing.dfy`, `Receiver.dfy` | routing, object index, NMT states, order of dispatch |
| `Reporting.dfy` | what each kind of frame adds to metrics and logs, by COB-ID and configuration |
| `ReferenceServer.dfy`, `Interference.dfy`, `ClosedLoop.dfy` | receiver and reference server together on a busy bus |
| `Handover.dfy`, `OnceRun.dfy` | from one poll to the next, and whole passes in every schedule |

The main results, hardest first:

* `ClosedLoop.PollCompletes`: from any state of the receiver, with any other
  traffic between the frames, a poll of a conforming server terminates, ends ok,
  sends exactly one request per segment, and leaves the receiver as the other
  traffic alone would have, plus the polled object's fields decoded once from
  the delivered bytes. It assumes that neither COB-ID is claimed for raw, PDO or
  another channel, that the raw poller waits for nothing on the server's COB-ID,
  that only the poller and the server use the channel, that replies come before
  the timeout, and that the other traffic does not make a field decoding panic,
  which would end the process; `OrdinaryPollCompletes` replaces the last
  assumption by a check on the configuration. The sniffer takes its turn on the
  last reply before the next poll begins; if it does not,
  `Handover.HandoverExact` says what becomes of it. `SegmentedPoll` gives the
  count `max(1, ceil(n/7))`, and `ValueReachesMetrics` follows one integer from
  the node's memory to its metric.
  `DispatchCompletesPoll` says the same of the dispatch loop, run while the server
  answers each frame that reaches the wire.
* `Reporting`: for every validated configuration without panicking fields, what a
  PDO, a captured frame, a raw reply, a transfer, a heartbeat or an emergency adds,
  field by field, stated by COB-ID.
* `OnceRun.AllPollsComplete`, `OnceRunReports`, `DecodedExactly`: a whole pass over
  the polled objects in every schedule of such handovers: every poll ends ok, and
  it is exactly stated which payloads are decoded. `Retry.SdoRun` states that a
  once-mode run whose first attempts end ok is one pass with one attempt each.
* `LockStep.LockStepExact`, `AttemptInLock`: the exact condition on a server
  frame under which poller and observer stay in lock step, and what follows for
  whole attempts.
* `RoundTrip`, `LossDetection`, `History`, `SdoRuns.ChannelIndependence`: what an
  observer may be trusted with.
* `PollerRuns.OutcomeExactly`: over arbitrary traffic, exactly what makes an
  attempt succeed, abort or fail.
* `RawProtocol`: an inductive invariant over every interleaving of the raw poller
  with the dispatch loop.
* `Codec.ExtractBits`, `Decode`, `FieldRoundTrip`, `DisjointFieldUnchanged`: one
  arithmetic meaning for both extraction paths.

### Where a natural claim is false

Each of these is proved as an exact condition or with a concrete input.

* Segments shorter than seven bytes before the last one are legal in CiA 301,
  but the observer ignores their count: the payload comes back unchanged if and
  only if every segment but the last is full (`SdoEncoding.RebuiltExactly`,
  `RoundTrip.SegmentedRoundTrip`, `ClosedLoop.UnderstoodExactly`).
* A lost block of segments goes unnoticed if and only if its length is even and
  the final segment arrives (`LossDetection.BlockLossUnnoticed`). Single losses
  and repetitions are always detected.
* `sdo.poll.max_backoff` is documented as the maximum retry delay
  (receiver/canopenreceiver/README.md:174), but the first delay is not clamped;
  the cap is respected if and only if the initial delay respects it, and
  validation accepts a cap below the default initial delay
  (`Retry.SdoDelays`, `Retry.SdoFirstDelayCanExceedCap`).
* Backoff is exponential up to the cap if and only if both durations are below
  2^62 ns; beyond that doubling wraps around, and validation accepts such
  settings (`Retry.BackoffExact`, `Retry.ExtremeBackoffAccepted`).
* The bounds check of the bit-level path wraps around when offset plus width
  exceeds the largest `int`; the code then panics, exactly for unaligned
  offsets (`Codec.ExtractBits`). A validated field panics on some payload if and
  only if it is not ordinary (`Config.Ordinary`, `Sniffer.PanicsExactly`), so a
  poll can succeed and end the process before a metric is added
  (`ClosedLoop.PanicLosesMetric`).
* A poll that ends ok need not report its object. The poller learns of the last
  reply before the sniffer does, and its next request may reach the sniffer in
  between; on the same channel that request replaces the upload, and the payload
  is lost, or taken for the next object's. Every schedule decodes every object if
  and only if neighbouring polled objects are on different channels
  (`Handover.HandoverExact`, `OnceRun.SchedulesExactly`, with inputs in
  `OnceRun.OvertakenLosesMetric` and `OvertakenMisreadsMetric`).
* Channel keys are unambiguous if and only if no configured channel shadows a
  node, a check on COB-IDs (`Routing.KeysExact`); validation accepts
  configurations where one does (`Routing.ShadowAccepted`).
* A raw attempt that returns nil has emitted its reply, but not conversely: a
  reply can be emitted for an attempt that reports a timeout
  (`RawProtocol.TimedOutYetEmitted`). An attempt returns nil if and only if it
  was never given up while waiting (`RawProtocol.SuccessExactly`).
* A raw match list that contradicts itself matches nothing, so two lists have a
  common payload if and only if they conflict neither with each other nor with
  themselves (`Config.OverlapExact`); the check compares only the former.

## Model

| member | source | states |
|---|---|---|
| ClosedLoop.PollCompletes | receiver/canopenreceiver/sdo_poller.go:134-237 | For every validated configuration, polled object, conforming server, starting state, other traffic and raw transactions begun meanwhile that do not themselves end the process, the poll ends ok, the wire gains one upload request and one request per segment with alternating toggles, and once the sniffer has taken the last reply before the next poll begins, the final station equals the other traffic's own effect plus one decoding of the object's fields and an idle channel; decoding ends the process exactly if one of the fields is not ordinary (for payloads that fit in memory). |
| ClosedLoop.DispatchCompletesPoll | receiver/canopenreceiver/receiver.go:200-241 | The same of the dispatch loop itself: run over whatever happens while the server answers each frame that reaches the wire, it reaches the station that PollCompletes describes. |
| ClosedLoop.LoopIsTraffic | receiver/canopenreceiver/receiver.go:226-241 | From any station, with any server and traffic, running the dispatch loop while the server answers each transmitted frame is the exchange with the sniffer's last turn taken. |
| ClosedLoop.ReplyDispatched | receiver/canopenreceiver/receiver.go:226-254 | One turn of the dispatch loop on a frame from the polled server: the attempt takes it, the request it provokes goes out if sending succeeds, the observer advances by one step, and what it reports is emitted. |
| Reporting.PollReported | receiver/canopenreceiver/sdo_poller.go:134-237 | A completed poll adds, over what the other traffic leaves, one metric for each metric field that decodes in the delivered bytes, in order, one log record with each log field that decodes, and nothing else. |
| Reporting.ReplyReported | receiver/canopenreceiver/raw_poller.go:171-248 | A standard frame on the active transaction's response COB-ID that satisfies its matches is claimed and posted, and each response field that decodes in the frame's own bytes is reported under the transaction's name; nothing else in the receiver changes. |
| Reporting.ReplyValueReported | receiver/canopenreceiver/raw_poller.go:198-232 | Any integer of a type's range that a device writes into its reply, at any bit offset, is the value of the field's metric. |
| Reporting.ClaimExactly | receiver/canopenreceiver/raw_poller.go:171-179 | A frame is claimed if and only if it is standard, on the active transaction's response COB-ID, and has every matched byte. |
| Reporting.PdoReported | receiver/canopenreceiver/internal/sniffer/sniffer.go:369-375 | For every validated ordinary configuration, a standard frame on a PDO's COB-ID that is not captured raw reports the PDO's fields, and changes nothing else. |
| Reporting.MessageReported | receiver/canopenreceiver/internal/sniffer/sniffer.go:263-269 | A captured frame reports the fields of the first declared shape that it fits, in the order of the whole list. |
| Reporting.CapturedReported | receiver/canopenreceiver/internal/sniffer/sniffer.go:270-296 | A captured frame that fits no declared shape adds its bytes as one metric and one log record where enabled. |
| Reporting.HeartbeatReported | receiver/canopenreceiver/internal/sniffer/sniffer.go:377-408 | Heartbeats are the frames on 0x700..0x77F that nothing else claims; each updates its node's state, adds a metric where enabled, and a log only on a change. |
| Reporting.EmergencyReported | receiver/canopenreceiver/internal/sniffer/sniffer.go:444-481 | Emergencies are those on 0x081..0x0FF; three bytes are their code and register. |
| Reporting.OthersIgnored | receiver/canopenreceiver/internal/sniffer/sniffer.go:203-250 | Extended frames, and standard frames outside the predefined ranges that nothing claims, leave no trace. |
| Reporting.DownloadReported | receiver/canopenreceiver/internal/sdoobserver/observer.go:91-97 | An expedited download of a declared object, on a configured or predefined client COB-ID, reports the object's fields from the bytes the client sends. |
| Reporting.UploadReported | receiver/canopenreceiver/internal/sdoobserver/observer.go:107-123 | An expedited upload in progress of a declared object reports its fields from the bytes the server sends and ends the transfer. |
| Reporting.AbortNotReported | receiver/canopenreceiver/internal/sniffer/sniffer.go:496-499 | An abort on a server COB-ID ends the channel's transfer and adds no metric or log. |
| Reporting.AbortObserved | receiver/canopenreceiver/internal/sdoobserver/observer.go:66-76 | The observer's abort event has the object of bytes 1 to 3 and the code of bytes 4 to 7, least significant first. |
| Reporting.EmissionReports | receiver/canopenreceiver/internal/sniffer/sniffer.go:305-355 | Emission of ordinary fields means: one metric for each enabled metric field that decodes, in the order of the fields, and one log record if an enabled log field decodes, with exactly those values and the attributes of the last field that sets each. |
| ClosedLoop.OrdinaryPollCompletes | receiver/canopenreceiver/sdo_poller.go:134-237 | If all configured fields are ordinary, a condition on the configuration alone, no decoding ends the process and the poll completes as above. |
| ClosedLoop.ConnectedPollAnswered | receiver/canopenreceiver/sdo_poller.go:134-237 | Whether or not the observer has the upload in hand, a poll runs to its last reply, has sent exactly its requests and posted ok, and the sniffer's turn on that reply is all that is left. |
| ClosedLoop.ResumedInTurn | receiver/canopenreceiver/receiver.go:226-236 | If the sniffer takes the last reply before the poller goes on, the object is decoded once, from its payload, if its upload is in hand, and not otherwise. |
| ClosedLoop.PanicLosesMetric | receiver/canopenreceiver/internal/codec/codec.go:180-195 | A validated configuration and server whose successful poll ends the process before the second field's metric is added. |
| ClosedLoop.SegmentedPoll | receiver/canopenreceiver/sdo_poller.go:206-236 | With ordinary fields, a payload of n bytes cut into full segments costs exactly max(1, ceil(n/7)) segment requests and is decoded unchanged, if the sniffer takes the last one before the next poll begins. |
| ClosedLoop.ValueReachesMetrics | receiver/canopenreceiver/internal/sniffer/sniffer.go:305-355 | With ordinary fields, any representable integer the node stores at any bit offset of a polled object is, after the poll and the sniffer's last turn, the value of that field's metric. |
| ClosedLoop.UnderstoodExactly | receiver/canopenreceiver/internal/sdoobserver/observer.go:145-158 | What the receiver decodes is what the server meant if and only if the answer is expedited or all segments but the last are full. |
| ClosedLoop.SegmentsDelivered | receiver/canopenreceiver/internal/sdoobserver/observer.go:134-159 | From any point of the segment phase, the remaining chunks are each requested once and gathered in order up to the last reply, whatever else happens meanwhile. |
| ClosedLoop.SegmentRound | receiver/canopenreceiver/receiver.go:226-254 | One round of request, other traffic and segment either continues the segment phase with the toggle flipped on both sides or posts ok with the last segment still to be sniffed. |
| ClosedLoop.ReplySniffed | receiver/canopenreceiver/receiver.go:226-236 | A server frame the raw poller does not expect advances whatever the observer holds on its channel, and a reported event is emitted. |
| ClosedLoop.ReplyPolled | receiver/canopenreceiver/sdo_poller.go:180-237 | A server frame changes the attempt as specified, and a segment request it provokes passes the sniffer without effect and goes out. |
| ClosedLoop.LessWork | receiver/canopenreceiver/sdo_poller.go:206-236 | Every request a reply provokes leaves the server less work, so the exchange terminates from any state of poller and server. |
| Interference.ForeignTraffic | receiver/canopenreceiver/receiver.go:226-236 | Traffic on other channels, raw transactions begun and ended, and replies claimed by the raw poller have the same effect during an attempt as without it, and leave the attempt and its transfer alone. |
| Interference.TrafficStaysSafe | receiver/canopenreceiver/receiver.go:200-241 | With ordinary fields only, no received sequence, with failed receives, failed sends and raw transactions begun meanwhile, makes a decoding end the process. |
| Handover.HandoverExact | receiver/canopenreceiver/sdo_poller.go:134-244 | If the next poll begins between the poller's and the sniffer's turn on the last reply, then for every payload and pair of objects: on different channels nothing changes; on one channel the payload is lost, unless it came in one frame and the next object has the same index and sub-index, in which case it is decoded as that object's and the next poll goes unheard. |
| Handover.HandOverApart | receiver/canopenreceiver/internal/sdoobserver/observer.go:38-43 | On different channels the order of the next request and the last reply at the sniffer does not matter. |
| Handover.HandOverLost | receiver/canopenreceiver/internal/sdoobserver/observer.go:86-90 | On one channel the next request replaces the upload, and the last reply is ignored. |
| Handover.HandOverMisread | receiver/canopenreceiver/internal/sdoobserver/observer.go:114-123 | With the same address on one channel, an expedited reply completes the next object's upload. |
| OnceRun.AllPollsComplete | receiver/canopenreceiver/sdo_poller.go:56-69 | Against conforming servers, with ordinary fields, in every schedule of handovers: every poll of a pass ends ok, and the pass leaves the other traffic's effect plus what each payload's fate (decoded, lost, misread) makes of it, in list order. |
| OnceRun.DecodedExactly | receiver/canopenreceiver/internal/sdoobserver/observer.go:86-123 | In every schedule an object is decoded from its own payload if and only if its poll is not overtaken on its channel and the payload before it was not taken for its own; and a payload is misread if and only if it is overtaken in one frame by an object of the same address. |
| OnceRun.SchedulesExactly | receiver/canopenreceiver/sdo_poller.go:56-69 | Every schedule decodes every object if and only if neighbours in the list are polled on different channels, a check on the configuration. |
| OnceRun.UnshadowedNeverMisread | receiver/canopenreceiver/internal/sniffer/sniffer.go:189-250 | If no configured channel shadows a node, nothing is misread, and an object is lost exactly if its poll is overtaken on its channel. |
| OnceRun.OvertakenLosesMetric | receiver/canopenreceiver/sdo_poller.go:224-244 | A validated configuration with two objects of one node and a schedule in which both polls succeed and the first value appears in no metric. |
| OnceRun.OvertakenMisreadsMetric | receiver/canopenreceiver/internal/sdoobserver/observer.go:107-123 | A validated configuration with two nodes on one channel key and a schedule in which one node's value is reported as the other's. |
| OnceRun.OnceRunReports | receiver/canopenreceiver/sdo_poller.go:56-69 | On an otherwise quiet bus, in every schedule, a pass over the list adds exactly the metrics of each payload's fate, in list order, and transmits exactly each poll's requests. |
| LockStep.LockStepExact | receiver/canopenreceiver/sdo_poller.go:180-237 | One server frame keeps poller and observer agreeing (same object, phase and toggle, or poll ok exactly as the upload is reported) if and only if the frame satisfies the in-step condition. |
| LockStep.AttemptInLock | receiver/canopenreceiver/sdo_poller.go:180-244 | Over a whole attempt of in-step frames the two agree until the first result, and the poll ends ok exactly when the observer reports the one upload, of the polled object. |
| LockStep.AllConformingInStep | receiver/canopenreceiver/sdo_poller.go:192-230 | Frames of a server that follows the protocol satisfy the in-step condition throughout. |
| LockStep.BeginInLock | receiver/canopenreceiver/sdo_poller.go:143-158 | Starting an attempt and showing its request to the observer puts the two in lock step from any channel state. |
| LockStep.PollInLock | receiver/canopenreceiver/sdo_poller.go:134-237 | From any channel state, against a conforming server, poll result and observed upload agree to the end. |
| PollerRuns.AttemptExplained | receiver/canopenreceiver/sdo_poller.go:180-244 | Over arbitrary traffic an attempt's phase, toggle and result, whether open, ok or failed, are accounted for by the frames heard. |
| PollerRuns.OutcomeExactly | receiver/canopenreceiver/sdo_poller.go:180-244 | Over arbitrary traffic, the result is ok if and only if a matching expedited response came, or a matching response and then segments of alternating toggle ending with the last, with no abort before; it is an abort if and only if a matching one came while the attempt was open, and a toggle error if and only if a mistoggled frame came during segments. |
| PollerRuns.RequestsAlternate | receiver/canopenreceiver/sdo_poller.go:216-236 | The k-th segment request is 0x60 or 0x70 by the parity of k, on the node's client COB-ID. |
| PollerRuns.FirstResultStays | receiver/canopenreceiver/sdo_poller.go:239-244 | The first result posted is never replaced by a later one. |
| SdoPoller.SdoPoller.HandleFrame | receiver/canopenreceiver/sdo_poller.go:180-237 | The method changes the active attempt as the specification of one delivered frame says and returns the request to send, if any. |
| SdoPoller.SdoPoller.Begin | receiver/canopenreceiver/sdo_poller.go:134-153 | A fresh attempt for the object becomes active, on the node's configured or predefined channel, and its upload request is produced. |
| SdoPoller.SdoPoller.End | receiver/canopenreceiver/sdo_poller.go:154-178 | Whatever ends the wait, no attempt stays active and the result is the posted one or names the cause. |
| SdoPoller.SdoPoller.constructor | receiver/canopenreceiver/sdo_poller.go:43-54 | The node table holds the last configured channel of each node. |
| SdoPoller.ActivePoll.Post | receiver/canopenreceiver/sdo_poller.go:239-244 | A result enters the slot only if it is empty. |
| SdoObserver.Observer.ObserveOnChannel | receiver/canopenreceiver/internal/sdoobserver/observer.go:58-84 | The heap-based observer does exactly what one step of the channel state machine says, on its channel only, with no record shared between channels. |
| SdoObserver.Observer.ObserveClient | receiver/canopenreceiver/internal/sdoobserver/observer.go:86-105 | Client frames begin uploads and downloads, report expedited downloads or go to the segment step. |
| SdoObserver.Observer.ObserveServer | receiver/canopenreceiver/internal/sdoobserver/observer.go:107-132 | Server frames complete or initiate a matching upload, are ignored, or go to the segment step. |
| SdoObserver.Observer.ObserveSegment | receiver/canopenreceiver/internal/sdoobserver/observer.go:134-159 | A segment is accepted only in the transfer's direction and, for uploads, after initiation; a wrong toggle drops the transfer; the last segment completes it. |
| SdoMessages.Masks | receiver/canopenreceiver/internal/sdoobserver/observer.go:86-171 | The masks and shifts the code applies to a command byte select the arithmetic fields the model uses. |
| SdoRuns.ChannelIndependence | receiver/canopenreceiver/internal/sdoobserver/observer.go:38-43 | For every interleaving over any channels, the outcomes and state of one channel are those of an observer that sees only that channel's frames. |
| RoundTrip.SegmentedRoundTrip | receiver/canopenreceiver/internal/sdoobserver/observer.go:86-159 | From any state, a segmented upload or download with ignorable frames interleaved yields exactly one event with the right address, and its data is the sender's if and only if all segments but the last are full. |
| RoundTrip.PayloadRoundTrip | receiver/canopenreceiver/internal/sdoobserver/observer.go:86-180 | Every payload of any length, cut by the reference encoder, is reported unchanged, once, and the channel ends idle. |
| RoundTrip.ExpeditedUploadRoundTrip | receiver/canopenreceiver/internal/sdoobserver/observer.go:107-123 | One to four bytes sent in an initiation response come back unchanged from any state, with ignorable frames interleaved. |
| RoundTrip.ExpeditedDownloadRoundTrip | receiver/canopenreceiver/internal/sdoobserver/observer.go:91-97 | One to four bytes in an expedited download are reported at once and leave the channel's transfer as it was. |
| RoundTrip.NoiseInvisible | receiver/canopenreceiver/internal/sdoobserver/observer.go:58-159 | Empty, short, foreign-address, wrong-direction and acknowledgement frames anywhere in a run change neither its events nor its final state. |
| RoundTrip.DialogueCore | receiver/canopenreceiver/internal/sdoobserver/observer.go:86-132 | In the full dialogue of the reference encoder, requests and acknowledgements are such ignorable frames. |
| SdoEncoding.RebuiltExactly | receiver/canopenreceiver/internal/sdoobserver/observer.go:145-151 | Honouring the unused-byte count only on the last segment rebuilds the payload if and only if all other segments are full. |
| SdoEncoding.Chunks | receiver/canopenreceiver/internal/sdoobserver/observer.go:145-158 | The reference encoder cuts a payload into ceil(n/7) chunks, one if empty, all full but the last, whose concatenation is the payload. |
| SdoEncoding.ReadSegment | receiver/canopenreceiver/internal/sdoobserver/observer.go:134-158 | The observer reads an encoded segment's toggle, last flag and bytes back, except for the padding of a short non-final segment. |
| SdoEncoding.ReadExpedited | receiver/canopenreceiver/internal/sdoobserver/observer.go:161-171 | Address and bytes of an encoded expedited frame are read back, with and without a size. |
| LossDetection.SingleErrorDetected | receiver/canopenreceiver/internal/sdoobserver/observer.go:134-159 | Deleting any one segment, or repeating any one but the last, leaves no event; repeating the last leaves exactly the right one; with noise, from any state. |
| LossDetection.BlockLossUnnoticed | receiver/canopenreceiver/internal/sdoobserver/observer.go:141-153 | Losing a block of segments is reported as a transfer if and only if the block has even length and the final segment arrives, and then exactly the block is missing. |
| LossDetection.SpliceOutcome | receiver/canopenreceiver/internal/sdoobserver/observer.go:134-159 | The events of any transfer that jumps from segment a to segment b, forwards or backwards. |
| History.CompletionJustified | receiver/canopenreceiver/internal/sdoobserver/observer.go:86-180 | In every run of frames, each completed event was opened for that node, object and operation with no later opening, abort or toggle error, and its data is the matching expedited response or the concatenation of the in-sequence segments. |
| History.ReportedCompletionJustified | receiver/canopenreceiver/internal/sdoobserver/observer.go:58-180 | The same for whatever frames the observer is shown, without any assumption on them. |
| History.PendingAccounted | receiver/canopenreceiver/internal/sdoobserver/observer.go:27-36 | In every run, a pending transfer's bytes, toggle and phase are exactly what its segments since the opening say: length 7k, toggle the parity of k, no bytes before initiation. |
| Codec.ExtractBits | receiver/canopenreceiver/internal/codec/codec.go:153-196 | Extraction yields (N / 2^o) mod 2^w when the field lies in the payload, fails when it does not, and panics exactly when an unaligned offset plus width exceeds the largest int. |
| Codec.CollectBits | receiver/canopenreceiver/internal/codec/codec.go:180-195 | The bit loop computes the same arithmetic field as the aligned fast path. |
| Codec.Decode | receiver/canopenreceiver/internal/codec/codec.go:97-147 | Decoding gives the unsigned, two's-complement, boolean, raw float or byte-range meaning of the field, with every error case. |
| Codec.FieldOfSlice | receiver/canopenreceiver/internal/codec/codec.go:162-177 | The little-endian number of consecutive bytes is the corresponding bit field of the whole payload. |
| Codec.FieldStep | receiver/canopenreceiver/internal/codec/codec.go:187-194 | The next bit of the payload extends the field by its value times 2^i. |
| Codec.ConvertMeaning | receiver/canopenreceiver/internal/codec/codec.go:127-146 | The width-truncating conversions give the two's-complement value. |
| Codec.FieldRoundTrip | receiver/canopenreceiver/internal/codec/codec.go:97-196 | Any representable integer written at any bit offset of any payload decodes to itself. |
| Codec.IntegerRoundTrip | receiver/canopenreceiver/internal/codec/codec.go:122-146 | Each of the eight integer types: every integer of its literal range, from -128..127 to 0..2^64-1, comes back from its literal number of bits at any offset with room for them. |
| Codec.BitsRoundTrip | receiver/canopenreceiver/internal/codec/codec.go:128-143 | A boolean is one bit itself, a float its 32 or 64 bits. |
| Codec.AlignedUnsigned | receiver/canopenreceiver/internal/codec/codec.go:162-177 | At a byte boundary an unsigned integer is its bytes, least significant first. |
| Codec.BytesMeaning | receiver/canopenreceiver/internal/codec/codec.go:102-119 | Byte arrays and strings are the byte range itself. |
| Codec.NoRoom | receiver/canopenreceiver/internal/codec/codec.go:153-183 | A fixed-width field decodes if and only if the payload has room for its literal number of bits. |
| Codec.DisjointFieldUnchanged | receiver/canopenreceiver/internal/codec/codec.go:97-196 | Writing a field leaves the decoding of every field with disjoint bits unchanged, byte ranges included. |
| Config.OverlapExact | receiver/canopenreceiver/config.go:639-648 | Two match lists with offsets 0..7 have a common 8-byte payload if and only if they conflict neither with each other nor with themselves. |
| Config.RawMatchesCanOverlap | receiver/canopenreceiver/config.go:639-648 | The check answers no exactly when some byte is asked for with two values. |
| Config.ConflictExcludes | receiver/canopenreceiver/config.go:639-648 | Conflicting lists share no payload of any length. |
| Config.UnambiguousAttribution | receiver/canopenreceiver/config.go:607-637 | In an accepted configuration of any size every frame is the reply of at most one transaction. |
| Config.ValidateRaw | receiver/canopenreceiver/config.go:607-637 | Acceptance is equivalent to valid sniffing settings and valid, pairwise separated transactions. |
| Config.ValidateRawSniff | receiver/canopenreceiver/config.go:483-505 | Acceptance is equivalent to standard, distinct COB-IDs and valid messages with distinct names. |
| Config.ValidateMessage | receiver/canopenreceiver/config.go:430-456 | Acceptance is equivalent to a name, a usable COB-ID, match offsets 0..7 and valid fields. |
| Config.ValidatePdos | receiver/canopenreceiver/config.go:277-294 | Acceptance is equivalent to valid PDOs with distinct names and COB-IDs. |
| Config.ValidateTransactions | receiver/canopenreceiver/config.go:611-636 | Acceptance is equivalent to all transactions being valid and pairwise separated by name, request and reply. |
| Config.ValidateTransaction | receiver/canopenreceiver/config.go:558-599 | Acceptance is equivalent to the declared validity of one transaction. |
| Config.ValidateResponse | receiver/canopenreceiver/config.go:515-541 | Acceptance is equivalent to a usable COB-ID, at least one match with offsets 0..7, and valid fields. |
| Config.RawTransactionMatches | receiver/canopenreceiver/raw_poller.go:189-196 | The loop answers yes exactly when the payload satisfies every byte condition. |
| Config.ValidateSdo | receiver/canopenreceiver/config.go:350-382 | Acceptance is equivalent to valid sniffing and polling, at most one channel per polled node and equal fields for objects declared twice; the only change made is the default mode, and only if sniffing is valid. |
| Config.ValidateSniff | receiver/canopenreceiver/config.go:317-342 | Acceptance is equivalent to valid channels with pairwise distinct COB-IDs and valid, distinct objects. |
| Config.ValidatePoll | receiver/canopenreceiver/config.go:236-273 | Acceptance is equivalent to validity of the settings after the default mode is filled in. |
| Config.ValidateObjects | receiver/canopenreceiver/config.go:197-215 | Acceptance is equivalent to node IDs 1..127, valid fields and distinct objects. |
| Config.ValidateFields | receiver/canopenreceiver/config.go:86-149 | Acceptance is equivalent to a non-empty list of fields valid in offset, type, metric type and static attributes, with distinct names. |
| Config.AcceptedPoll | receiver/canopenreceiver/config.go:236-273 | Accepted polling settings in plain numbers: once, or interval with a positive one; and retry settings that are ordered and, in once mode, limited. |
| Config.AcceptedTransaction | receiver/canopenreceiver/config.go:515-599 | Accepted transactions in plain numbers: one-shot or periodic by the interval, which a written mode must repeat; standard COB-IDs, 1 to 8 payload bytes, matches on bytes 0 to 7, limited one-shot retries. |
| Config.AcceptedIdentifiers | receiver/canopenreceiver/config.go:304-315 | Accepted identifiers in plain numbers: nodes 1..127, 11-bit COB-IDs for channels and captured frames, 29-bit ones for PDOs. |
| Config.AcceptedField | receiver/canopenreceiver/config.go:86-149 | Accepted fields in plain terms: byte ranges aligned, non-empty and without metrics, known types, attribute values that fit. |
| Config.CheckUnambiguous | receiver/canopenreceiver/config.go:350-382 | The counting loop answers yes exactly when no polled node has two configured channels. |
| Config.CheckAgreeing | receiver/canopenreceiver/config.go:350-382 | The lookup loop answers yes exactly when objects that are both sniffed and polled have equal fields. |
| Retry.BackoffExact | receiver/canopenreceiver/sdo_poller.go:74-131 | From the second delay on, backoff is min(b*2^k, m) for every k if and only if b and m are below 2^62 ns. |
| Retry.ExtremeBackoffAccepted | receiver/canopenreceiver/config.go:236-273 | A validated configuration with durations of 2^62 ns, whose second delay is negative. |
| Retry.DelayIsExponential | receiver/canopenreceiver/raw_poller.go:71-136 | The closed form of every delay, including the first when it does not exceed the cap. |
| Retry.RawDelays | receiver/canopenreceiver/raw_poller.go:73-136 | Raw delays follow the closed form from the first on, never exceed the cap and stay at it. |
| Retry.SdoDelays | receiver/canopenreceiver/sdo_poller.go:74-131 | SDO delays all respect the cap if and only if the initial delay does. |
| Retry.SdoFirstDelayCanExceedCap | receiver/canopenreceiver/config.go:236-273 | A validated configuration whose first delay exceeds its cap. |
| Retry.RetryLoop | receiver/canopenreceiver/sdo_poller.go:82-131 | The loop makes a poll as stated by `Ran`: it goes on exactly while attempts fail uncancelled with budget left, ends for the stated reason, and waits as the backoff sequence says, after each attempt but the last. |
| Retry.BudgetUsedUp | receiver/canopenreceiver/sdo_poller.go:99-100 | With m retries allowed and m+1 failures, exactly m+1 attempts and m waits are made, and the poll gives up. |
| Retry.FirstSuccess | receiver/canopenreceiver/sdo_poller.go:84-96 | If attempt k+1 is the first success and within the budget, exactly k+1 attempts and k waits are made, and the poll succeeds. |
| Retry.UnlimitedGoesOn | receiver/canopenreceiver/raw_poller.go:97-103 | Without a limit only success and cancellation end a poll. |
| Retry.SingleAttempt | receiver/canopenreceiver/raw_poller.go:101-103 | With retrying off there is exactly one attempt. |
| Retry.DefaultDelays | receiver/canopenreceiver/raw_poller.go:73-83 | The initial delays default to one second and the caps to one minute; a raw poll starts within its cap. |
| Retry.ImpliedMode | receiver/canopenreceiver/config.go:420-428 | An accepted mode need not be written: with the mode left out the transaction is accepted as well, with the same effective mode. |
| Retry.RecursWithInterval | receiver/canopenreceiver/config.go:574-585 | An accepted transaction recurs if and only if it has an interval. |
| Retry.BackedOffDelays | receiver/canopenreceiver/sdo_poller.go:125-131 | The waits of the loop are the delays of the closed form. |
| Retry.BudgetKept | receiver/canopenreceiver/sdo_poller.go:99-100 | With limited retries a poll makes at most max_retries + 1 attempts and ends by itself. |
| Retry.SdoRun | receiver/canopenreceiver/sdo_poller.go:56-69 | Objects are polled cyclically in list order, each by the retry loop with the configured settings; in once mode each exactly once, within objects * (max_retries + 1) attempts, in one attempt each if every first attempt ends ok; in interval mode for as long as no poll is endless and no wait cancelled. |
| Retry.RawRun | receiver/canopenreceiver/raw_poller.go:45-69 | The polls are a prefix of the schedule, each by the retry loop with its transaction's settings; without recurring transactions the run polls each once and terminates; with one it goes on for as long as no poll is endless and no wait cancelled. |
| Retry.RawPass | receiver/canopenreceiver/raw_poller.go:49-64 | One pass polls everything the first time and later only recurring transactions, and marks once-mode ones completed. |
| Retry.ScheduleShape | receiver/canopenreceiver/raw_poller.go:45-69 | The schedule is every transaction once in list order, then recurring ones only. |
| RawProtocol.AttemptsOrderly | receiver/canopenreceiver/raw_poller.go:138-187 | In every interleaving each attempt claims at most one frame and emits at most once, and one that returned nil has claimed exactly one matching frame and fully emitted it. |
| RawProtocol.InvStep | receiver/canopenreceiver/raw_poller.go:138-187 | Every atomic step of poller and dispatcher keeps the protocol invariant. |
| RawProtocol.InvRun | receiver/canopenreceiver/raw_poller.go:138-187 | Every run keeps it. |
| RawProtocol.StepsAreLocal | receiver/canopenreceiver/raw_poller.go:143-149 | A result or deferred clear of one attempt never changes another attempt or ends its activity. |
| RawProtocol.ReturnedAttemptsSettle | receiver/canopenreceiver/raw_poller.go:138-187 | An attempt that has returned claims no further frame, never becomes active again and keeps its result, in every continuation. |
| RawProtocol.SuccessExactly | receiver/canopenreceiver/raw_poller.go:138-168 | In every interleaving, an attempt that has returned reports success if and only if it was never given up (failed send, timeout, cancellation) while waiting, whatever was emitted for it. |
| RawProtocol.TimedOutYetEmitted | receiver/canopenreceiver/raw_poller.go:158-187 | A run in which a reply is emitted for an attempt that reports a timeout. |
| RawProtocol.ClaimsUnambiguous | receiver/canopenreceiver/raw_poller.go:171-187 | In an accepted configuration, a frame an attempt claimed is the reply of no other transaction. |
| RawPoller.RawPoller.ClaimFrame | receiver/canopenreceiver/raw_poller.go:171-179 | The locked section takes the reply for the active attempt, which stops being active, or changes nothing. |
| RawPoller.RawPoller.EmitAndPost | receiver/canopenreceiver/raw_poller.go:181-186 | Emission precedes the result, which enters the attempt's own slot. |
| RawPoller.RawPoller.Begin | receiver/canopenreceiver/raw_poller.go:138-142 | A fresh attempt becomes the active one and earlier attempts are unchanged. |
| RawPoller.RawPoller.End | receiver/canopenreceiver/raw_poller.go:143-168 | The attempt takes its own result or fails, and clears the active slot only if it is still its own. |
| RawPoller.ClearsOnlyItsOwn | receiver/canopenreceiver/raw_poller.go:143-149 | In any state, the deferred clear of one attempt leaves another one active and all others unchanged. |
| Sniffer.Sniffer.HandleFrame | receiver/canopenreceiver/internal/sniffer/sniffer.go:203-250 | The method routes the frame and changes observer, NMT states, metrics and logs as one step of the specification, for raw, PDO, SDO, heartbeat and emergency frames. |
| Sniffer.Sniffer.HandleHeartbeat | receiver/canopenreceiver/internal/sniffer/sniffer.go:377-408 | The node's state is updated; a metric is added for each heartbeat and a log only on a change. |
| Sniffer.Sniffer.HandleSdo | receiver/canopenreceiver/internal/sniffer/sniffer.go:488-494 | The frame takes its channel's step and a reported event is emitted. |
| Sniffer.Sniffer.EmitTypedSdo | receiver/canopenreceiver/internal/sniffer/sniffer.go:496-517 | A completed transfer of an indexed object is decoded through that object's fields; others emit nothing. |
| Sniffer.Sniffer.EmitThrough | receiver/canopenreceiver/internal/sniffer/sniffer.go:305-355 | Metrics as far as decoding gets, one log record if it gets to the end with a logged field, and the end of the process otherwise. |
| Sniffer.Sniffer.HandleRaw | receiver/canopenreceiver/internal/sniffer/sniffer.go:263-296 | A captured frame is decoded through the first shape it fits, or reported as it is. |
| Sniffer.Sniffer.HandleEmcy | receiver/canopenreceiver/internal/sniffer/sniffer.go:444-481 | An emergency frame of at least three bytes adds its error register and code where enabled. |
| Sniffer.Sniffer.constructor | receiver/canopenreceiver/internal/sniffer/sniffer.go:175-198 | The tables built agree with the channel and object lists, and all state is empty. |
| Sniffer.BuildTable | receiver/canopenreceiver/internal/sniffer/sniffer.go:189-197 | The COB-ID table holds, for each COB-ID, the last configured channel that uses it. |
| Sniffer.BuildIndex | receiver/canopenreceiver/internal/sniffer/sniffer.go:183-188 | The object index holds the first object declared under each key. |
| Sniffer.CollectFields | receiver/canopenreceiver/internal/sniffer/sniffer.go:305-355 | The field loop yields one metric for each decodable metric field, in order, and the decodable log fields by name with their merged attributes, up to a panicking field if there is one. |
| Sniffer.FindMessage | receiver/canopenreceiver/internal/sniffer/sniffer.go:263-269 | The loop finds the first declared shape that the frame fits. |
| Sniffer.PanicExact | receiver/canopenreceiver/internal/codec/codec.go:97-196 | A validated field never panics if ordinary, and otherwise panics on every payload that fits in memory. |
| Sniffer.PanicsExactly | receiver/canopenreceiver/internal/codec/codec.go:97-196 | A validated field panics on some payload if and only if its end cannot be computed without wrap-around and is computed. |
| Sniffer.ReachedExactly | receiver/canopenreceiver/internal/sniffer/sniffer.go:305-355 | All fields of a valid list are decoded if and only if all are ordinary (the converse for payloads that fit in memory). |
| Sniffer.SniffNeverHalts | receiver/canopenreceiver/internal/sniffer/sniffer.go:203-250 | No frame of any kind makes decoding of ordinary fields panic. |
| Routing.RoutingExact | receiver/canopenreceiver/internal/sniffer/sniffer.go:203-250 | In a validated configuration the sniffer sees a polled object's requests and replies on one channel key, in opposite directions, if and only if neither COB-ID is claimed by raw, PDO or another configured channel. |
| Routing.PolledFieldsIndexed | receiver/canopenreceiver/receiver.go:83-95 | The first-wins object index returns a polled object's own fields. |
| Routing.ChannelForLast | receiver/canopenreceiver/internal/sniffer/sniffer.go:189-197 | Of several configured channels that use a COB-ID the last one counts. |
| Routing.ChannelsByNodeLast | receiver/canopenreceiver/sdo_poller.go:43-47 | Of several configured channels of a node the last one is in the poller's table. |
| Routing.PdosByIDLast | receiver/canopenreceiver/receiver.go:105-107 | Of several PDOs on a COB-ID the last one counts. |
| Routing.FirstObjectIsFirst | receiver/canopenreceiver/internal/sniffer/sniffer.go:183-188 | Of several objects with one address the first is indexed. |
| Routing.PollChannelConfigured | receiver/canopenreceiver/config.go:350-373 | In a validated configuration a polled node's configured channel is the one it is polled on. |
| Routing.PollChannelPredefined | receiver/canopenreceiver/sdo_poller.go:135-142 | A node without a configured channel is polled on 0x600 and 0x580 plus its number. |
| Routing.KeysExact | receiver/canopenreceiver/internal/sniffer/sniffer.go:189-250 | COB-IDs share a key only within one channel, for all pairs, if and only if no configured channel has a client COB-ID in 1..127 while frames of the channel and predefined SDO frames of that node are both observed: a check on the configured COB-IDs alone. |
| Routing.ShadowAccepted | receiver/canopenreceiver/config.go:317-382 | A validated configuration in which a node and another node's channel share transfer state. |
| Routing.ConventionalKeysDistinct | receiver/canopenreceiver/internal/sniffer/sniffer.go:189-250 | Client COB-IDs above 0x7F are enough for that. |
| Routing.BuildSnifferConfig | receiver/canopenreceiver/receiver.go:60-108 | The loops collect the sniffed objects before the polled ones, the raw COB-IDs from both lists, the raw messages of each COB-ID in order, and the last PDO of each COB-ID. |
| Routing.HeartbeatsCompressed | receiver/canopenreceiver/internal/sniffer/sniffer.go:377-408 | Over any traffic, the states logged for a node are its heartbeat states with consecutive repeats removed, with one metric for each heartbeat, and the table holds the latest; heartbeats count until the process ends, if it does. |
| Routing.OrdinarySurvives | receiver/canopenreceiver/internal/sniffer/sniffer.go:203-250 | If all declared fields are ordinary, sniffing any traffic never makes a decoding end the process. |
| Routing.CompressedAlternates | receiver/canopenreceiver/internal/sniffer/sniffer.go:381-408 | Neighbouring logged states differ and the last one is the node's latest. |
| Receiver.Receiver.Dispatch | receiver/canopenreceiver/receiver.go:226-236 | With nothing in between, a frame reaches the SDO poller, then the raw poller, and the sniffer unless the raw poller claimed it; a panic ends it there. |
| Receiver.Receiver.DispatchToPoller | receiver/canopenreceiver/receiver.go:226-228 | The poller's turn, a step of its own: its request passes the sniffer and goes out, and the frame has not reached the sniffer yet. |
| Receiver.Receiver.DispatchToOthers | receiver/canopenreceiver/receiver.go:229-236 | The rest of the turn, a step of its own: the raw poller claims and emits the frame, or the sniffer takes it. |
| Receiver.Receiver.DispatchLoop | receiver/canopenreceiver/receiver.go:200-241 | Between two steps of the pollers, any received sequence, with failed receives and with sends that fail, has the effect of its frames in order. |
| Receiver.Receiver.ClaimReply | receiver/canopenreceiver/raw_poller.go:171-179 | A reply the active transaction accepts is claimed; nothing else in the receiver changes. |
| Receiver.Receiver.BeginRaw | receiver/canopenreceiver/raw_poller.go:138-142 | A raw attempt becomes active; its request does not pass the sniffer and nothing else changes. |
| Receiver.Receiver.EmitReply | receiver/canopenreceiver/raw_poller.go:181-248 | A claimed reply is emitted through its transaction's fields and then reported to the poller, unless decoding ends the process. |
| Receiver.Receiver.SendPollFrame | receiver/canopenreceiver/receiver.go:249-254 | The sniffer sees the poller's own frame before it is sent, whether or not sending succeeds. |
| Receiver.Receiver.BeginPoll | receiver/canopenreceiver/sdo_poller.go:143-158 | The attempt is active before its request reaches sniffer and wire. |
| Receiver.Receiver.EndPoll | receiver/canopenreceiver/sdo_poller.go:154-178 | Whatever ends the wait, no attempt stays active, and a posted result is the one returned. |

## Left out

- Sniffer.CollectFields: a field's metric carries the field's settings and the decoded value; the scaled floating-point number, units and kinds as the metrics library stores them, and the rendering of log values are not modelled.
- Codec.Decode: float32 and float64 stay bit patterns.
- Config.CheckAgreeing: scale, offset and floating-point attributes are real numbers, so NaN, which differs from itself, does not occur; nor is a missing attribute table told from an empty one.
- Receiver.Receiver.DispatchLoop: flushing and shutdown are not modelled; closing or stopping ends the received sequence.
- ClosedLoop.Loop: other traffic and raw transactions are placed before each reply; requests that frames of the polled channel from elsewhere would provoke are transmitted but not answered. Frames are not lost or reordered here; losses are the subject of `LossDetection`.
- Retry.RetryLoop: contexts, timers and results of attempts are a recorded environment; infinite runs are covered by their finite prefixes.
- Retry.RawRun: mode strings are a datatype with one case for every string without a meaning.
- OnceRun.Polls: a poll that times out while its last reply is on its way to the sniffer, and the handover from one pass to the next in interval mode, are not part of it.
- Interference.TrafficStaysSafe: panics other than those of field decoding are not represented, such as one the metrics builder may raise when a gauge and a sum of one name meet before a flush.
- RawProtocol.Next: a panic while a reply is decoded ends the run instead of being a step of its own; `Receiver.ReplyStep` has it.
- Config.ValidateTransactions: string keys of the seen-tables are modelled as tuples of the same components; error texts are not modelled.
- Making an attempt active and showing its request to the observer is one atomic step; in the source another frame can be dispatched between the two.
- Bytes are integers 0..255 and byte strings are values, so aliasing of frame buffers is not captured. Command-byte masks are arithmetic, justified by `SdoMessages.Masks`.
- The interface name, the read timeout and the cross-checks of output switches against the enabled signals in the top-level validation.
- CAN transport, the builders' wire formats, configuration loading, start-up order, and the description texts of emergency codes.
