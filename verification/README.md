# Robot protocol and wheel kernel: verification

A Dafny model of the two state machines that carry a motion command from a host
program to a pair of wheels, and of the seam between them.

**The reliability layer.** A host `Session` numbers its command lines, keeps them
until a cumulative ack, and resends from a nack under a cooldown. A robot
`ProtocolHandler` reassembles bytes into lines in a fixed buffer, tokenizes each
line in place, compares its id with the one it expects, decodes before it acks,
and then acks or nacks. Between them lies a link that loses, duplicates and
reorders lines, and damages them detectably.

**The wheel kernel.** One cycle of `DifferentialDrive` takes safety decisions
(lease, estop, stall halt), runs a control law for two wheels, writes duties
through a stop-enforcing gate, collects encoder samples and publishes an output
block. Its law claims to be a unit rebake of an older, frozen one.

**The seam.** `DiffDriveAdapter` turns a decoded `WHEELS_V` into a leased kernel
command; with it the two machines give an end-to-end dead-man.

## How it is laid out

| file | what it holds |
|---|---|
| `Reliability`, `Delivery`, `Storm` | host, robot and link as one distributed machine; exactly-once, recovery, wedges, the resend bound |
| `Session` | the host's session as a class, tied to the machine's host |
| `Tokens`, `Lines`, `Ascii`, `ConfigText` | token splitting and its in-place form, reassembly (and the host's `Transport`), field decoders, config text |
| `Verbs`, `Codec`, `Station`, `Handler` | what a line says, the host's codec, dispatch as a function, the handler as a class |
| `Telemetry` | the remembered telemetry header and the line buffer |
| `Law`, `KernelCycle`, `Drive` | the control law, one kernel cycle as a function, the kernel as a class |
| `LawFacts` | the law's stages in plain arithmetic |
| `Adapter` | the wire-to-kernel seam |
| `DriveRuns`, `Acceptance`, `StopPath`, `StallLatch`, `Resume`, `ControlBounds` | guarantees over whole runs of the kernel |
| `Ports`, `Published` | which duty reaches which motor; what a cycle publishes, restarts and forgets |
| `GoldenRef`, `Fidelity` | the frozen reference law and the scaling bisimulation |
| `Seqlock` | the two lock-free exchanges, one field access at a time |
| `EndToEnd`, `WireConfig` | the pieces joined: motion, and configuration, from bytes to kernel |

A class's methods are proved against a function of the old state (`View()`); the
theorems are about those functions. A pointer into a buffer is an index; a C++
reference argument that a stage updates is a returned value; fields the kernel
keeps once per wheel are one record per wheel. `dafny verify dfyconfig.toml`
checks everything.

## What is assumed

- Host and robot start aligned, at id 1, and a HELLO comes only while the robot
  still expects id 1. That is exactly when the log stays in sequence
  (`ExactlyOnceIff`; `LateHelloFails` is the shortest run that fails).
- Fewer than 2^32-1 ids per run. One more fails (`LastIdFails`).
- Link damage is detected: a damaged line has lost its id or does not decode.
  There is no checksum.
- No line fed to the handler has a NUL for its first visible byte: such a line
  passes the check for blanks and has no verb, and the source then reads a pointer
  it never set (`ReadableIff`). A NUL anywhere else just ends what the line says.
- The texts the host passes to `send` hold no LF and no NUL. `EncodedIsOneLineIff`
  says what each would do, `LfForgesALine` what an LF can do.
- `float` is `real`: no rounding, no NaN, no infinities.
- A configuration with a negative rail or a zero wheel gain is outside the
  velocity law; velocity cycles with one are not modelled. Stop and raw-duty
  cycles run under any configuration.

## Where code, comments and documents differ

The code is followed throughout. What the proofs bring out:

- `send` takes its id before `encode_command` may raise, so the documented window
  of pending ids can have holes (`WindowIsGapFreeIff`).
- "A fresh drive()/driveDuty() is still required" after clearing a stall
  (differential_drive.h:334-336) does not hold while the old lease is live, nor does
  it after clearing estop (`ClearStallRestoresIff`, `EstopClearRestoresIff`): the
  very command that stalled runs again (`StallingCommandResumes`).
- An expired command stays in the mailbox and its lease reads live again 2^31+1 ms
  after expiry, and for half of every further 2^32 ms (`LeaseReadsLiveIff`).
- The single-increment mailbox returns the command last posted exactly when no
  field is loaded after a store to it since the last increment
  (`MailboxIsWholeIff`; `SplitMailboxTears` is a run where one is).
- Resends are bounded by the distinct nack values exactly when no nack value comes
  back after another (`DistinctBoundIff`), which a link that reorders can do
  (`ReorderedNacksStorm`).
- `findLastFieldToken` returns the verb itself for one token with leading spaces,
  so ` #1` and `#1` mean different things (`BareIdSaysTwoThings`).
- "codec.py never includes one" (transport.py:83, of the LF) holds only for texts
  without one (`LfForgesALine`), and "at least the verb token was found"
  (protocol_handler.cpp:307) only where the first visible byte is not a NUL
  (`VerbFoundIff`).
- "expectedNext_ never goes below 1" (protocol_handler.h:97-98) fails at the wrap.
- The header memory's limits (40 columns, 15 characters) do not fit the 255-byte
  line: such a `thdr` loses its LF (`FullMemoryOverflows`, `HeaderReadsIff`).
- docs/design/protocol.md (2026-08-27 text of sections 8.3, 8.5 and 8.7) makes
  STATUS and others unsequenced and describes a reminder nack and
  `gapOutstanding_`; the code has neither.
- A crawl pulse longer than the rail is emitted at full length, so a staged duty is
  bounded by max(rail, crawlPulse) (`EveryCycleIsBounded`), and by the rail alone
  exactly when the pulse is no longer than it (`RailSufficesIff`).
- The speed floor comes after the commanded acceleration in the reference law and
  before it in the kernel, so "zero math changes" needs the floor idle (`FloorParts`).

## Model

| member | source | states |
|---|---|---|
| `Delivery.ExactlyOnceInOrder` | src/protocol/protocol_handler.cpp:399-453 | in every reachable state of host, robot and a link that loses, duplicates, reorders and detectably damages, the robot has executed exactly the first expected-1 lines the host sent, each once and in order |
| `Delivery.ExactlyOnceIff` | src/protocol/protocol_handler.cpp:532-550 | over any run of fewer than 2^32-1 ids the log is in sequence, exactly once and in order, if and only if every HELLO of the run found the robot still expecting id 1 |
| `Delivery.LateHelloFails` | src/protocol/protocol_handler.cpp:532-550 | the shortest failing run: one line sent and executed, then HELLO; its next copy is executed again |
| `Delivery.LogOnlyGrows` | src/protocol/protocol_handler.cpp:399-415 | no event of any kind takes back or rewrites an executed line |
| `Delivery.PendingWindow` | src/host/robot_v6/reliability.py:188-199 | in every reachable state the pending entries are exactly the lines sent and not yet retired, ascending by id, at most max_pending, and include every line the robot still needs |
| `Delivery.BufferNeverOverfull` | src/host/robot_v6/reliability.py:188-193 | max_pending is never exceeded over any run |
| `Delivery.WindowIsGapFreeIff` | src/host/robot_v6/reliability.py:194-199 | "pending ids are exactly those strictly between highest_acked and _next_id" holds if and only if no send in that range raised after its id was taken |
| `Delivery.RaisingSendLeavesGap` | src/host/robot_v6/reliability.py:194-197 | the one-step run in which encode_command raises: an id is spent and nothing is pending |
| `Delivery.BlockedAt` | src/protocol/protocol_handler.cpp:431-469 | a line at id k that was never sent, or cannot decode, keeps expectedNext_ at most k on every later run |
| `Delivery.Recovery` | src/host/robot_v6/reliability.py:259-287 | in every run that loses nothing, whatever else is delivered, answered or sent in between: once a nack has reached the host unsuppressed and the lines it resends have arrived in order, all that was sent before it has been executed, each line once and in order, an ack for all of it is on the link (if anything had to be resent), and such an ack leaves nothing older pending |
| `Delivery.NewLineIsAnswered` | src/protocol/protocol_handler.cpp:399-415 | in every such run in which the new line arrives, the robot ends past it with an ack on the way, or a nack for a line no later is on the way |
| `Delivery.OneRoundRecovers` | src/host/robot_v6/reliability.py:188-287 | such a run exists: from any reachable state with room and every sent line decodable, one more send and one loss-free round whose nack is not suppressed end with everything executed and nothing pending |
| `Delivery.BurstIsTheRest` | src/host/robot_v6/reliability.py:286-287 | what one nack makes the host do, of any stream, raised sends and undecodable lines included: nothing at all if it repeats the nack before within the cooldown, and otherwise resend exactly the lines sent from the one asked for (or the first unretired, if later) on, in order, and remember nack and time |
| `Delivery.BurstIsGapFree` | src/host/robot_v6/reliability.py:286-287 | where no send raised those are all the lines to the last |
| `Delivery.BurstCatchesUp` | src/protocol/protocol_handler.cpp:399-453 | lines that start no later than the gap, delivered in order among whatever else happens short of loss and HELLO, take the robot past the last of them and bring back an ack for it |
| `Delivery.FullBufferIsStuck` | src/host/robot_v6/reliability.py:188-193 | with a full buffer and both links empty, no run without a HELLO or a damaged line ever changes host or robot again |
| `Delivery.HelloStrands` | src/protocol/protocol_handler.cpp:532-550 | what a late HELLO then does once an ack has come back and no copy of line 1 is in flight: the stream stops for ever, for the host has retired the only line the robot will take |
| `Delivery.HelloRepeats` | src/protocol/protocol_handler.cpp:532-550 | and with a copy of line 1 in flight: that copy is executed a second time |
| `Delivery.CounterWrapsAfterLastId` | src/protocol/protocol_handler.cpp:443-449 | after id 2^32-1 the counter is 0 and no line with a positive id moves the robot any more |
| `Delivery.CounterWrapsIff` | src/protocol/protocol_handler.cpp:443-449 | the counter comes to 0 exactly by executing id 2^32-1 |
| `Delivery.LastIdFails` | src/protocol/protocol_handler.cpp:443-449 | and a run reaches it: 2^32-1 lines, each sent, delivered and acked in turn, end with the counter at 0 and out of sequence, so the limit on ids is tight |
| `Reliability.RunKeeps` | src/protocol/protocol_handler.cpp:337-454 | the joint invariant of host, robot and link is kept by whole runs |
| `Reliability.StepKeeps` | src/host/robot_v6/reliability.py:176-287 | and by each of the nine kinds of step |
| `Reliability.AboveWindow` | src/host/robot_v6/reliability.py:252-257 | retiring through n turns the window above h into the window above max(h, n) |
| `Storm.StormBound` | src/host/robot_v6/reliability.py:259-287 | so in particular when nacks never decrease, resend bursts over time T number at most (distinct nack values + T / cooldown) |
| `Storm.GroupBound` | src/host/robot_v6/reliability.py:259-287 | for nacks arriving in time order but in any order of values, resend bursts over time T number at most (nacks that differ from the nack before + T / cooldown) |
| `Storm.GroupsAreValuesIff` | src/host/robot_v6/reliability.py:279-285 | those are as many as the distinct values exactly when no value comes back after another |
| `Storm.DistinctBoundIff` | src/host/robot_v6/reliability.py:259-287 | an order of replies keeps to (distinct nack values + T / cooldown) at every timing if and only if no nack value comes back after another |
| `Storm.BurstLength` | src/host/robot_v6/reliability.py:286-287 | each burst is at most max_pending lines |
| `Storm.RobotNacksNeverDecrease` | src/protocol/protocol_handler.cpp:406-415 | short of a HELLO or the counter wrap, the nacks the robot sends never name a lower id than before |
| `Storm.StormBoundOverFifo` | src/host/robot_v6/reliability.py:259-287 | the bound for any run of the robot over a reply link that may lose but not reorder |
| `Storm.ReorderedNacksStorm` | src/host/robot_v6/reliability.py:279-285 | the bound needs the order: for any k, packets are given whose answers by the robot, reordered, hold two nack values and provoke k bursts in no time at all |
| `Session.Session.constructor` | src/host/robot_v6/reliability.py:126-148 | a new session is the initial host of the sequence machine |
| `Session.Session.Send` | src/host/robot_v6/reliability.py:176-199 | each of the five outcomes and the whole new state: refused verb and full buffer change nothing, a raising encoder burns the id, text that is not ASCII is buffered but never written, success buffers and writes the encoded line |
| `Session.Session.HandleReply` | src/host/robot_v6/reliability.py:231-250 | an ack or nack moves the session exactly as the machine's host, writes what that resends up to the first line that is not ASCII, and records the completion pair; anything else changes nothing |
| `Session.Session.RetireThrough` | src/host/robot_v6/reliability.py:252-257 | the collect-then-delete loop removes exactly the ids up to n from the ordered dictionary |
| `Session.Session.MaybeResendFrom` | src/host/robot_v6/reliability.py:259-287 | the loop writes exactly the pending lines from next on, ascending, up to the first that raises, unless the cooldown suppresses it |
| `Session.Session.MaybePollStatus` | src/host/robot_v6/reliability.py:289-304 | a STATUS is buffered and written exactly when the cooldown has passed and there is room |
| `Session.PollGoesOutIff` | src/host/robot_v6/reliability.py:289-304 | a STATUS goes out under the next id exactly when the cooldown since the last poll is over and the buffer has room; otherwise nothing changes |
| `Session.PollsAreSpaced` | src/host/robot_v6/reliability.py:329-364 | over a whole wait, whatever arrives in it, any two polls are at least a cooldown apart, and the first from the one before the wait |
| `Session.Session.Pump` | src/host/robot_v6/reliability.py:210-229 | a batch is the fold of its replies up to the first line that raises: host, wire, completion pair, and what on_reply is called with |
| `Session.LineIsItsReply` | src/host/robot_v6/reliability.py:231-250 | every line moves the host as the sequence machine says of its reading |
| `Session.PumpRaisesIff` | src/host/robot_v6/reliability.py:210-250 | where everything pending is ASCII a batch raises if and only if one of its lines is an ack or nack that cannot be read |
| `Session.Session.WaitForDone` | src/host/robot_v6/reliability.py:329-364 | how a wait ends (completed, timed out, raised, or still waiting) and the whole session after it are a function of its passes, with or without a deadline; polling never overfills the buffer |
| `Session.CompletionIsReported` | src/host/robot_v6/reliability.py:329-364 | a wait ends in a completion only if the pair was already there, or some line of the wait reported one at or past the id, and then with the reason reported |
| `Session.TimeoutIsDue` | src/host/robot_v6/reliability.py:344-350 | timeout=None never times out; a deadline does only at a pass that begins at or past it |
| `Session.TimeoutIsPrompt` | src/host/robot_v6/reliability.py:344-350 | and at such a pass a wait not yet complete does time out, with nothing polled or read |
| `Session.LineRecords` | src/host/robot_v6/reliability.py:245-250 | a line that reads as an ack or nack leaves its completion pair in the session, and no other line leaves anything |
| `Session.EveryReplyIsHeard` | src/host/robot_v6/reliability.py:210-229 | a batch that does not raise hands every reply in it to on_reply, in order |
| `Session.NackWrites` | src/host/robot_v6/reliability.py:259-287 | of the lines a nack makes the host resend, exactly those before the first that is not ASCII go out, in order, and the batch raises if and only if there is one |
| `Session.RobotRepliesAreRead` | src/host/robot_v6/reliability.py:245-250 | the robot's own ack and nack text is read back as it was meant and never raises |
| `Session.AboveIsSuffix` | src/host/robot_v6/reliability.py:252-256 | in an ascending dictionary the unretired entries are a suffix |
| `Lines.ChunkingIsInvisible` | src/protocol/protocol_handler.cpp:250-271 | for any division of the stream into blocks, what is heard and the carried remainder depend only on the bytes |
| `Lines.HeardIffWhole` | src/protocol/protocol_handler.cpp:254-312 | a content is dispatched if and only if it is what a whole line of at most 239 bytes says, less one trailing CR, to its end or first NUL, and the line is not blank: never a truncated prefix |
| `Lines.CrLfIsLf` | src/protocol/protocol_handler.cpp:280-282 | a CR before the LF changes nothing but the length: a line of 239 bytes no longer fits with one |
| `Lines.ReadableIff` | src/protocol/protocol_handler.cpp:283-309 | a line within the cap and not blank has a verb to read, and so a defined behaviour, if and only if its first visible byte is not a NUL |
| `Lines.OverflowsCountOnce` | src/protocol/protocol_handler.cpp:259-279 | each longer line is counted exactly once |
| `Lines.SplitCarries` | src/protocol/protocol_handler.cpp:250-271 | splitting a + b is splitting a and carrying its unfinished tail into b |
| `Lines.ByteCarries` | src/protocol/protocol_handler.cpp:254-258 | one more byte either completes exactly the carried tail or extends it |
| `Lines.Transport.ReadLines` | src/host/robot_v6/transport.py:87-114 | the find-and-delete loop yields every complete line of buffer + chunk, one CR stripped, blanks kept, and keeps the unfinished tail |
| `Lines.BothEndsSplitAlike` | src/host/robot_v6/transport.py:87-99 | on streams with no over-long and no blank line the robot hears the lines the host lists, one for one, and the same text exactly where there is no NUL |
| `Tokens.TokenizeLine` | src/protocol/protocol_handler.cpp:316-331 | after the NULs are written every token of the line, stored or not, reads back from its start; the first 20 starts are stored and the count is the true one |
| `Tokens.FindLastFieldToken` | src/protocol/protocol_handler.cpp:192-198 | the backward scan returns the start of the last token, and null exactly for a blank line or a single token at the first byte |
| `Tokens.LastTokenIs` | src/protocol/protocol_handler.cpp:192-198 | a space-free stretch with nothing but spaces after it is the last token of the forward split |
| `Tokens.ReadString` | src/protocol/protocol_handler.cpp:337-359 | reading from an index to the next NUL yields the one string that is there |
| `Tokens.BlankHasNoTokens` | src/protocol/protocol_handler.cpp:285-298 | a line has a token exactly when it is not blank |
| `Tokens.VerbFoundIff` | src/protocol/protocol_handler.cpp:285-309 | a line that passes the blank check has a verb token if and only if its first visible byte is not a NUL |
| `Tokens.ReadsUniquely` | src/protocol/protocol_handler.cpp:337-359 | a pointer into the mutated buffer reads as one string only |
| `Tokens.SplitOfJoin` | src/host/robot_v6/codec.py:95-112 | space-joining words and splitting gives the words back |
| `Tokens.NormalizationKeepsTokens` | src/protocol/protocol_handler.cpp:192-198 | collapsing spaces keeps the tokens, and the last-field pointer but for one token with leading spaces |
| `Ascii.Int32RoundTrip` | src/protocol/protocol_handler.cpp:44-55 | a decimal integer decodes to itself exactly when it fits 32 signed bits |
| `Ascii.Uint32RoundTrip` | src/protocol/protocol_handler.cpp:57-72 | and for an unsigned field exactly when it is non-negative and fits |
| `Ascii.IdRoundTrip` | src/protocol/protocol_handler.cpp:81-104 | `#` and the digits of an id decode to it exactly when it fits 32 bits |
| `Ascii.FieldsRead` | src/protocol/protocol_handler.cpp:44-104 | what each field kind makes of any sign and any digits, leading zeros included: int32 takes either sign, uint32 no minus, an id no sign at all, each within its width |
| `Ascii.OnlyNumbersRead` | src/protocol/protocol_handler.cpp:44-93 | nothing but a sign and digits is read as a number: no blank, no second sign, nothing left over |
| `ConfigText.ParsesPoint` | src/protocol/protocol_handler.cpp:111-132 | every text of digits, a point and digits, of whatever length and sign and with one side perhaps empty, decodes to the number it spells: the digits before the point plus those after it over the power of ten they have places; a float overflow alone is refused |
| `ConfigText.ParsesWhole` | src/protocol/protocol_handler.cpp:111-132 | and digits without a point to the whole number |
| `ConfigText.ParsesDecimal` | src/protocol/protocol_handler.cpp:111-132 | so for all w, k and f < 10^k, with any sign: w and f written with k places decodes to w + f/10^k; "w." and "w" to w; ".f" to f/10^k |
| `ConfigText.ParsesIff` | src/protocol/protocol_handler.cpp:111-132 | a field decodes if and only if, its sign apart, it is digits with at most one point among them and at least one digit, below the overflow |
| `ConfigText.FormatShape` | src/protocol/protocol_handler.cpp:169-183 | what is written: a sign for negative values only, up to four digits without a needless leading zero, a point, six places |
| `ConfigText.FormatThenParse` | src/protocol/protocol_handler.cpp:169-183 | decoding the formatted value gives the saturated rounded millionths, with its sign |
| `ConfigText.RoundTripAccuracy` | src/protocol/protocol_handler.cpp:169-183 | the trip is within half a millionth, or pinned at 4294.967040 with the sign of the value |
| `ConfigText.ReformatIsStableIff` | src/protocol/protocol_handler.cpp:169-183 | re-formatting what was read gives the same text if and only if the value was not a negative one that rounds to zero |
| `Verbs.SpacesOnlyMatterToABareId` | src/protocol/protocol_handler.cpp:192-198 | a line and its space-normal form say the same if and only if the line is not a bare id with spaces before it |
| `Verbs.BareIdSaysTwoThings` | src/protocol/protocol_handler.cpp:381-391 | "#k" is out of sequence and " #k" is a sequenced line that cannot decode |
| `Verbs.DecodedFieldsAreStored` | src/protocol/protocol_handler.h:268-286 | a line that decodes has all its tokens inside the fixed array, so no field is read through an unstored pointer |
| `Verbs.RefusalCodes` | src/protocol/protocol_handler.cpp:424-441 | a line that does not decode is refused with code 1 if and only if its verb is unknown, and with code 2 otherwise; no verb decodes with another number of fields than its own |
| `Verbs.TlmWords` | src/protocol/protocol_handler.cpp:134-152 | TLM takes seven words, each its own mode, and no other |
| `Codec.EncodeRaisesIff` | src/host/robot_v6/codec.py:60-112 | encode_command raises if and only if the verb is empty or holds a space, a field is a boolean or a float that is not finite, or the id is negative |
| `Codec.EncodedIsNumbered` | src/host/robot_v6/codec.py:95-112 | for texts free of LF and NUL, what send() writes is one line, and the robot reads its own id from it or cannot execute it |
| `Codec.EncodedIsOneLineIff` | src/host/robot_v6/transport.py:81-85 | the bytes written are that one line if and only if no text holds an LF, and are read to the end if and only if none holds a NUL |
| `Codec.LfForgesALine` | src/host/robot_v6/codec.py:95-112 | a text field with an LF makes one call write two lines, the first a command under any id the text names |
| `Codec.WheelsVRoundTrip` | src/host/robot_v6/codec.py:95-112 | an encoded WHEELS_V of in-range integers fits the cap and is read back as the same request under the same id |
| `Codec.MotionRoundTrip` | src/protocol/protocol_handler.cpp:830-963 | the same for the five planner verbs and their arities |
| `Codec.RunDecodes` | src/protocol/protocol_handler.cpp:998-1004 | a RUN line within the cap decodes to its name and all its arguments, up to sixteen of them, and with more is refused with code 2 |
| `Codec.BareVerbEncodes` | src/host/robot_v6/codec.py:95-112 | without an id a verb is encoded as it is |
| `Codec.IntCommandDecodes` | src/protocol/protocol_handler.cpp:44-72 | an all-integer line within the cap decodes unchanged exactly when every value fits its field; its id arrives regardless |
| `Codec.IntCommandTokens` | src/host/robot_v6/codec.py:95-112 | such a line splits into verb, fields and id, ends in its id and loses nothing to CR stripping |
| `Codec.ReplyRoundTrip` | src/host/robot_v6/codec.py:115-135 | ack and nack text parses to the same number, completion id and reason |
| `Codec.TaggedReplyReads` | src/host/robot_v6/codec.py:128-134 | a reply that ends in an id is read with its verb, its fields and its id apart |
| `Station.RespondRefines` | src/protocol/protocol_handler.cpp:337-454 | dispatch answers and advances exactly as the sequence machine; the adapter's verdict on an executed request changes neither |
| `Station.StationRefinesRobot` | src/protocol/protocol_handler.cpp:337-454 | the same over any number of lines |
| `Station.OnlyExecutedLinesAct` | src/protocol/protocol_handler.cpp:399-415 | a stale, early or undecodable line never reaches the adapter: what changes it is an ESTOP or a line executed in its turn |
| `Station.UnnumberedLines` | src/protocol/protocol_handler.cpp:344-379 | ESTOP always stops and PING always answers, whatever follows them; a bare HELLO starts the sequence over and one with more behind it is malformed; a lower-case verb does nothing |
| `Station.NumberedLines` | src/protocol/protocol_handler.cpp:381-415 | every other line by its id: a past id is acked with the last accepted one, an id ahead nacked with the one expected, the id expected is the line's turn, no id only counts as malformed; nothing else changes |
| `Station.RequestsInTurn` | src/adapter/diffdrive_adapter.cpp:195-238 | in their turn the planner's verbs and RUN are acked and then refused with code 1, changing nothing; STOP is acked and leaves a neutral mailbox |
| `Station.QueriesInTurn` | src/protocol/protocol_handler.cpp:591-728 | the five queries are acked and write one line each, but FUNCS, whose registry is empty with this adapter; none changes anything |
| `Station.BareGetListsAll` | src/protocol/protocol_handler.cpp:745-757 | a bare GET answers with all fifteen fields, each under its own name and in the declared order |
| `Station.TlmInTurn` | src/protocol/protocol_handler.cpp:794-818 | TLM FULL, POSE, OFF and AUTO set their mode, NOW none, and HDR only forgets the header |
| `Station.MalformedIff` | src/protocol/protocol_handler.cpp:341-391 | the malformed counter moves exactly for HELLO with fields, a missing or ill-formed id, and an in-order line that does not decode |
| `Station.ExecutingIsNoAnswer` | src/protocol/protocol_handler.cpp:451-453 | nothing an execute step writes is an ack or a nack |
| `Handler.ProtocolHandler.Feed` | src/protocol/protocol_handler.cpp:250-312 | for any block whose lines all have a defined behaviour, NULs included: sink, adapter, counters and sequence state afterwards are the response to exactly the complete lines of the carried bytes and the block |
| `Handler.ProtocolHandler.AppendByte` | src/protocol/protocol_handler.cpp:254-271 | one byte: stored, swallowed after the 239th, or completing the line |
| `Handler.ProtocolHandler.OnLineComplete` | src/protocol/protocol_handler.cpp:273-312 | a completed line is judged on all its bytes, and the buffer is empty afterwards |
| `Handler.ProtocolHandler.SpeakLine` | src/protocol/protocol_handler.cpp:300-312 | locating the last token before the in-place tokenizer overwrites separators dispatches what the untouched line says |
| `Handler.ProtocolHandler.DispatchTokens` | src/protocol/protocol_handler.cpp:305-311 | dispatch through at most 20 stored indices into the mutated buffer equals dispatch on the split line |
| `Handler.ProtocolHandler.Dispatch` | src/protocol/protocol_handler.cpp:337-454 | the branch structure on the verb, the id and the decode result |
| `Handler.ProtocolHandler.InOrderLine` | src/protocol/protocol_handler.cpp:417-454 | decode failure nacks, counts and holds; success advances, acks first, executes, then reports a refusal |
| `Handler.ProtocolHandler.Perform` | src/protocol/protocol_handler.cpp:737-979 | each request's effect on kernel front, telemetry mode and header memory, its result code and its lines |
| `Handler.ProtocolHandler.constructor` | src/protocol/protocol_handler.h:423-441 | a new handler expects id 1 and holds no bytes |
| `Handler.StoredDecodesAlike` | src/protocol/protocol_handler.cpp:430-441 | deciding arity from the true count and fields from the stored prefix equals decoding all fields |
| `Telemetry.FramesAreSelfDescribing` | src/protocol/protocol_handler.cpp:1145-1154 | over any run of snapshots of at most 40 columns and 15-character names, the latest thdr before a frame is one whole line listing exactly that frame's columns if and only if that header fits 255 bytes |
| `Telemetry.HeaderWrittenIff` | src/protocol/protocol_handler.cpp:1076-1088 | a thdr is written at first use, on a change of columns and after TLM HDR, and at no other frame |
| `Telemetry.EmitAnnounces` | src/protocol/protocol_handler.cpp:1145-1150 | an emission ends in the frame, with its thdr line, if one is due, right before it |
| `Telemetry.HexReads` | src/protocol/protocol_handler.cpp:1128-1134 | hex text reads back as the number, most significant digit first, in lower case |
| `Telemetry.FrameReads` | src/protocol/protocol_handler.cpp:1118-1143 | a frame that fits is one line that reads back as t and every column's own value, in order |
| `Telemetry.AdapterFrameReads` | src/adapter/diffdrive_adapter.cpp:297-335 | every frame of the adapter reads back as its columns, whatever the output block holds |
| `Telemetry.UnsentIff` | src/protocol/protocol_handler.cpp:1076-1100 | exactly which column sets pass for the remembered one: 40 columns and 15 characters are all that is compared |
| `Telemetry.ManyColumnsGoStale` | src/protocol/protocol_handler.h:303-304 | a change beyond column 40 goes unannounced |
| `Telemetry.LongNamesGoStale` | src/protocol/protocol_handler.h:303-304 | so does a long name replaced by its own first 15 characters |
| `Telemetry.HeaderReadsIff` | src/protocol/protocol_handler.cpp:1102-1116 | a header text is one whole line that reads back as thdr and its names if and only if it fits 255 bytes |
| `Telemetry.FullMemoryOverflows` | src/protocol/protocol_handler.h:303-305 | 40 names of 15 characters make a 645-byte header |
| `Telemetry.AdapterFramesFit` | src/adapter/diffdrive_adapter.cpp:297-335 | the adapter's own snapshots always fit and read back, whatever the output block holds |
| `Telemetry.AdapterIsSelfDescribing` | src/adapter/diffdrive_adapter.cpp:297-335 | so with this adapter the latest thdr lists exactly the frame's columns in every run |
| `Telemetry.TelemetryEmitter.EmitTelemetry` | src/protocol/protocol_handler.cpp:1145-1150 | one emission's lines and the new remembered header |
| `Telemetry.TelemetryEmitter.Forget` | src/protocol/protocol_handler.cpp:813-816 | TLM HDR forgets that a header was sent |
| `Telemetry.TelemetryEmitter.HeaderChanged` | src/protocol/protocol_handler.cpp:1076-1088 | the comparison loop decides the change |
| `Telemetry.TelemetryEmitter.RememberHeader` | src/protocol/protocol_handler.cpp:1090-1100 | the first 40 columns are copied, names truncated, older entries kept |
| `Telemetry.TelemetryEmitter.Render` | src/protocol/protocol_handler.cpp:1102-1143 | the append loop leaves the text cut at 255 bytes, LF included |
| `Adapter.WheelTargetsAreExact` | src/adapter/diffdrive_adapter.cpp:186-191 | half-sum and half-difference undo each other: an accepted WHEELS_V makes the raw targets exactly left*c and right*c |
| `Adapter.RefusalKeepsMailbox` | src/adapter/diffdrive_adapter.cpp:171-193 | a refused WHEELS_V leaves the previous command and its lease running |
| `Adapter.ArmedKernelIsCommandable` | src/adapter/diffdrive_adapter.cpp:126-144 | constructing the adapter is enough for begin() and then for both kinds of command |
| `Adapter.ArmedValues` | src/adapter/diffdrive_adapter.cpp:141-143 | constructing the adapter stages maxDuty 100, fullDutyVelocity 1000 and, before begin(), a 24 ms cycle, and nothing else |
| `Adapter.SetThenGet` | src/adapter/diffdrive_adapter.cpp:248-268 | a SET field reads back and no other field, nor the mailbox, moves |
| `Adapter.WheelNames` | src/adapter/diffdrive_adapter.cpp:33-39 | what each of the six wheel names on the wire means: SET under it puts the value in its own field of the law, and nowhere else |
| `Adapter.PidNames` | src/adapter/diffdrive_adapter.cpp:40-45 | the same for the six PID names |
| `Adapter.StallNames` | src/adapter/diffdrive_adapter.cpp:46-48 | and for the three stall names |
| `Adapter.UnknownNames` | src/adapter/diffdrive_adapter.cpp:256-259 | any other name is answered with code 1 and changes nothing |
| `Adapter.SnapshotIsTruthful` | src/adapter/diffdrive_adapter.cpp:303-322 | every column of a snapshot stands under its own name and says the truth: positions, speeds and biases in wire units to within half a unit where the value fits 32 bits, counters by their 32-bit pattern, each flag bit its own condition |
| `Adapter.FlagsAreBits` | src/adapter/diffdrive_adapter.cpp:102-122 | each of the eight flag bits is set exactly for its own condition |
| `Adapter.FindsEveryField` | src/adapter/diffdrive_adapter.cpp:33-58 | each declared name finds its own field |
| `Adapter.PutThenRead` | src/adapter/diffdrive_adapter.cpp:33-48 | member access by field: one write, one read, nothing else, cadence kept |
| `Adapter.DiffDriveAdapter.constructor` | src/adapter/diffdrive_adapter.cpp:126-144 | the kernel's bring-up values are armed and the geometry is positive |
| `Adapter.DiffDriveAdapter.OnWheelsV` | src/adapter/diffdrive_adapter.cpp:171-193 | result and new kernel front for every duration, within or past the 5000 ms ceiling |
| `Adapter.DiffDriveAdapter.OnSet` | src/adapter/diffdrive_adapter.cpp:256-268 | result and staged block for known and unknown names |
| `Adapter.DiffDriveAdapter.OnGet` | src/adapter/diffdrive_adapter.cpp:248-254 | the staged value of a known field, nothing for an unknown one |
| `Adapter.DiffDriveAdapter.OnTlm` | src/adapter/diffdrive_adapter.cpp:287-295 | NOW is a one-shot and never becomes the mode |
| `Adapter.DiffDriveAdapter.SetCountsPerLength` | src/adapter/diffdrive_adapter.cpp:146-148 | a non-positive geometry is ignored |
| `Adapter.DiffDriveAdapter.OnEstop` | src/adapter/diffdrive_adapter.cpp:240-246 | the latch is set and the mailbox kept |
| `Adapter.DiffDriveAdapter.OnStop` | src/adapter/diffdrive_adapter.cpp:195-206 | the mailbox is replaced by neutral, unconditionally |
| `Adapter.DiffDriveAdapter.BuildSnapshot` | src/adapter/diffdrive_adapter.cpp:297-335 | the columns appended one by one are truthful of the output block, each wheel's as its own, seven or eleven of them by mode, under a counter that wraps at 128 |
| `Drive.DifferentialDrive.Step` | src/diffdrive/differential_drive.cpp:518-618 | one whole cycle: the new state of all fields from the old state, the clock and the readings |
| `Drive.DifferentialDrive.Control` | src/diffdrive/differential_drive.cpp:620-864 | the control step for each effective mode |
| `Drive.DifferentialDrive.ControlVelocity` | src/diffdrive/differential_drive.cpp:669-864 | the velocity law on both wheels, the latch and the write gate |
| `Drive.DifferentialDrive.Stage` | src/diffdrive/differential_drive.cpp:868-888 | the stop-enforce write gate |
| `Drive.DifferentialDrive.RunGates` | src/diffdrive/differential_drive.cpp:557-582 | lease, estop and stall gates, and the reset on entering a halt |
| `Drive.DifferentialDrive.OpenCycle` | src/diffdrive/differential_drive.cpp:518-555 | timing, config snapshot and the one-shot requests |
| `Drive.DifferentialDrive.CollectSamples` | src/diffdrive/differential_drive.cpp:599-613 | samples and the fault count from stamps that stood still |
| `Drive.DifferentialDrive.PublishOutput` | src/diffdrive/differential_drive.cpp:936-981 | the published block and its two increments |
| `Drive.DifferentialDrive.Drive` | src/diffdrive/differential_drive.cpp:398-418 | accepted or refused, and the whole new front |
| `Drive.DifferentialDrive.DriveDuty` | src/diffdrive/differential_drive.cpp:420-444 | the same for raw duty |
| `Drive.DifferentialDrive.SetConfig` | src/diffdrive/differential_drive.cpp:283-305 | every field but a frozen cadence is replaced; the first refusal sticks |
| `Drive.DifferentialDrive.SetCyclePeriod` | src/diffdrive/differential_drive.cpp:269-281 | refused after begin(), applied before |
| `Drive.DifferentialDrive.Begin` | src/diffdrive/differential_drive.cpp:315-337 | begun, the stop countdown armed, refused when unconfigured |
| `Drive.DifferentialDrive.Stop` | src/diffdrive/differential_drive.cpp:446-450 | the mailbox becomes neutral |
| `Drive.DifferentialDrive.EstopClear` | src/diffdrive/differential_drive.cpp:460-462 | the latch is cleared and nothing else, the mailbox included |
| `Drive.DifferentialDrive.ClearStallLatch` | src/diffdrive/differential_drive.cpp:473-475 | a request is posted; the halt itself stays until a cycle takes it |
| `Drive.DifferentialDrive.RebasePosition` | src/diffdrive/differential_drive.cpp:477-479 | likewise for a rebase |
| `Drive.DifferentialDrive.EmergencyStopMotors` | src/diffdrive/differential_drive.cpp:464-471 | estop latched and both ports at zero |
| `Drive.DifferentialDrive.constructor` | src/diffdrive/differential_drive.h:466-520 | the power-up state |
| `Ports.GateReachesPorts` | src/diffdrive/differential_drive.cpp:868-888 | the write gate leaves on the left port the left duty and on the right port the right one, written or held back |
| `Ports.RawDutyReachesItsMotor` | src/diffdrive/differential_drive.cpp:653-667 | over any run since begin() a raw-duty cycle leaves on each motor its own command, as a fraction and held to the rail |
| `Ports.VelocityReachesItsMotor` | src/diffdrive/differential_drive.cpp:748-812 | over any run since begin() a velocity cycle leaves on each motor the duty the law computes for its own wheel, from that wheel's target, map and state |
| `Ports.FeedforwardReachesItsMotor` | src/diffdrive/differential_drive.cpp:794-804 | under a law of feedforward alone each motor is left with its own raw target's share of full duty, held to the rail |
| `LawFacts.PidIsWeightedSum` | src/diffdrive/differential_drive.cpp:1003-1021 | between its limits the PID is kp*err + kaff*aCmd + ki*posError, the last only where it has a limit |
| `LawFacts.PidIsHeld` | src/diffdrive/differential_drive.cpp:1003-1021 | and at them: the integral is the value nearest ki*posError inside iMax, the whole the nearest to the sum inside pidMax |
| `LawFacts.PidPushesBack` | src/diffdrive/differential_drive.cpp:1003-1021 | with gains that are not negative the PID never falls as error, acceleration or lag grow, clamps included |
| `LawFacts.CorrectionInvertsMap` | src/diffdrive/differential_drive.cpp:989-1001 | a correction that is not silent has the commanded sign and inverts the wheel's own map for the direction of the speed change, bias apart |
| `LawFacts.LambdaRecovers` | src/diffdrive/differential_drive.cpp:693-708 | below what the demands allow, lambda closes the share dt / 0.3 s of the gap, and all of it from 0.3 s on |
| `LawFacts.TargetsTurn` | src/diffdrive/differential_drive.cpp:710-746 | with the floor off the two targets have the scaled velocity for their mean, and the scaled twist plus the trim for their half-difference |
| `LawFacts.TwistReferenceAdvances` | src/diffdrive/differential_drive.cpp:719-728 | the twist reference is anchored where the wheels stand and advances by the scaled twist over the interval |
| `LawFacts.TrimFollowsLag` | src/diffdrive/differential_drive.cpp:729-740 | the trim is the gain times what was commanded less what the encoders turned, held to the headroom, and with any headroom has the sign of that lag |
| `LawFacts.HeadroomIs` | src/diffdrive/differential_drive.cpp:736-739 | the headroom is the largest value both scaled targets leave inside the authority |
| `LawFacts.BiasStandsStill` | src/diffdrive/differential_drive.cpp:770-776 | a wheel's bias moves only when adaptation is allowed and its sample is connected, unsuspected and at most 200 ms old, above the floor and in steady motion |
| `LawFacts.BiasLearns` | src/diffdrive/differential_drive.cpp:1048-1054 | and then by err*dt/tau, held to its limit |
| `LawFacts.NoLearningWhileLimited` | src/diffdrive/differential_drive.cpp:806-812 | no bias moves while lambda is under 0.95 |
| `LawFacts.DeficitIff` | src/diffdrive/differential_drive.cpp:814-833 | the deficit latch is fed exactly the condition that the wheel misses its speed by more than a set threshold with both bias and PID at their set limits, under its own window |
| `LawFacts.WheelRemembers` | src/diffdrive/differential_drive.cpp:678-681 | a velocity cycle leaves each wheel its target for the next cycle and the saturation of the demand before; its sample and port are untouched |
| `LawFacts.RawCycleRemembers` | src/diffdrive/differential_drive.cpp:653-667 | a raw-duty cycle leaves lambda at 1, the twist reference disarmed, each wheel its own demand and saturation, and everything adapted or timed as it was |
| `Acceptance.DriveAcceptedIff` | src/diffdrive/differential_drive.cpp:387-418 | drive() is accepted if and only if the kernel is begun, estop is clear, maxDuty > 0 and fullDutyVelocity > 0; the mailbox then holds it to the end of its lease, at most 3600000 ms; each refusal has its one reason, and changes nothing but the first error |
| `Acceptance.DriveDutyAcceptedIff` | src/diffdrive/differential_drive.cpp:420-444 | driveDuty() the same without calibration |
| `Acceptance.WheelsVAcceptedIff` | src/adapter/diffdrive_adapter.cpp:171-193 | WHEELS_V is accepted (code 0) if and only if drive() would be and its duration is at most 5000 ms; past that code 3, otherwise code 8, and then command and counter stay |
| `Acceptance.PowerUpRefuses` | src/diffdrive/differential_drive.h:466-520 | a kernel fresh from power-up refuses every motion command, and still does once begun, until it has a duty limit |
| `Acceptance.StagedIff` | src/diffdrive/differential_drive.cpp:269-337 | begin() is refused only for want of a duty limit; a configuration is staged whole, but for a cadence begin() has frozen, whose change alone is refused; setCyclePeriod() stages before begin() and not after |
| `Acceptance.EstoppedTakesNothing` | src/diffdrive/differential_drive.cpp:387-396 | over any run without an estop clear, a stopped kernel stays stopped and accepts no command: the mailbox is what it was, or neutral |
| `Acceptance.EstopWindow` | src/diffdrive/differential_drive.cpp:452-471 | so what may run after an estop and its clear is only what had been accepted before, under its old lease |
| `Acceptance.StopIsAccepted` | src/diffdrive/differential_drive.cpp:446-450 | a stop is accepted in every state and posts a neutral command |
| `Acceptance.StopHolds` | src/diffdrive/differential_drive.cpp:446-450 | from a stop on, every cycle before the next motion command runs the stop path |
| `Acceptance.CadenceIsFrozen` | src/diffdrive/differential_drive.cpp:269-305 | over any run the cycle period never changes after begin() |
| `Acceptance.FirstRefusalSticks` | src/diffdrive/differential_drive.h:462-464 | over any run the error reported is the first refusal, of whatever command |
| `Acceptance.ConfigTakesEffect` | src/diffdrive/differential_drive.cpp:500-505 | from power-up every cycle runs under the last configuration staged before it, as long as fewer than 2^32 were |
| `Acceptance.ConfigureTakesEffectIff` | src/diffdrive/differential_drive.cpp:500-505 | a staged block is lost exactly when its counter comes round to the one last taken and it differs from the one in force |
| `DriveRuns.LeaseReadsLiveIff` | src/diffdrive/differential_drive.cpp:559-563 | for all time: a lease reads live if and only if it has not run out or it ran out more than 2^31 ms ago modulo 2^32 |
| `DriveRuns.LeaseIsExact` | src/diffdrive/differential_drive.cpp:559-563 | a lease reads as it should up to 2^31 ms past its end, across uint32 wrap |
| `DriveRuns.LeaseRevives` | src/diffdrive/differential_drive.cpp:559-563 | one millisecond past that bound the same mailbox reads live again |
| `DriveRuns.MovingMeansLive` | src/diffdrive/differential_drive.cpp:557-582 | a cycle that ends with nonzero duty staged had a live lease, no estop and no stall halt |
| `DriveRuns.StopsIff` | src/diffdrive/differential_drive.cpp:557-586 | a cycle runs the stop path exactly when estopped, stall-halted, expired or neutral, or in velocity mode without calibration; otherwise it runs the mailbox's own mode |
| `DriveRuns.LiveIffHeld` | src/diffdrive/differential_drive.cpp:398-444 | over every run from power-up the command in the mailbox was accepted no later than now and reads live exactly when its lease has not run out or has revived |
| `DriveRuns.DeadMan` | src/diffdrive/differential_drive.cpp:398-444 | over every run from power-up, a cycle that stages nonzero duty at T holds a command accepted at some T0 <= T with T < T0 + lease, or one whose lease has revived |
| `DriveRuns.WireLeaseIsShort` | src/adapter/diffdrive_adapter.cpp:171-176 | commands from the wire never hold more than 5000 ms |
| `DriveRuns.WireDeadMan` | src/adapter/diffdrive_adapter.cpp:171-193 | from 5000 ms after the last accepted command, for all time, a cycle runs the stop path if and only if estop, a stall halt, the mode or missing calibration says so or the lease has not revived, and then leaves zero staged for both motors |
| `DriveRuns.StopCycleIsSilent` | src/diffdrive/differential_drive.cpp:557-586 | from the first cycle after begin(), whatever happened before and whatever the configuration, a cycle that runs the stop path leaves both ports at zero |
| `DriveRuns.CycleTracks` | src/diffdrive/differential_drive.cpp:868-888 | after every cycle each port holds what the kernel last staged |
| `DriveRuns.StaysPrimed` | src/diffdrive/differential_drive.cpp:868-888 | the condition for that survives every event, emergency stops included |
| `StopPath.StopIsReasserted` | src/diffdrive/differential_drive.cpp:868-888 | over any run, whatever events lie between: a stop after motion is written at once, and again at each of the next 30 stop cycles |
| `StopPath.StopIsWrittenIff` | src/diffdrive/differential_drive.cpp:868-934 | over any run a stop cycle writes zero to both motors exactly when something was still staged, a wheel exceeds the rest speed, it enters a halt, or fewer than 30 cycles have passed since a stop, begin() or the entry of a halt; otherwise it writes nothing |
| `StopPath.EveryStopIsWrittenIff` | src/diffdrive/differential_drive.cpp:868-934 | when a stop cycle writes, exactly, at the end of every run from power-up |
| `StopPath.LateEstopIsWritten` | src/diffdrive/differential_drive.cpp:576-582 | an estop that lands at a motor long since quiet is written afresh |
| `StopPath.CycleGate` | src/diffdrive/differential_drive.cpp:868-934 | one cycle's countdown, and when a stop cycle writes, also when it enters a halt |
| `Resume.ClearStallRestoresIff` | src/diffdrive/differential_drive.h:330-336 | the first cycle after a clear-stall request runs the mailbox's own mode if and only if its lease is live, estop is clear and a velocity command has its calibration: the stated need for a fresh command does not hold |
| `Resume.EstopClearRestoresIff` | src/diffdrive/differential_drive.cpp:460-462 | the same after clearing estop, with a stall halt in place of the estop |
| `Resume.RawDutyMovesIff` | src/diffdrive/differential_drive.cpp:653-667 | a raw-duty cycle moves the wheels exactly when either duty, and the rail, is not zero |
| `Resume.StallingCommandResumes` | src/diffdrive/differential_drive.cpp:537-542 | a run: one WHEELS_V moves, stalls at a jam, halts the kernel and is silent; a clear request alone then makes the same command move the wheels again |
| `Resume.ReadyIsReached` | src/diffdrive/differential_drive.h:466-520 | and its starting state is reached from power-up |
| `StallLatch.LatchedIff` | src/diffdrive/differential_drive.cpp:1089-1099 | latched exactly when the condition holds, under the window configured now, and has held at every evaluation of an unbroken stretch from a nonzero time at least the truncated window ago; a window under 1 ms needs no stretch |
| `StallLatch.SinceMeansStart` | src/diffdrive/differential_drive.cpp:1089-1098 | the stored time is the first nonzero time of the unbroken stretch |
| `StallLatch.CountsTowardsHaltIff` | src/diffdrive/differential_drive.cpp:845-854 | a velocity cycle counts towards the halt if and only if a window and a demand threshold are set, one of |velocity - twist| and |velocity + twist| exceeds it, both encoder speeds are within stallSpeed and both wheels are connected |
| `StallLatch.TurningNeverHalts` | src/diffdrive/differential_drive.cpp:845-861 | over any run, a kernel one of whose wheels exceeds stallSpeed at every velocity cycle never halts itself |
| `StallLatch.TurningSincePowerUpNeverHalts` | src/diffdrive/differential_drive.cpp:845-861 | so in particular from power-up: an ordinary pivot on a still wheel does not halt it |
| `StallLatch.LatchFollowsHistory` | src/diffdrive/differential_drive.cpp:845-854 | over any run, reconfigurations included, the kernel's latch is the fold of its evaluations, each with its own window; raw-duty cycles evaluate nothing |
| `StallLatch.LatchSincePowerUp` | src/diffdrive/differential_drive.cpp:845-854 | from power-up: the latch is the fold of everything evaluated since, and a latched kernel is halted |
| `StallLatch.SelfHaltsIff` | src/diffdrive/differential_drive.cpp:853-861 | over any run a cycle leaves the kernel stall-halted exactly when it was and no clear was asked for, or the condition has now held for the window in force |
| `StallLatch.SelfHaltsSincePowerUpIff` | src/diffdrive/differential_drive.cpp:853-861 | when a cycle leaves the kernel stall-halted, exactly, at the end of every run from power-up |
| `StallLatch.CycleOnStall` | src/diffdrive/differential_drive.cpp:537-542 | one cycle: the latch is cleared by request, evaluated by mode, and halts when and only when it closes |
| `StallLatch.HaltPersists` | src/diffdrive/differential_drive.cpp:537-542 | the halt survives every event but a clear request |
| `StallLatch.HaltSilences` | src/diffdrive/differential_drive.cpp:855-861 | only the latching cycle may still stage motion; every later one is silent until a clear is requested |
| `ControlBounds.EveryCycleIsBounded` | src/diffdrive/differential_drive.cpp:796-812 | over any run, reconfigured anywhere, every cycle after begin() leaves at most max(rail, crawlPulse) of the configuration in force on each port, with 0 <= lambda <= 1, lambda at most this cycle's authority where it is enabled, and |pid| <= pidMax where that is set (a raw-duty cycle keeps the PID it found) |
| `ControlBounds.BiasNeverExceeds` | src/diffdrive/differential_drive.cpp:1042-1055 | over any run from power-up whose configurations allow no bias above a value, the adapted bias never exceeds it |
| `ControlBounds.RailSufficesIff` | src/diffdrive/differential_drive.cpp:1057-1070 | the rail alone bounds what is emitted, for every demand and carry, if and only if the crawl pulse is no longer than the rail (or the rail is zero) |
| `ControlBounds.AuthorityIsLargest` | src/diffdrive/differential_drive.cpp:696-698 | the instantaneous authority is the largest ratio up to 1 that brings both last demands inside the rail |
| `ControlBounds.LambdaWithinAuthority` | src/diffdrive/differential_drive.cpp:693-708 | lambda is shed at once to it and given back without overshoot |
| `ControlBounds.TrimWithinAuthority` | src/diffdrive/differential_drive.cpp:717-746 | the twist trim never takes a wheel past max(authority, its own scaled target) |
| `ControlBounds.RatioIsKept` | src/diffdrive/differential_drive.cpp:710-715 | with twist hold off, scaling and the speed floor keep the commanded wheel ratio |
| `ControlBounds.FeedforwardNeverReverses` | src/diffdrive/differential_drive.cpp:989-1001 | feedforward is zero or has the commanded sign, whatever the bias |
| `ControlBounds.DriveWheelBounded` | src/diffdrive/differential_drive.cpp:989-1070 | one wheel's PID, bias and duty bounds |
| `ControlBounds.CrawlConserves` | src/diffdrive/differential_drive.cpp:1057-1070 | over any sequence of nonzero duties what was asked and what was emitted differ by pulse times the change of carry, and the carry stays in [0,1) |
| `ControlBounds.CrawlWithinOnePulse` | src/diffdrive/differential_drive.cpp:1057-1070 | so by less than one pulse, however long the sequence |
| `ControlBounds.VelocityAccountsForTravel` | src/diffdrive/differential_drive.cpp:890-915 | published velocities times their intervals add up to the encoder displacement, failed collects included |
| `Published.IntervalIsElapsed` | src/diffdrive/differential_drive.cpp:525-531 | over any run from power-up the interval the law works with is the true time since the last cycle in seconds, zero at the first and right up to 2^32 us |
| `Published.OutputIsOfTheReadings` | src/diffdrive/differential_drive.cpp:948-975 | what a cycle publishes of each wheel is what its own port reported: position, speed over the interval between its samples, applied duty in percent, connection, wedge; with the speeds' mean and half-difference |
| `Published.OutputIsOfTheKernel` | src/diffdrive/differential_drive.cpp:940-981 | and of the kernel: time and number of the cycle, period, lambda, biases, readiness, estop, halt, lease and counters, each its own, under two increments |
| `Published.TelemetryShowsEncoders` | src/adapter/diffdrive_adapter.cpp:303-322 | over any run from power-up, posl and posr of a snapshot are the left and right encoder's own position, in wire units, to the nearest one |
| `Published.LeaseExpiryIsCounted` | src/diffdrive/differential_drive.cpp:559-565 | a lease counts as run out at a cycle that finds it dead after one that found it live, and at no other; what the gates remember is this cycle's lease and halt |
| `Published.FaultIsCounted` | src/diffdrive/differential_drive.cpp:606-613 | a cycle counts as a bus fault if and only if either wheel's stamp stood still |
| `Published.RebaseRestarts` | src/diffdrive/differential_drive.cpp:543-555 | a rebase restarts both wheels' samples and positions and advances every epoch by one, leaving duties, biases and references alone |
| `Published.NoRebaseNoRestart` | src/diffdrive/differential_drive.cpp:543-555 | without a request nothing restarts |
| `Published.RebaseReanchors` | src/diffdrive/differential_drive.cpp:1023-1032 | a position reference of another epoch is anchored anew, not integrated on |
| `Published.StopForgets` | src/diffdrive/differential_drive.cpp:624-651 | every stop cycle leaves the law at rest, and entering a halt also wipes bias, references, carries and timers of both wheels |
| `Published.StopKeepsBias` | src/diffdrive/differential_drive.cpp:577-581 | a stop no halt ordered keeps what was learned |
| `Fidelity.UnitRebake` | src/archive/diffdrive/golden_ref_drive.h:7-10 | over every fair trace the kernel fed s-scaled commands, samples and gains computes the reference law's left and right duty, cycle for cycle |
| `Fidelity.UnitRebakeAtTheMotors` | src/archive/diffdrive/golden_ref_drive.h:7-10 | and what both laws then leave at the motors: over every fair trace from begun kernels the two ports hold the reference's written duties, left and right |
| `Fidelity.TurnFaithful` | src/diffdrive/differential_drive.cpp:749-812 | one cycle keeps the scaling relation on bias, position references, acceleration filter, last speeds and crawl carry |
| `Fidelity.WheelFaithful` | src/archive/diffdrive/golden_ref_drive.cpp:221-263 | one wheel's demand is the same number in both laws, and inside the rail so is all that follows |
| `Fidelity.RailDecides` | src/diffdrive/differential_drive.cpp:801-804 | from corresponding wheels the duties agree if and only if the demand is within the rail (crawl pulse no longer than the rail) |
| `Fidelity.FloorParts` | src/archive/diffdrive/golden_ref_drive.cpp:68-82 | from corresponding wheels, for all targets and dt > 0, the two commanded accelerations correspond if and only if the speed floor is idle or this wheel's target is zero; with acceleration fed forward and the PID unclamped so do the demands, and, inside the rail and without crawl pulses, the duties |
| `Fidelity.KernelDemand` | src/diffdrive/differential_drive.cpp:749-795 | at any speed the kernel's acceleration and demand are what the reference's stages give for it |
| `Fidelity.CorrectedScales` | src/archive/diffdrive/golden_ref_drive.cpp:97-108 | the wheel correction commutes with scaling |
| `Fidelity.PidScales` | src/archive/diffdrive/golden_ref_drive.cpp:136-154 | the fast PID commutes with scaling, its clamps included |
| `Fidelity.PositionScales` | src/archive/diffdrive/golden_ref_drive.cpp:156-173 | the position error and its reference commute with scaling |
| `Fidelity.BiasScales` | src/archive/diffdrive/golden_ref_drive.cpp:175-187 | bias adaptation commutes with scaling |
| `Fidelity.AccelScales` | src/archive/diffdrive/golden_ref_drive.cpp:71-79 | the commanded-acceleration filter commutes with scaling |
| `Fidelity.DemandScales` | src/archive/diffdrive/golden_ref_drive.cpp:257-260 | duty per mm/s and full-duty counts/s give the same duty |
| `Fidelity.BootIsSame` | src/archive/diffdrive/golden_ref_drive.h:134-218 | both laws start in corresponding states |
| `GoldenRef.ReferenceDrive.Command` | src/archive/diffdrive/golden_ref_drive.cpp:13-20 | targets, deadline and ownership |
| `GoldenRef.ReferenceDrive.Update` | src/archive/diffdrive/golden_ref_drive.cpp:55-87 | expiry, the acceleration filter and what is published for tick() |
| `GoldenRef.ReferenceDrive.Tick` | src/archive/diffdrive/golden_ref_drive.cpp:221-263 | both duties, the adapted state and the write gate |
| `Seqlock.ReaderSeesWholeBlock` | src/diffdrive/differential_drive.cpp:485-494 | under any interleaving of single-field stores and loads, in any order on either side, with fewer than 2^31 blocks per attempt, output() returns one whole committed block |
| `Seqlock.CheckReturnsIff` | src/diffdrive/differential_drive.cpp:485-494 | an attempt of output() that has copied every field returns if and only if no block was begun or finished during it and none is under way |
| `Seqlock.WrappedCounterTears` | src/diffdrive/differential_drive.cpp:485-494 | with exactly 2^31 blocks between two loads it returns half of one and half of another |
| `Seqlock.MailboxIsWholeIff` | src/diffdrive/differential_drive.cpp:507-516 | under any interleaving of field stores, loads and increments, each store changing its field, a copy the reader accepts is the command last posted if and only if no field was loaded after a store to it since the last increment |
| `Seqlock.UnstoredIsWhole` | src/diffdrive/differential_drive.cpp:507-516 | whatever the stores write, an accepted copy is the command last posted if no field was loaded after a store to it since the last increment |
| `Seqlock.AtomicMailboxIsWhole` | src/diffdrive/differential_drive.cpp:507-516 | so the single-increment mailbox is whole when copy and increment look like one step |
| `Seqlock.SplitMailboxTears` | src/diffdrive/differential_drive.cpp:415-416 | and returns a command nobody wrote when they do not |
| `Seqlock.StepKeeps` | src/diffdrive/differential_drive.cpp:936-981 | what every single access keeps |
| `EndToEnd.TextExactlyOnce` | src/protocol/protocol_handler.cpp:273-454 | on real lines: what was executed is the reading of what was sent, each once and in order, if and only if every HELLO of the run came while the robot expected id 1 |
| `EndToEnd.EncodedSendIsAStep` | src/host/robot_v6/reliability.py:194-199 | what send() encodes from texts free of LF and NUL is one line and always a step of the sequence machine |
| `EndToEnd.LineIsOneDelivery` | src/protocol/protocol_handler.cpp:273-312 | any raw line, over-long and blank ones included, moves the handler as one delivery moves the machine's robot |
| `EndToEnd.WheelsVArrivesUnchanged` | src/protocol/protocol_handler.cpp:861-872 | a WHEELS_V that was executed was executed with the numbers it was called with |
| `EndToEnd.WireToWheel` | src/adapter/diffdrive_adapter.cpp:171-193 | from the encoded bytes to the kernel: acked, and raw targets exactly left*c and right*c under the named lease |
| `EndToEnd.WireToMotor` | src/adapter/diffdrive_adapter.cpp:171-193 | the bytes of one WHEELS_V in its turn and one cycle: under a law of feedforward alone the left motor is left with left*c, the right with right*c, as its share of full duty held to the rail |
| `EndToEnd.MotorsAreReached` | src/diffdrive/differential_drive.h:466-520 | and such a moment is reached from power-up |
| `EndToEnd.WireVerdict` | src/protocol/protocol_handler.cpp:443-453 | whatever the duration and the kernel's state, the line is acked; it is refused with code 3 exactly past 5000 ms, with code 8 exactly when the kernel is not begun, stopped, without duty limit or not calibrated; refused, command and counter stay |
| `EndToEnd.WirePastCeiling` | src/protocol/protocol_handler.cpp:443-453 | past 5000 ms the line is acked, refused with code 3, and the mailbox keeps what it held |
| `EndToEnd.LineIsItsEvent` | src/protocol/protocol_handler.cpp:417-454 | what any line does to the kernel is one of the kernel's own events |
| `EndToEnd.WireDeadManEndToEnd` | src/adapter/diffdrive_adapter.cpp:171-193 | over any run of lines, time and cycles from power-up in which only lines drive, every cycle from 5000 ms after the last accepted command on stops, and leaves zero staged, if and only if something holds it back or the lease has not revived |
| `WireConfig.SetLine` | src/protocol/protocol_handler.cpp:770-784 | the bytes of a SET line in its turn, with any text for a value: if the text is a number, acked and the named field holds exactly it, every other field and the mailbox as before; if not, nacked with code 2, the id still expected, nothing changed |
| `WireConfig.SetTenths` | src/protocol/protocol_handler.cpp:111-132 | so SET of w.d leaves w + d/10 in the field |
| `WireConfig.GetLineAnswers` | src/protocol/protocol_handler.cpp:737-768 | the bytes of a GET line in its turn: acked, then the field's own name and the text of its staged value; nothing changes |
| `WireConfig.SetThenGetOverWire` | src/protocol/protocol_handler.cpp:737-784 | a number SET over the wire is what the next GET says, within half a millionth where the formatter can write it |

## Left out

- ParseFloat: keeps the exact decimal value; rounding to a 32-bit float is not modelled (overflow to infinity is).
- Fixed: over the reals, so the float rounding of value * 10^6 + 0.5 is not modelled.
- Handler.ProtocolHandler.Feed: a line whose first visible byte is a NUL is excluded, because the source's behaviour on it is undefined.
- Handler.ProtocolHandler.Perform: the text of ID, VER, STATUS and HELP replies is one marker each.
- Station.Execute: the text of ID, VER, STATUS, HELP and banner lines is one marker each; RUN and FUNCS follow this adapter's empty registry, so no `ret` line exists.
- Codec.ParseReply: separates at ' ' only; Python's split() also takes other white space, which the robot never emits inside a reply.
- Codec.FormatField: the shortest decimal text of a finite float is Python's and is passed as text.
- Session.Session.HandleReply: reads plain decimal digits; other spellings int() takes are treated as raising. The robot writes no others.
- on_reply: what a callback does with a reply; which replies it is given, and in what order, is modelled.
- Session.Session.WaitForDone: time and arriving lines are a given script of passes with one clock reading each; the real clock and blocking reads are outside.
- Lines.Transport.ReadLines: a byte is a character; replacing non-ASCII bytes is not modelled.
- Drive.DifferentialDrive.PublishOutput: a subset of the published fields (no fine stamps, busy time, overrun count or saturation flags).
- KernelCycle.Step: the callers' fiber does not write between the decisions of one cycle; the interleavings of the two exchanges are in Seqlock instead. A port is its last staged duty, a write count and its reading.
- Drive.DifferentialDrive.SetConfig: finite-value refusals do not exist over the reals; of the chainable setters only maxDuty, fullDutyVelocity and cyclePeriod are modelled.
- Fidelity.KernelTurn: takes the velocity step directly (a live lease is part of the comparison), with samples, freshness and epochs given per cycle; how often each gate writes a quiet stop again is not compared, since the reference's rest threshold differs.
- Fidelity.RailDecides: one wheel and one cycle from corresponding states, for crawl pulses no longer than the rail.
- Fidelity.FloorParts: one wheel and one cycle; what a clamped PID makes of the two accelerations is left open.
- Adapter.DiffDriveAdapter.BuildSnapshot: a rounded value past 32 bits wraps; what lround does past its own range is left to the platform.
- Resume.StallingCommandResumes: one plain law (feedforward only) and one jam; the two restoring conditions are for every configuration.
- GoldenRef.ReferenceDrive.Update: without the state.command fields other parts of the robot read.
- GoldenRef.ReferenceDrive.Tick: without the deficit and stall latches and the OTOS test; none reaches the duty. takeover(), estop() and move completion polling are absent too.
- Telemetry.TelemetryEmitter: the handler's header fields, kept in a class of their own beside it.
- Storm.GroupBound: for reply arrivals in time order; what else the host does in between is immaterial to it.
- HELP, ID, VER formatting, sendDebug and the unsolicited ready line: text only.
- wait_for_ack: the same loop as wait_for_done, without polling.
- Serial, socket and subprocess transports, the simulator, the command line, calibration prompts, configuration files: input and output plumbing.
- The archived v5 protocol and the archived copy of the live kernel.
