# Verification of the P4Runtime controller's core

This project models the parts of the P4Runtime controller whose correctness is hardest to see from the code, and
proves what each of them is for. `dafny verify dfyconfig.toml` checks everything.

* **Byte strings** (`Bits`, `Bytes`, `Codec`): powers of two, bitwise AND and rounding on numbers; big-endian
  strings and their numbers; the encoders and masks of `internal/codec` as loops over byte arrays, each proved
  equal to one sentence about the number.
* **Table keys** (`MatchField`, `MatchMeaning`, `TableEntry`, `KeyAbstraction`): the builder of table entries. The
  central theorem is full abstraction: the wire key keeps exactly the packets that were asked for, and two
  builders have one key if and only if they have one priority and match the same packets.
* **Stream supervisor** (`Supervisor`, `StreamObjects`, `SupervisorInv`, `SupervisorCalls`, `SupervisorResults`,
  `SupervisorDrain`, `SupervisorEnds`, `SupervisorHistory`, `SupervisorOutcomes`, `SupervisorSends`,
  `SupervisorShutdown`, `SupervisorVerdict`, `SupervisorWitness`): main loop, API calls, receive
  goroutines and environment as a step system. A label resolves every choice of `select`, of the network and of a
  timer. One invariant is kept by every step; the results are about every finite run from `New`, for any number of
  concurrent calls and any number of sessions.
* **Typed values** (`Numeric`, `Register`, `RegisterMeaning`, `RegisterResults`, `RegisterCycles`): the normalizer of
  register data over a possibly cyclic table of type specifications, against an independent meaning of types (finite
  trees) and values (denotations) that knows no path set and no order of evaluation.
* **P4Info** (`MessageGraph`, `Pipeline`): the three-colour search over the message graph, and the table index with
  the deep copies that its queries return.
* **Literals** (`Values`): the hexadecimal forms and the command line's `decodeValue`.

The step functions of the supervisor follow the code as follows: `ConnectStep` the loop of `run` with `arbitrate`,
`sleep` and `nextBackoff` (internal/stream/supervisor.go:345-452, 624-660), `ServeStep` the loop of `serve` with
`failPending` (454-535, 565-574), `FinishStep` `finishStream` and the deferred functions of `run` (346-354,
537-563), `SendCall` `Send` and `enqueue` (215-266), `CloseCall` `CloseGracefully` (274-317), `WaitCall` the `wait`
of a request (124-143), `BecomeCall` `BecomePrimary` (client/client.go:211-230), `ReceiverStep` the goroutine of
`serve` (457-483). An epoch is the identity of the channel in `changed`; the histories in the state (epochs,
accepted requests, transmissions, dials) only record what happened and decide nothing.

Functions that compute, such as `Codec.Encode` or `Register.Norm`, are the specifications that the methods are
proved against; what they mean is proved by the lemmas named below.

## Findings

* On the last seven widths of a 64-bit `int` the byte count of a field overflows, and only zero can be encoded:
  `Codec.EncodeWhenByteCountOverflows` gives the condition, `Codec.OneAtTheWidestWidth` an input. No width of a
  P4Info field, an `int32`, gets there.
* `Tables` is documented to return every table. With two different tables of one ID it returns the last of them in
  both places: `Pipeline.TablesAreTheTables` gives the condition, `Pipeline.SecondTableTwice` an input.
* A graceful close half-closes the stream if and only if its context is live when its request is dequeued
  (`SupervisorDrain.HalfClosedIffLive`, and over whole runs `SupervisorDrain.HalfClosedExactly`). When it has ended,
  the loop goes on serving with `draining` closed, the stream is never half-closed
  (`SupervisorDrain.NoHalfCloseAfterDrain`) and no closing call reports success
  (`SupervisorDrain.CancelledDrainNeverSucceeds`). `SupervisorWitness.SomeRunNeverHalfCloses` is such a run.
* A call can return a cancellation although its own context is live: exactly when the request it waits for was
  finished with one (`SupervisorOutcomes.ReturnsCancelledExactly`), which happens exactly when that request's context
  has ended or it is flushed behind a cancelled transmission (`SupervisorOutcomes.FinishedCancelledExactly`).
  `SupervisorOutcomes.CancelledByOthers` says for whole runs whose context has ended then. `SupervisorWitness.SomeRunCancelsAnotherSend` and `SupervisorWitness.SomeRunNeverHalfCloses` are runs of
  both kinds.

## Model

| member | source | states |
|---|---|---|
| Codec.StripLeadingZeros | internal/codec/codec.go:311-322 | the result is the canonical string of the number |
| Codec.EncodeBytes | internal/codec/codec.go:58-89 | succeeds exactly when the number fits the width, with its canonical string, by a test of the first significant byte only |
| Codec.TopByteTest | internal/codec/codec.go:66-88 | length and first byte of a string decide whether its number is below 2^width, at any width, byte-aligned or not |
| Codec.EncodeIsCanonical | internal/codec/codec.go:53-89 | success if and only if the number is below 2^width; the result is the one shortest nonempty string with the number |
| Codec.EncodeWhenByteCountOverflows | internal/codec/codec.go:324-326 | where the wrapped byte count makes a fitting number fail |
| Codec.OneAtTheWidestWidth | internal/codec/codec.go:58-89 | the number one fails at the widest width, although it fits |
| Codec.ClearLowBits | internal/codec/codec.go:249-259 | in place, exactly the count low bits of the string are cleared |
| Codec.ClearedIsFloor | internal/codec/codec.go:249-259 | clearing low bits of the bytes rounds the number down to a multiple of 2^count |
| Codec.LPMMask | internal/codec/codec.go:183-196 | canonical string of the value rounded down to its prefix, with each error case |
| Codec.LpmExactly | internal/codec/codec.go:183-196 | succeeds exactly when prefix and value fit; the result is canonical for floor(v / 2^(w-p)) * 2^(w-p) |
| Codec.FieldOnes | internal/codec/codec.go:213-221 | the buffer with a partial first byte stands for 2^width - 1 |
| Codec.TernaryMask | internal/codec/codec.go:203-223 | canonical string of (2^prefix - 1) * 2^(width - prefix), with each error case |
| Codec.PrefixExactly | internal/codec/codec.go:203-223 | succeeds exactly when the prefix fits; the result is canonical for (2^p - 1) * 2^(w-p) |
| Codec.AndAligned | internal/codec/codec.go:236-244 | the loop over operands of unequal length computes bitwise AND of the two numbers |
| Codec.TernaryApply | internal/codec/codec.go:228-246 | canonical string of the bitwise AND of value and mask |
| Codec.MaskedExactly | internal/codec/codec.go:228-246 | succeeds exactly when value and mask fit; the result is canonical and has exactly the bits that both have |
| Bits.AndBits | internal/codec/codec.go:236-244 | a bit of the conjunction is set exactly when it is set in both numbers |
| Codec.LpmIsTernary | internal/codec/codec.go:178-246 | a prefix match is the ternary match under the prefix mask, and floor(v / 2^k) * 2^k as a number |
| Codec.ValidateRange | internal/codec/codec.go:265-278 | accepts exactly when both ends fit and are in numeric order |
| Codec.RangeExactly | internal/codec/codec.go:265-278 | no error exactly when both ends are below 2^width and low <= high as numbers |
| Bytes.LengthLexIsNumeric | internal/codec/codec.go:274-276 | on canonical strings, length first and then bytes is the order of the numbers |
| Codec.EncodeUint | internal/codec/codec.go:28-43 | the canonical string of v, or the error, as the next row describes |
| Codec.UintExactly | internal/codec/codec.go:28-43 | succeeds exactly for widths 1 to 64 and numbers below 2^width; the result is canonical, has the number, and is what EncodeBytes gives for its bytes in any form |
| Codec.DecodeUint | internal/codec/codec.go:93-102 | at most eight bytes give their number; the shifts lose no bit |
| Codec.UintRoundTrip | internal/codec/codec.go:28-102 | decoding undoes encoding for every value and width |
| MatchField.AllZero | tableentry/builder.go:418-425 | true exactly for the number zero |
| MatchField.IsFullRange | tableentry/builder.go:399-416 | true exactly for the range 0 to 2^width - 1 |
| MatchField.EncodeField | tableentry/builder.go:228-329 | the wire form, the wildcard or the error of one match, in terms of numbers |
| MatchMeaning.AcceptedExactly | tableentry/builder.go:228-329 | a match compiles exactly when its kind is the declared one and its numbers fit, prefix and range in bounds |
| MatchMeaning.MeaningPreserved | tableentry/builder.go:228-329 | the emitted field, or its omission, matches exactly the field values meant, for every kind and width |
| MatchMeaning.KeyIsNormal | tableentry/builder.go:228-329 | what is emitted is canonical: no redundant bytes, no don't-care bits set, no wildcard spelled out |
| MatchMeaning.Apart | tableentry/builder.go:228-329 | two different normal forms of a field are told apart by some field value |
| MatchMeaning.OmittedIffWildcard | tableentry/builder.go:228-416 | a field is omitted exactly when every value of it is meant |
| TableEntry.Builder.constructor | tableentry/builder.go:43-56 | a builder without pipeline or table keeps that for BuildKey to report |
| TableEntry.Builder.Action | tableentry/builder.go:66-73 | the action is replaced, with the map of parameters that the next row describes |
| TableEntry.LastParamCounts | tableentry/builder.go:66-73 | a parameter name stands for the value of its last occurrence, and for nothing when it does not occur |
| TableEntry.Builder.EncodeMatches | tableentry/builder.go:196-226 | the match list in field ID order, the missing exact field and the unknown field |
| TableEntry.Builder.BuildKey | tableentry/builder.go:166-194 | the key or the first error, as KeyIdentifies, FullAbstraction and KeySucceedsExactly describe |
| TableEntry.Builder.EncodeAction | tableentry/builder.go:331-396 | the action or the first error, as ActionSent and ActionSucceedsExactly describe |
| TableEntry.Builder.EncodeParams | tableentry/builder.go:373-387 | the declared parameters in order, or the first error |
| TableEntry.Builder.Build | tableentry/builder.go:122-160 | succeeds exactly when key, timeout and action do, and adds them to the key without changing it |
| KeyAbstraction.SortStrict | tableentry/builder.go:197-200 | with unique IDs the sort is strict and keeps each field once |
| KeyAbstraction.ListIncreasing | tableentry/builder.go:196-226 | field IDs of the match list strictly increase |
| KeyAbstraction.KeyKeepsPackets | tableentry/builder.go:166-329 | the key matches on the wire exactly the packets asked for, in strictly increasing field order |
| KeyAbstraction.FullAbstraction | tableentry/builder.go:166-329 | two builders for one table get the same key if and only if they have the same priority and match the same packets |
| KeyAbstraction.KeyIdentifies | tableentry/builder.go:166-194 | the key carries the table's ID, the caller's priority and the default flag; a default entry has no matches and no priority |
| KeyAbstraction.KeysApart | tableentry/builder.go:166-194 | equal keys come from tables of one ID, both default or both ordinary, with one priority |
| KeyAbstraction.KeySucceedsExactly | tableentry/builder.go:166-226 | when a key can be built, in terms of the caller's numbers only, for every table with positive widths |
| KeyAbstraction.ActionSucceedsExactly | tableentry/builder.go:331-396 | when a direct action can be written: constant and indirect tables, the scope of the first reference, parameters that fit and no others |
| KeyAbstraction.ParamsSent | tableentry/builder.go:373-387 | every declared parameter is sent once, in order, canonically |
| KeyAbstraction.ActionSent | tableentry/builder.go:331-396 | the action sent has the ID that the pipeline declares for the name, which the table refers to, and each declared parameter in order with its declared ID and the canonical form of the caller's number |
| KeyAbstraction.ActionsEqualExactly | tableentry/builder.go:331-396 | two accepted actions, of any two names, are equal on the wire exactly when their IDs, parameter IDs and numbers are |
| KeyAbstraction.ActionsFaithful | tableentry/builder.go:331-396 | two actions of one name are equal on the wire exactly when all parameters are equal as numbers |
| SupervisorInv.BackoffIsCappedDoubling | internal/stream/supervisor.go:654-660 | with 64-bit wrap-around, doubling and cap is min(2 * cur, max) over the integers |
| SupervisorInv.InitInv | internal/stream/supervisor.go:147-181 | the invariant holds in the state that New builds |
| SupervisorInv.ConnectKeeps | internal/stream/supervisor.go:356-452 | dialling, arbitration, failure and backoff keep the invariant |
| SupervisorInv.ServeKeeps | internal/stream/supervisor.go:454-574 | serving, transmitting, failing and flushing keep the invariant |
| SupervisorInv.FinishKeepsInv | internal/stream/supervisor.go:537-574 | half-close, final status, shutdown and the last flush keep the invariant |
| SupervisorInv.DrainIsLast | internal/stream/supervisor.go:503-510 | a dequeued drain request is the last accepted one, and every other is finished |
| SupervisorInv.SetModeKeeps | internal/stream/supervisor.go:590-597 | a state change closes the current channel and only that one |
| StreamObjects.StateCell.SetState | internal/stream/supervisor.go:590-597 | on objects: a change of state closes the channel held so far and installs a fresh one, which refines the step system's epochs |
| StreamObjects.StateCell.Connect | internal/stream/supervisor.go:369-371 | on objects: a connection attempt starts a new session in state Connecting, as the step system does |
| StreamObjects.StateCell.WatchState | internal/stream/supervisor.go:197-201 | the state together with the channel that its next change will close |
| StreamObjects.StateCell.SameChannelSameEpoch | internal/stream/supervisor.go:515-519 | comparing channels is comparing epochs, and a channel is closed when its epoch is |
| StreamObjects.SendRequest.Finish | internal/stream/supervisor.go:117-122 | the first outcome stays |
| StreamObjects.SendQueue.FailPending | internal/stream/supervisor.go:565-574 | the queue is emptied and every request in it is done, with its own outcome if it had one |
| SupervisorCalls.SendCallKeeps | internal/stream/supervisor.go:215-266 | each step of Send and enqueue keeps the invariant |
| SupervisorCalls.CloseCallKeeps | internal/stream/supervisor.go:274-317 | each step of CloseGracefully keeps the invariant |
| SupervisorCalls.StepKeeps | internal/stream/supervisor.go:215-574 | every step of every thread keeps the invariant |
| SupervisorCalls.RunInv | internal/stream/supervisor.go:215-574 | the invariant holds in every state of every run |
| SupervisorResults.RunLater | internal/stream/supervisor.go:108-122 | over a run histories only grow, raised flags stay and an outcome never changes |
| SupervisorResults.GracefulDrain | internal/stream/supervisor.go:274-317 | CloseSend at most once, only with every other accepted request finished and the queue empty; no dial and no CloseSend afterwards |
| SupervisorResults.NothingAcceptedWhileDraining | internal/stream/supervisor.go:243-317 | after draining closes, only the drain request can be accepted, once |
| SupervisorResults.EpochSafety | internal/stream/supervisor.go:511-521 | a message goes to the transport only in the epoch it captured, in this session, which was primary already then |
| SupervisorResults.NoReplay | internal/stream/supervisor.go:233-240 | a request of an ended epoch is never transmitted, in any later session |
| SupervisorResults.SentInAcceptanceOrder | internal/stream/supervisor.go:498-532 | transmissions are a duplicate-free subsequence of the acceptances, in order |
| SupervisorResults.FinishedOnce | internal/stream/supervisor.go:117-122 | a request that is about to be finished is never finished already |
| SupervisorResults.SendSuccess | internal/stream/supervisor.go:215-241 | Send returns nil only if the log of transmissions holds this very message, taken by the transport in the captured epoch |
| SupervisorEnds.SendSucceedsByTransport | internal/stream/supervisor.go:215-241 | Send returns nil only if an earlier step of the run is the transport returning nil for this very message |
| SupervisorSends.RefusedUnlessPrimary | internal/stream/supervisor.go:511-514 | a dequeued message is refused with ErrNotPrimary if and only if the supervisor is not primary then |
| SupervisorSends.TransmittedUnlessChanged | internal/stream/supervisor.go:515-521 | a message of a primary is transmitted if and only if the state has not changed since its Send read it, and fails with ErrStreamClosed otherwise |
| SupervisorSends.AnswerDecides | internal/stream/supervisor.go:520-526 | the transport's answer is the outcome, unless the context has ended |
| SupervisorSends.PendingFails | internal/stream/supervisor.go:565-574 | what a broken session leaves queued fails with the error that broke it, in order; after the end with ErrStreamClosed |
| SupervisorSends.SessionBreaks | internal/stream/supervisor.go:493-497 | that error is the one of the transmission or of the receive goroutine, and the state is Disconnected |
| SupervisorSends.ReturnsOutcomeOfRequest | internal/stream/supervisor.go:124-143 | a waiting call with a live context returns the outcome of its request, or ErrStreamClosed when the supervisor has stopped without one |
| SupervisorShutdown.LateSendIsRejected | internal/stream/supervisor.go:215-266 | a Send that begins after shutdown has begun is never accepted and returns only ErrStreamClosed or its own context's error |
| SupervisorShutdown.CancelledSendIsRejected | internal/stream/supervisor.go:219-246 | a Send whose context ends before its last test is never accepted |
| SupervisorShutdown.CancelledCloseStartsNothing | internal/stream/supervisor.go:274-283 | a CloseGracefully that begins with an ended context never starts a drain |
| SupervisorResults.CloseSuccess | internal/stream/supervisor.go:274-317 | CloseGracefully returns nil only after one half-close, with every accepted request finished |
| SupervisorEnds.CloseSucceedsByEOF | internal/stream/supervisor.go:537-563 | CloseGracefully returns nil only if CloseSend returned nil and the stream of that very session ended with EOF |
| SupervisorEnds.DrainSucceedsExactly | internal/stream/supervisor.go:545-554 | the drain request succeeds if and only if the end was EOF and the session not over; otherwise it fails with ErrStreamClosed or the end's error |
| SupervisorEnds.DrainEndWasRead | internal/stream/supervisor.go:545-554 | the end that is looked at is the one read from the stream of this session |
| SupervisorEnds.DrainFails | internal/stream/supervisor.go:538-562 | without an end of the stream it fails: the half-close was refused, or Close or a cancellation came first |
| SupervisorShutdown.NoReconnect | internal/stream/supervisor.go:361-367 | once draining or stop is closed there is no dial but one whose check came before |
| SupervisorShutdown.MainCanHalt | internal/stream/supervisor.go:332-404 | after Close the main loop can run to its end by its own steps from every state, whatever the transport answers |
| SupervisorDrain.DrainTest | internal/stream/supervisor.go:498-510 | the context of the dequeued drain request decides between the half-close and serving on with the request cancelled |
| SupervisorDrain.NoHalfCloseAfterDrain | internal/stream/supervisor.go:498-510 | once the drain request is finished the stream is never half-closed |
| SupervisorDrain.HalfClosedIffLive | internal/stream/supervisor.go:274-317 | in a run that dequeues the drain request, the stream is half-closed if and only if the closing call's context is live at that moment |
| SupervisorDrain.HalfClosedExactly | internal/stream/supervisor.go:498-510 | over a whole run, half-closed exactly if some step dequeues the drain request and finds its context live |
| SupervisorDrain.CancelledDrainNeverSucceeds | internal/stream/supervisor.go:274-317 | otherwise no closing call, the first or a later one, returns nil |
| SupervisorOutcomes.CancelledByOthers | internal/stream/supervisor.go:117-143 | a cancellation returned under a live context comes from a Send transmitted before in the queue, or from the call whose drain request is waited for |
| SupervisorOutcomes.ReturnsCancelledExactly | internal/stream/supervisor.go:117-143 | a call that returns under a live context returns a cancellation if and only if the request it waits for was finished with one |
| SupervisorOutcomes.FinishedCancelledExactly | internal/stream/supervisor.go:498-574 | a request is finished with a cancellation if and only if its own context has ended when it is looked at, or it is flushed behind a cancelled transmission |
| SupervisorResults.StoppedCallsReturn | internal/stream/supervisor.go:117-143 | once stopped is closed every Send and CloseGracefully can return by its own steps, at most ten |
| SupervisorResults.StoppedCallFinishes | internal/stream/supervisor.go:117-143 | run to the end: from every stopped state those steps lead the call to its return, even for a request that nobody finishes |
| SupervisorResults.OthersLeaveCall | internal/stream/supervisor.go:117-143 | no other thread moves a call or takes that step away |
| SupervisorResults.DialsWhileConnecting | internal/stream/supervisor.go:369-395 | every dial and every arbitration message happens in state Connecting |
| SupervisorResults.PrimaryOnlyByReply | internal/stream/supervisor.go:576-588 | the only steps that make the state Primary apply an OK verdict, in an epoch of the current session |
| SupervisorHistory.MastershipWasRead | internal/stream/supervisor.go:441-471 | each Primary epoch of a run follows an OK or absent status, each Backup epoch any other, read before from the stream of that very session |
| SupervisorHistory.MastershipChangesInSession | internal/stream/supervisor.go:457-497 | a verdict of a superseded stream never changes the state: what makes it Primary or Backup was read from the stream of the session that is current then |
| SupervisorVerdict.StateFollowsVerdict | internal/stream/supervisor.go:485-562 | while a stream is served or drained and no verdict is in hand, the state is Primary if and only if the last verdict taken from this stream was OK or absent, and Backup otherwise |
| SupervisorVerdict.VerdictTakenOnce | internal/stream/supervisor.go:470-492 | between two verdicts taken from one stream, that stream has delivered another message |
| SupervisorHistory.SessionsDoNotOverlap | internal/stream/supervisor.go:369-403 | a stream is opened with a live context, and only after the context of the one before was cancelled |
| SupervisorResults.SupersededStreamsAreSilent | internal/stream/supervisor.go:457-497 | in one step, a receive goroutine changes nothing but its own mailbox, and the main loop touches only that of the current session |
| SupervisorResults.HaltedIsDisconnected | internal/stream/supervisor.go:345-354 | after run has returned the state is Disconnected forever |
| SupervisorResults.ClosedIffChanged | internal/stream/supervisor.go:194-201 | a channel read together with a state is closed exactly when the state has changed since |
| SupervisorResults.NoMissedWakeup | client/client.go:211-230 | no waiter is parked on an open channel while the supervisor is primary |
| SupervisorResults.BecamePrimary | client/client.go:208-230 | BecomePrimary returns nil only if some epoch since its start was Primary |
| SupervisorHistory.BecamePrimaryWhile | client/client.go:208-230 | BecomePrimary returns nil in a step that it takes while the supervisor is primary |
| SupervisorShutdown.BecomeReturns | client/client.go:211-230 | nil only under Primary, the context's error only when it has ended, ErrStreamClosed only when the client is closed, and nothing else |
| SupervisorShutdown.LateBecomeFails | client/client.go:211-230 | BecomePrimary on a closed client returns ErrStreamClosed, whatever the state is |
| SupervisorResults.BackoffSchedule | internal/stream/supervisor.go:356-397 | the base delay is the capped power of two for the retries recorded in the state, and a successful arbitration resets it |
| SupervisorShutdown.DelayAfterRetries | internal/stream/supervisor.go:356-397 | the same with the retries in a row counted from the run itself, for the configured initial and maximal delay |
| SupervisorWitness.SomeRunNeverHalfCloses | internal/stream/supervisor.go:274-510 | a run in which the closing context ends in the queue: serving on, never half-closed, and a second close with a live context is cancelled too |
| SupervisorWitness.SomeRunCancelsAnotherSend | internal/stream/supervisor.go:520-574 | a run in which a Send with a live context returns the cancellation of the Send before it |
| SupervisorWitness.SomeRunSendsAndDrains | internal/stream/supervisor.go:215-563 | there is a run in which a Send and a graceful close both succeed |
| Numeric.UnsignedBytes | register/numeric.go:12-25 | canonical string exactly when the width is not negative and the number fits; width zero takes zero only |
| Numeric.SignedBytes | register/numeric.go:27-53 | succeeds exactly when the two's-complement number lies in [-2^(w-1), 2^(w-1)), with its shortest string |
| Numeric.WidthTest | register/numeric.go:41-51 | the leading-zeros test on a shortest string is the range test on the number, for every length and width |
| Numeric.SignedIsShortest | register/numeric.go:34-53 | the result has the number of the input and no other string with it is as short |
| Register.DataNormalizer.Normalize | register/data.go:35-145 | the result of the recursion, with active restored on every exit; the recursion is bounded by the specifications off the path, whatever the value |
| Register.DataNormalizer.NormalizeNode | register/data.go:45-145 | the branch taken for each kind of type |
| Register.DataNormalizer.Members | register/data.go:202-216 | all members in order, or the first error |
| Register.DataNormalizer.NewType | register/data.go:218-254 | the representation or the translation of a new type |
| Register.DataNormalizer.Bitstring | register/data.go:147-200 | bit, int and varbit values |
| Register.DataNormalizer.Flat | register/data.go:58-142 | bool, headers, unions, stacks and the enums |
| Register.DataNormalizer.Header | register/headers.go:10-43 | validity, field count and each field |
| Register.DataNormalizer.HeaderUnion | register/headers.go:45-77 | the first declared member with the name |
| Register.DataNormalizer.HeaderStack | register/headers.go:79-97 | size, element type and each entry |
| Register.DataNormalizer.HeaderUnionStack | register/headers.go:99-117 | size, element type and each entry |
| RegisterMeaning.FormUnique | register/data.go:28-254 | a value has one normal form only: short values of one meaning are equal |
| RegisterResults.HeaderIsExact | register/headers.go:10-43 | a header is accepted exactly when it is one of the type; fields keep their numbers and become shortest |
| RegisterResults.UnionIsExact | register/headers.go:45-77 | the same for unions, whose alternatives are a map by first name |
| RegisterResults.NormIsExact | register/data.go:28-254 | on any path above the type: accepted exactly when the value is one of the type, and the result is its normal form |
| RegisterResults.TypeUnique | register/data.go:28-254 | a specification unfolds to at most one finite tree |
| RegisterResults.TypeFound | register/data.go:35-42 | whatever is accepted has a specification that unfolds to a finite tree |
| RegisterResults.NormalizeExactly | register/data.go:28-254 | accepted if and only if the specification unfolds to a finite tree and the value belongs to it; the meaning is kept |
| RegisterCycles.RecursiveExhibitsCycle | register/data.go:35-42 | a complaint about recursion exhibits a chain of references from the specification that repeats a node; a specification that is only shared draws none |
| RegisterCycles.CycleAcceptsNothing | register/data.go:35-42 | a specification that leads into a cycle stands for no tree and accepts no value |
| RegisterCycles.DepthIsBounded | register/data.go:35-225 | a value is followed no deeper than there are specifications off the path: what lies below changes neither result nor error |
| RegisterResults.RecursiveMeansInfinite | register/data.go:35-42 | a specification rejected as recursive stands for no finite tree |
| RegisterResults.PathDoesNotMatter | register/data.go:35-42 | the enclosing specifications do not change the result |
| RegisterResults.Idempotent | register/data.go:28-254 | normalizing a result returns it unchanged |
| RegisterResults.SameNormalFormIffSameMeaning | register/data.go:28-254 | two accepted values normalize equally if and only if they denote the same value |
| RegisterResults.IntegerOnlyExactly | register/data.go:45-52 | Write accepts exactly the integers, through new types too, and does then what WriteData does |
| MessageGraph.Validator.Visit | pipeline/message.go:17-69 | a visit without error leaves the path as it was and the node finished; an error is explained by the path that it leaves |
| MessageGraph.Validator.VisitFields | pipeline/message.go:38-67 | all references of a message are visited, stopping at the first error |
| MessageGraph.Validator.VisitEach | pipeline/message.go:43-53 | all entries of a map or list |
| MessageGraph.PathDescends | pipeline/message.go:13-71 | along every path the positions in the order of completion strictly decrease |
| MessageGraph.TopologicalIsSafe | pipeline/message.go:13-71 | an order of completion that holds the root rules out every cycle and every malformed message below it |
| MessageGraph.ValidateMessageGraph | pipeline/message.go:13-71 | succeeds if and only if no malformed message and no cycle is reachable; each error is true; each message is expanded at most once |
| Pipeline.LastExactly | pipeline/pipeline.go:496-530 | the last element that goes by a key, characterized without recursion |
| Pipeline.NameFindsExactly | pipeline/pipeline.go:525-528 | a name finds the last table that has it as name or as nonempty alias |
| Pipeline.IdFindsExactly | pipeline/pipeline.go:529-529 | an ID finds the last table that has it |
| Pipeline.FieldFindsExactly | pipeline/pipeline.go:507-518 | a name or an ID finds the last match field that has it |
| Pipeline.TableDef.constructor | pipeline/pipeline.go:497-524 | a definition with the contents of the message and maps into its own field list |
| Pipeline.TableDef.Clone | pipeline/copy.go:24-38 | a deep copy of fresh objects whose maps lead to its own fields |
| Pipeline.CopyFields | pipeline/copy.go:13-22 | equal values in fresh objects |
| Pipeline.Pipeline.constructor | pipeline/pipeline.go:263-294 | the two table indexes, by name or alias and by ID, agree with a scan from the start |
| Pipeline.Pipeline.IndexTable | pipeline/pipeline.go:496-530 | one table more: later names, aliases and IDs override earlier ones |
| Pipeline.Pipeline.Table | pipeline/pipeline.go:331-337 | a fresh copy of the last table whose name or nonempty alias is the name, if there is one |
| Pipeline.Pipeline.TableByID | pipeline/pipeline.go:340-346 | a fresh copy of the last table with the ID, if there is one |
| Pipeline.Pipeline.Tables | pipeline/pipeline.go:348-357 | one fresh copy for each table in order, no two of which share an object |
| Pipeline.SecondTableTwice | pipeline/pipeline.go:348-357 | two different tables of one ID: the second is found at both places |
| Pipeline.TablesAreTheTables | pipeline/pipeline.go:348-357 | the copies are the tables themselves exactly when equal IDs mean equal tables |
| Pipeline.MutationIsInvisible | pipeline/pipeline.go:17-19 | changing everything reachable from a returned definition changes no later query |
| Values.DecodePairsIsNumber | internal/codec/codec.go:282-293 | decoding digit pairs gives the bytes of the number that the digits spell |
| Values.ParseHex | internal/codec/codec.go:282-293 | the canonical bytes of the number, or failure exactly on a bad digit |
| Values.ParsesWithAndWithoutPrefix | internal/codec/codec.go:280-293 | digits of either case parse to their number, with or without a 0x of either case |
| Values.FormatHex | internal/codec/codec.go:297-309 | two lower-case digits for each byte, joined by colons |
| Values.FormatParseRoundTrip | internal/codec/codec.go:282-309 | parsing what was formatted gives the bytes without leading zeros |
| Values.DecodeHex | cmd/p4ctl/cmd/value.go:64-80 | the number of a hexadecimal literal, or the error |
| Values.DecodeValue | cmd/p4ctl/cmd/value.go:16-62 | the canonical bytes of the literal's number if it fits the field, or the error |
| Values.SpellingsAgree | cmd/p4ctl/cmd/value.go:16-80 | decimal and both hexadecimal spellings of any number decode to the same canonical bytes, or fail alike |
| Values.FormattedValueDecodes | cmd/p4ctl/cmd/value.go:16-80 | formatted bytes behind a 0x decode as EncodeBytes encodes them |
| Values.ColonBytesDecode | cmd/p4ctl/cmd/value.go:28-38 | colon-separated bytes such as a MAC address decode to their number when they are no address |
| Values.AddressDecodes | cmd/p4ctl/cmd/value.go:28-38 | an address decodes to its bytes, and fails with a zone |
| Values.DecimalOrNothing | cmd/p4ctl/cmd/value.go:39-53 | what is neither hexadecimal, colon-separated nor an address decodes only if it is all decimal digits |

## Left out

- SupervisorCalls.RunInv: the supervisor is modelled on values, as a step system, because its threads share channels and a lock; a step is one channel operation, one critical section or one call of the transport, so what a data race within a step could do is not modelled. What single threads do to shared objects (state and channel, requests, queue) is in StreamObjects.
- SupervisorResults.StoppedCallsReturn: says that a call can always return, not that the scheduler lets it; fairness of goroutines and of `select` is not modelled.
- SupervisorResults.BackoffSchedule: is about the base delay; the random jitter of `sleep`, real time and the arbitration timeout are steps that may happen at any moment.
- SupervisorResults.GracefulDrain: the events channel, observers, logging and packet handlers are not part of the state.
- Codec.TernaryMask: a negative buffer size on the last seven widths of a 64-bit int is an error value here, where Go panics.
- KeyAbstraction.FullAbstraction: is stated for tables with unique field names and IDs and positive widths, as the key of other tables has no meaning; the methods are proved without that.
- TableEntry.Builder.EncodeAction: the table and the action definitions are values here; that the pipeline's copies are independent is proved in Pipeline.
- Register.DataNormalizer.Normalize: values are finite trees; the bound on the recursion does not mention the value, and RegisterCycles.DepthIsBounded says that nothing below that depth is read, which is why a cyclic value ends in the same way. Unknown protobuf fields are not modelled. Members that Go keeps as nil pointers are options.
- RegisterResults.NormalizeExactly: which of several errors of one value is reported first is fixed by the model as by the code, but results are stated for success and for the recursion error only.
- MessageGraph.ValidateMessageGraph: the graph of messages is given; reflection over generated types, and the text of the path in an error, are not modelled. The fields come in some order, any order.
- Pipeline.Pipeline.constructor: only the table index is built; actions, counters, meters, registers, digests and packet metadata are indexed by the same loop. The P4Info is a value, so its copying by the protobuf library is not modelled.
- Values.DecodeValue: what the address parser of the standard library makes of a text is a parameter; texts are sequences of characters, and other characters than ASCII are rejected in any case.
- Values.DecodePairsIsNumber: the digit scanner of the big number library is Horner evaluation.
- MAC, IPv4 and IPv6 encoders, the counter, meter, digest and replication APIs, handlers, pipeline installation, write results and command-line output are not part of this model; they are short case analyses around the parts that are.
