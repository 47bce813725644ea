# Compukter-VM in Dafny

A model of the small state machines at the core of Compukter-VM, a bounded bytecode virtual machine, and proofs of
what they keep over whole runs. `dafny verify dfyconfig.toml` checks everything.

- `ChannelSpec`, `ChannelArena`: bounded channels. The specification is a history of accepted calls and a textbook
  FIFO; the arena packs all channels into one array of values and threads their waiting tasks through one array of
  waiters, and its operations are proved against the histories.
- `HandleTable`, `HandleCalls`, `ExternalRoots`: generational handles. The first is shared by threads and locked at two
  levels; it is modelled as atomic steps that interleave freely, and `HandleCalls` says what whole calls come to.
- `ArrayCopy`: the resumable array copy, sliced by budgets and chunks, on arrays that may overlap.
- `Cursors`, `PrefixCodes`, `Code`, `Container`, `Indexed`: the artifact decoders. A decoder is specified by the
  encoder: what it accepts encodes back to the bytes it read, and what it refuses is the encoding of nothing legal.
  `InstructionSet`, `ContainerForm` and `IndexedForm` have the encoder's own account of what lies where.
- `Utf16`, `Stdio`: input ownership and the line editor.
- `Redstone`: the redstone device with its level-triggered and edge-triggered waits.
- `Accounting`, `Batch`, `Sessions`, `Processes`, `Transitions`, `LateAnswers`, `Terminations`, `Supervisor`,
  `StaleCompilations`: the process supervisor. `Sessions` has what an interpreter session means to it; `Processes` has
  the state, its invariant and the theorems about runs; `Transitions` has what the operations do to the state,
  `LateAnswers` those that can go astray, and `Terminations` forced termination; `Supervisor` has the machine that does
  it all, and progress; `StaleCompilations` advances it to where an answer goes astray; `Batch` has the choice among a
  session's requests; `Accounting` has the work counters and the gauges.
- `Transfers`, `FileTransfers`, `TransferCodec`, `TransferForm`: a process's file transfers, the file operations on
  them, and their checkpoint form with its bounded reader.
- `Words`, `Wrappers`: machine words, options and results.

Objects that the source updates in place are classes, and each of their methods states its whole effect, mostly as a
function of the old state; what a run of such methods keeps is proved about those functions. A run is a sequence of
states each of which evolves into the next, and every method is shown to be such a step, with two exceptions. The end
of a compilation and new redstone levels answer whichever process is active, by the id of a request alone; they are
such steps exactly when no answer is misdirected, and `StaleCompilations.StaleCompilation` advances a machine to where
one is.

What the program asks of code outside this model arrives as a parameter: the calls that a slice of an interpreter
session makes and how it ends, whether a session takes an answer, whether a device answers or parks a request, whether
the file system refuses, which bytes are paths or text, and the digest of an artifact. Nothing is supposed about these
except where a contract says so.

Where the code and its comments disagree the model follows the code: `Sessions.FreshBehindExposed` and
`Batch.PublishedIff` say what the choice among external requests really is, and `TransferCodec.RootListingNeedsRoom`
and `TransferCodec.WriteAndRead` say when a written table can be read back.

## Model

| member | source | states |
|---|---|---|
| ChannelSpec.HistoryRefinesFifoOnSend | src/execution/channel.rs:181-222 | on every history, accepting a send does to the queue of values and the queues of waiting senders and receivers exactly what a textbook bounded FIFO does, and gives the same answer |
| ChannelSpec.HistoryRefinesFifoOnReceive | src/execution/channel.rs:224-267 | the same for accepting a receive, whether the value comes from the buffer, from a parked sender through the buffer, or later by a direct hand-off |
| ChannelSpec.WaitingRules | src/execution/channel.rs:181-267 | a parked receiver means an empty buffer and no parked sender; a parked sender means a full buffer; sends minus receives is buffered plus parked senders minus parked receivers |
| ChannelSpec.DeliveriesAreFifo | src/execution/channel.rs:181-267 | over every run of sends and receives on a channel, the k-th value delivered is the value of the k-th accepted send and goes to the k-th accepted receive, by whichever of the three ways it travels |
| ChannelSpec.SendsCompleteInOrder | src/execution/channel.rs:181-267 | over every run, senders are told of completion in the order in which their sends were accepted |
| ChannelSpec.AnswersNameTheOldest | src/execution/channel.rs:181-267 | an answer that wakes a task names the one parked longest, with the place where it goes on, and a value received is the oldest one buffered |
| ChannelArena.OccupiedIffParked | src/execution/channel.rs:283-343 | in every reachable arena a waiter slot is occupied exactly when some channel has a task parked in it, and then in one queue of one channel only |
| ChannelArena.HeadsTellParked | src/execution/channel.rs:181-267 | the head of a queue is absent exactly when nobody is parked in it, so the branches of send and receive follow the queues |
| ChannelArena.OtherChannelKeeps | src/execution/channel.rs:160-343 | an operation that touches one channel, its window of values and its waiters leaves every other channel as it was |
| ChannelArena.HandOffKeeps | src/execution/channel.rs:190-204 | handing a value to the oldest parked receiver unlinks just that waiter and keeps the arena in agreement with the histories |
| ChannelArena.StoreKeeps | src/execution/channel.rs:205-211 | storing at the wrapped position behind the last buffered value extends the ring by that value |
| ChannelArena.ParkSendKeeps | src/execution/channel.rs:212-221 | parking a sender links it behind the last parked sender; the lists stay acyclic, disjoint and complete |
| ChannelArena.ParkReceiveKeeps | src/execution/channel.rs:257-266 | the same for parking a receiver |
| ChannelArena.TakeKeeps | src/execution/channel.rs:233-255 | taking the value at the head of the ring leaves the rest of the ring in order |
| ChannelArena.TakeAndRefillKeeps | src/execution/channel.rs:238-255 | taking a value while a sender waits moves the oldest parked value behind the last buffered one and unlinks just that sender |
| ChannelArena.WrapIndex | src/execution/channel.rs:205-208 | an index at most one lap ahead is brought back into the ring |
| ChannelArena.Arena.constructor | src/execution/channel.rs:126-158 | a new arena holds no channels and no parked tasks |
| ChannelArena.Arena.ChannelIndex | src/execution/channel.rs:275-281 | a handle is accepted exactly when it names a created channel |
| ChannelArena.Arena.InstallWaiter | src/execution/channel.rs:283-302 | a task parks exactly when its slot is in range and free |
| ChannelArena.Arena.PushWaiter | src/execution/channel.rs:304-326 | a slot is linked at the tail of the right queue |
| ChannelArena.Arena.PopWaiter | src/execution/channel.rs:328-343 | the slot at the head of a queue is unlinked and emptied; on a reachable arena with a parked task it does not fail |
| ChannelArena.Arena.Send | src/execution/channel.rs:181-222 | a send is accepted exactly when its handle is known and, if it must park, its slot is in range and not parked in; the answer is the one the FIFO gives, only that history grows, and the corrupt-queue error occurs in no other case |
| ChannelArena.Arena.Receive | src/execution/channel.rs:224-267 | the same for a receive, with the value it answers |
| ChannelArena.Arena.Create | src/execution/channel.rs:160-179 | a channel gets the next handle and a window of values behind all others exactly when there is room; a negative capacity is invalid and every other refusal is for lack of capacity, and neither changes anything |
| HandleTable.NextGenerationStep | ffi/src/handle_table.rs:154-161 | the generation after so many retirements runs through 1 to 2^32-1 and skips zero |
| HandleTable.InsertKeeps | ffi/src/handle_table.rs:30-47 | an insertion takes the first free slot, keeps the invariant, and answers with the handle of that slot and generation |
| HandleTable.RecheckSucceeds | ffi/src/handle_table.rs:63-124 | while a thread holds the cell of a live value, the slot still stores that cell under that generation: the stale re-checks are unreachable |
| HandleTable.StepKeeps | ffi/src/handle_table.rs:30-135 | every atomic step of insert, with, close and consume_if, by any thread, keeps the invariant |
| HandleTable.RunKeeps | ffi/src/handle_table.rs:30-135 | every state of every interleaving satisfies the invariant |
| HandleTable.ActionsExclude | ffi/src/handle_table.rs:49-61 | on every interleaving two threads never act on one stored value at a time |
| HandleTable.RunIsLinear | ffi/src/handle_table.rs:49-135 | on every interleaving the actions on one value form a sequential life: each sees what the one before left, and at most one ends it |
| HandleTable.NothingAfterEnd | ffi/src/handle_table.rs:63-135 | in such a life nothing follows a close or a consumption |
| HandleTable.NoThreadIsStuck | ffi/src/handle_table.rs:30-135 | on every interleaving a thread inside a call can take a step |
| HandleTable.HandleResolvesIff | ffi/src/handle_table.rs:126-161 | on every run a handle resolves exactly when its slot stores a value and has been retired a multiple of 2^32-1 times since; it names its own value exactly when that multiple is zero |
| HandleTable.DecodeInvertsEncode | ffi/src/handle_table.rs:137-152 | a handle decodes to exactly the slot index and generation it was made from, for every one that can be encoded |
| HandleTable.DecodeRefusesIff | ffi/src/handle_table.rs:145-152 | a 64-bit handle is refused exactly when no index and positive generation encode to it |
| HandleTable.HandleHalves | ffi/src/handle_table.rs:137-152 | the lower 32 bits of a handle are the slot index plus one and the upper 32 its generation |
| HandleTable.RetireKeeps | ffi/src/handle_table.rs:74-88 | the critical section of the slot mutex that ends a value frees the slot, advances its generation and keeps the invariant, while the cell stays locked |
| HandleTable.LeaveKeeps | ffi/src/handle_table.rs:63-124 | giving the lock of the dead cell back afterwards keeps the invariant, whatever other threads have done to the freed slot meanwhile |
| HandleTable.RetireNeverLoses | ffi/src/handle_table.rs:63-124 | on every interleaving a close or a successful consumption that takes the slot mutex ends the value and carries the result of its action on |
| HandleTable.LeaveReportsSuccess | ffi/src/handle_table.rs:63-124 | and the call then returns that result: its stale answers never occur |
| HandleTable.SlotIsFreeBeforeCell | ffi/src/handle_table.rs:74-88 | between the two the cell is locked, empty and stored nowhere, so the slot can be taken again |
| HandleTable.EndedValuesAreUntouched | ffi/src/handle_table.rs:49-135 | once a value has ended, the only threads that still hold its cell find it empty: one that came late, and the one that ended it |
| HandleCalls.CallStaysItself | ffi/src/handle_table.rs:49-124 | on every interleaving a thread stays in the call it has begun, on the value its handle named then, until that call answers |
| HandleCalls.CallDoesOnly | ffi/src/handle_table.rs:49-124 | on every interleaving a call touches no value but the one its handle named, and only as its operation allows: `with` acts on it and changes no slot, `close` ends it and frees its slot, `consume_if` puts a value back or ends it and frees its slot |
| HandleCalls.BusyIff | ffi/src/handle_table.rs:49-124 | on every interleaving a call is told that the value is in use exactly when another thread holds the value of its handle at the try-lock |
| HandleCalls.StaleIff | ffi/src/handle_table.rs:49-124 | on every interleaving a call that has begun is told that its handle is stale exactly when it finds the value ended, and is never told that it is invalid |
| HandleCalls.RefusedAtOnce | ffi/src/handle_table.rs:126-135 | a call goes ahead exactly when some slot stores a value under the index and generation of its handle; otherwise it is refused with no effect, as invalid exactly when the handle names no slot or no generation, and as stale in all other cases |
| HandleCalls.SuccessTellsEffect | ffi/src/handle_table.rs:49-124 | on every interleaving what a call answers when it succeeds is what it has done: `with` has put the value of the action in place, `close` has ended the value, `consume_if` has put back what its action gave back or has ended the value with its result |
| HandleCalls.InsertAnswers | ffi/src/handle_table.rs:30-47 | an insertion makes a live value of what it is given in the first free slot, under a handle that resolves to it; an index that does not fit is answered as exhausted |
| ExternalRoots.SpentForever | src/execution/external_roots.rs:68-96 | on every run a released handle never resolves again, because a slot whose generations run out is never used again |
| ExternalRoots.UnspentKeepsValue | src/execution/external_roots.rs:81-96 | on every run a handle resolves to the value it was retained for until it is released |
| ExternalRoots.Table.constructor | src/execution/external_roots.rs:49-66 | a new table has only free slots |
| ExternalRoots.Table.Retain | src/execution/external_roots.rs:68-79 | the first free slot is used under its current generation; refused exactly when no slot is free |
| ExternalRoots.Table.Release | src/execution/external_roots.rs:88-96 | releases exactly the handles that resolve and spends them; the last generation retires the slot |
| ArrayCopy.MoveUpwards | src/execution/array_copy.rs:56-93 | two adjacent moves taken from low to high make one move, unless the first overwrites what the second reads |
| ArrayCopy.MoveDownwards | src/execution/array_copy.rs:56-93 | two adjacent moves taken from high to low make one move when an array moves up onto itself |
| ArrayCopy.New | src/execution/array_copy.rs:25-54 | a copy is accepted exactly when both ranges lie inside their arrays; it keeps the arrays, the positions and the length it was given, and its direction is right for the overlap |
| ArrayCopy.ChunkExtends | src/execution/array_copy.rs:56-93 | a chunk read from the partly moved heap gives the same heap as having moved everything up to its end at once |
| ArrayCopy.FinishedCopy | src/execution/array_copy.rs:56-93 | a finished copy leaves the destination range equal to the source range as it was at the start, and no other byte changed |
| ArrayCopy.CopiesElements | src/execution/array_copy.rs:25-93 | element by element and byte by byte: after a finished copy each element of the destination range is what that element of the source range was |
| ArrayCopy.AcceptedRequestReaches | src/execution/array_copy.rs:25-93 | an accepted copy between arrays that their payloads really hold never leaves a payload and never overflows 32-bit offsets |
| ArrayCopy.Heap.CopyPayloadRange | src/execution/heap.rs:383-429 | both spans are checked before anything is written; the move reads the bytes as they were |
| ArrayCopy.PendingArrayCopy.CopyChunk | src/execution/array_copy.rs:56-93 | one chunk is moved exactly when it lies inside both payloads, and the heap is then the starting heap with everything up to its end moved |
| ArrayCopy.PendingArrayCopy.Advance | src/execution/array_copy.rs:56-93 | a slice costs exactly the elements it moves, and faults exactly when the copy leaves a payload within the slice |
| ArrayCopy.PendingArrayCopy.constructor | src/execution/array_copy.rs:25-54 | a pending copy has moved nothing |
| ArrayCopy.ResumeSlices | src/execution/machine.rs:3403-3424 | for every sequence of budgets and every length, zero included, the cost is the number of elements moved, the copy is done once a slice has been taken and the budgets reach its length, and the heap is then that of one uninterrupted move |
| Cursors.LeRoundTrip | src/bytes.rs:21-39 | decoding a little-endian word gives back the value it encodes |
| Cursors.LeCanonical | src/bytes.rs:21-39 | encoding the value of a word gives back its bytes |
| Cursors.EncodeLeByte | src/bytes.rs:21-39 | byte i of an encoded word is the i-th digit of its value to the base 256, the lowest first |
| Cursors.DecodeLeIsPlaceSum | src/bytes.rs:21-39 | a decoded word is the sum of its bytes times 256 to their place |
| Cursors.TwosComplement | src/bytes.rs:31-34 | a signed word is its unsigned value, less 2^32 when the top bit is set, and back |
| Cursors.EncodeUlebGroup | src/bytes.rs:41-64 | group i of a LEB128 encoding is the i-th digit to the base 128, the lowest first, with 128 added in all but the last |
| Cursors.UlebShape | src/bytes.rs:41-64 | the shape of every shortest LEB128 encoding: continued groups, then a last group that is not zero unless alone; five groups at most for 32 bits |
| Cursors.UlebPrefixFree | src/bytes.rs:41-64 | no shortest encoding starts another, and none stands for two values |
| Cursors.CanonicalIsNotRefused | src/bytes.rs:41-64 | an input that starts with the shortest encoding of a 32-bit value has none of the shapes that are refused |
| Cursors.RefusedIsNotCanonical | src/bytes.rs:41-64 | an input of a refused shape starts with no such encoding |
| Cursors.Cursor.ReadWord | src/bytes.rs:21-39 | the word whose encoding is the bytes ahead: the sum of those bytes times 256 to their place |
| Cursors.Cursor.ReadUleb32 | src/bytes.rs:41-64 | accepts exactly the shortest encodings of 32-bit values, moves past just that encoding, and names which refused shape it met |
| Cursors.Cursor.Take | src/bytes.rs:73-83 | so many bytes, or none and no movement when fewer are left, with the error that tells overflow from the end of the input |
| Code.OperandsAgree | src/decode/code.rs:619-735 | an input fixes the operand of each kind that starts it |
| Code.OperandListsAgree | src/decode/code.rs:89-456 | operand bytes fix the operand list of an opcode |
| Code.InstructionsAgree | src/decode/code.rs:10-87 | an input fixes the legal instruction that starts it, opcode, form and operands |
| Code.BlockForced | src/decode/code.rs:10-87 | whatever block a record encodes, it begins with the instructions already decoded |
| Code.BlocksAgree | src/decode/code.rs:10-456 | two blocks of legal instructions have the same encoding if and only if they are equal |
| Code.SelectorBounds | src/decode/code.rs:89-456 | the range of each selector operand |
| Code.ReadArgs | src/decode/code.rs:631-662 | a counted list of registers is accepted exactly when its canonical encoding starts the input |
| Code.ReadCases | src/decode/code.rs:89-456 | a switch table is accepted exactly when its cases are encoded canonically and in strictly increasing order |
| Code.ReadOperand | src/decode/code.rs:619-735 | one operand of any kind, both ways: what is read encodes back, and a refusal means no legal operand starts the input |
| Code.DecodeOperands | src/decode/code.rs:89-456 | all operands of an opcode are decoded and every byte is used; a refusal means no legal operands encode to those bytes |
| Code.DecodeInstruction | src/decode/code.rs:89-456 | an instruction is accepted exactly when a legal instruction of that opcode and form encodes to those operand bytes, and is that instruction |
| Code.ReadInstruction | src/decode/code.rs:10-87 | the header and the operands of the one legal instruction that starts the input, or none does |
| Code.DecodeCodeRecord | src/decode/code.rs:10-87 | a record is accepted exactly when it is the encoding of a legal block of the declared length with a terminator in the last place only; the answer encodes back to the record |
| Code.StraightEndsOnce | src/decode/code.rs:10-87 | a decoded block has its only terminator at its end |
| InstructionSet.LayoutIsFields | src/test_encode.rs:688-1171 | the operand kinds the decoder reads for an opcode are, in order, those of the operands that the encoder of the named instruction writes |
| InstructionSet.EveryOpcodeIsNamed | src/decode/code.rs:89-456 | every opcode the decoder accepts is that of a named instruction |
| InstructionSet.OpcodesDiffer | src/test_encode.rs:688-1171 | and of one only |
| InstructionSet.FormsAgree | src/artifact/format.rs:61-75 | which forms each named instruction has |
| InstructionSet.TerminatorsAgree | src/decode/code.rs:735-754 | which named instructions end a block |
| InstructionSet.TransposesAgree | src/artifact/matrix.rs:20-91 | which matrix selectors transpose |
| InstructionSet.KnownCall | src/decode/tests.rs:683-860 | the bytes of one call |
| InstructionSet.KnownSwitch | src/decode/tests.rs:683-860 | the bytes of one switch |
| InstructionSet.ThreeOperandBytes | src/test_encode.rs:688-1171 | the header and the operands of every instruction of three operands, byte by byte |
| InstructionSet.AbsentOnlyWhereOptional | src/decode/code.rs:619-735 | 0xFFFF is a register only where a register is optional |
| Container.DirectoryIsLaid | src/decode/container.rs:216-416 | the directory of an accepted container lays its sections out from its own end to the end of the payload, with zero gaps |
| Container.SectionsInOrder | src/decode/container.rs:216-416 | sections are disjoint and in the order of their keys |
| Container.EveryByteLiesSomewhere | src/decode/container.rs:216-416 | no byte of an accepted container is unaccounted for |
| Container.EveryByteLiesOnce | src/decode/container.rs:216-416 | no byte lies in two places |
| Container.AcceptedBytes | src/decode/container.rs:40-416 | every byte before the end of the payload lies in exactly one of header, directory, one section, or a zero gap shorter than eight bytes |
| Container.CheckZero | src/decode/container.rs:497-518 | true exactly when the range is inside the bytes and zero |
| Container.DecodeHeader | src/decode/container.rs:125-214 | a header is accepted exactly when every field is as the format and the limits demand |
| Container.DecodeEntry | src/decode/container.rs:216-496 | a directory entry is accepted exactly when it is packed behind its predecessor, in key order, aligned, of its kind, and after a zero gap |
| Container.DecodeDirectory | src/decode/container.rs:216-416 | accepts exactly the packed directories |
| Container.DecodeContainer | src/decode/container.rs:40-123 | accepts exactly the containers that meet the acceptance condition, for any digest function, and returns their header and sections |
| ContainerForm.HeaderIsRead | src/test_encode.rs:1299-1381 | what the encoder writes as a header, field behind field, is read as that header |
| ContainerForm.HeaderIsWrittenBack | src/test_encode.rs:1299-1381 | and an accepted header is written back as the bytes it was read from |
| ContainerForm.EntryIsRead | src/test_encode.rs:1299-1381 | the same for a directory record: what is written is read |
| ContainerForm.EntryIsWrittenBack | src/test_encode.rs:1299-1381 | and what is read is written back |
| ContainerForm.KnownKinds | src/artifact/format.rs:14-59 | the kinds the decoder knows are those of the named sections, which of them are global and which belong to a module; no two share a kind |
| ContainerForm.EveryKnownKindIsNamed | src/artifact/format.rs:14-59 | and it knows no others |
| ContainerForm.NamedEntryOk | src/decode/container.rs:418-496 | a record of a named section is accepted exactly with its own scope and its own flags, critical and semantic |
| ContainerForm.UnnamedEntryOk | src/decode/container.rs:418-496 | a record of any other kind is accepted exactly when it is an extension without flags |
| ContainerForm.KeysAreNumbers | src/decode/container.rs:316-330 | the order of the directory is that of scope and kind as one number |
| Indexed.RecordsExist | src/decode/indexed.rs:161-195 | every id below the count, and no other, names a record and a range |
| Indexed.RecordsPartition | src/decode/indexed.rs:27-195 | joined in the order of their ids the records are the record area |
| Indexed.RecordOfByte | src/decode/indexed.rs:27-195 | a byte of the record area belongs to exactly one record |
| Indexed.RecordIsArtifactSlice | src/decode/indexed.rs:165-195 | a record equals the bytes of the artifact at its range, and the range lies inside its section |
| Indexed.ReadOffsets | src/decode/indexed.rs:27-160 | the offset table as it stands in the section, or none when the section is too short |
| Indexed.CheckAscending | src/decode/indexed.rs:27-160 | true exactly when the offsets never fall |
| Indexed.Decode | src/decode/indexed.rs:27-160 | accepts exactly the sections whose prefix, offsets and padding are well formed |
| IndexedForm.TableIsAccepted | src/test_encode.rs:1259-1286 | every table of records the encoder writes, its size in 32 bits, is accepted |
| IndexedForm.RecordIsGivenBack | src/test_encode.rs:1259-1286 | and each record comes back as it was |
| Utf16.AppendText | src/stdio.rs:191-223 | appending to well-formed text keeps it well formed exactly when what is appended is, and then the scalars are appended |
| Utf16.ChopRemovesOneScalar | src/stdio.rs:225-257 | Backspace takes exactly the last scalar off a well-formed line, one unit or a surrogate pair |
| Utf16.EncodeInvertsScalars | src/stdio.rs:191-257 | the scalars of well-formed text, encoded in UTF-16, are that text |
| Stdio.OnlyTextKeeps | src/stdio.rs:191-223 | leaving out control units keeps well-formed text well formed |
| Stdio.OnlyTextSplits | src/stdio.rs:191-223 | filtering goes unit by unit, in order |
| Stdio.ControlsAreDropped | src/stdio.rs:329-332 | exactly the control characters of ASCII are left out |
| Stdio.TypedStaysFaithful | src/stdio.rs:191-223 | after typed text the line spells what the edits say |
| Stdio.RuboutStaysFaithful | src/stdio.rs:225-257 | after a Backspace the line still spells what the edits say |
| Stdio.StandardStreams.New | src/stdio.rs:108-123 | streams exist exactly when both limits are positive |
| Stdio.StandardStreams.constructor | src/checkpoint/stdio.rs:30-57 | new streams satisfy the checkpoint validator, as does every state that the operations below reach |
| Stdio.StandardStreams.Acquire | src/stdio.rs:294-306 | input has one owner: free or already held the same way, or refused with who is busy |
| Stdio.StandardStreams.FinishRaw | src/stdio.rs:161-167 | only the raw owner gives raw input up |
| Stdio.StandardStreams.Cancel | src/stdio.rs:177-182 | only the owner loses its input and its partial line |
| Stdio.StandardStreams.CancelFrame | src/stdio.rs:184-189 | the end of a process takes input from its tasks and from no other |
| Stdio.StandardStreams.AcceptText | src/stdio.rs:191-223 | text is stored and echoed without its control units, or has no effect at all when it would not fit |
| Stdio.StandardStreams.AcceptKey | src/stdio.rs:225-257 | Backspace takes off one scalar and blanks one cell, Enter makes the line ready, other keys do nothing |
| Stdio.StandardStreams.TakeLine | src/stdio.rs:259-266 | the owner takes a ready line once; if all that was typed was well formed, so is the line, and it spells what the edits say |
| Stdio.StandardStreams.SubmitCompleteLine | src/stdio.rs:129-155 | a whole line is delivered only into an untouched read of its owner, exactly as given, and echoed once |
| Stdio.StandardStreams.WriteOutput | src/stdio.rs:316-327 | output within the bound reaches the terminal whole, and otherwise not at all |
| Redstone.WaitersSplit | src/redstone.rs:115-136 | a packet splits the waiters into woken and pending with none lost and none invented: woken are exactly those on marked sides whose condition holds at the new level |
| Redstone.SplitKeepsDistinct | src/redstone.rs:115-136 | woken identities are distinct, and so are pending ones |
| Redstone.WokenIsGone | src/redstone.rs:115-136 | a woken waiter is no longer registered, so it wakes at most once |
| Redstone.QuiescentAfterInput | src/redstone.rs:104-136 | after a packet no pending waiter is satisfied by the level that is there, if and only if no unmarked side has a level that satisfies a waiter on it |
| Redstone.MarkedChangesKeepQuiescence | src/redstone.rs:104-136 | so a host that marks every level that differs never leaves a satisfied waiter pending |
| Redstone.UnmarkedChangeLeavesAWaiter | src/redstone.rs:104-136 | a packet that leaves a differing level unmarked can leave one |
| Redstone.SixSides | src/redstone.rs:82-85 | a packed register has the level of side 0 in its lowest four bits, then side 1, up to side 5; likewise the change bits |
| Redstone.KnownPacket | src/redstone.rs:82-136 | the levels and the marks of one packet |
| Redstone.LevelOfPacked | src/redstone.rs:82-85 | the level read at a side of any packed levels is the one packed there |
| Redstone.MarkOfPacked | src/redstone.rs:104-136 | and so for change bits |
| Redstone.EveryPacketIsPacked | src/redstone.rs:104-136 | every accepted packet is six levels and six change bits packed, and they are the ones read |
| Redstone.MatchingLevels | src/redstone.rs:240-247 | which of the sixteen levels end each sort of wait |
| Redstone.MatchingLevelsShrink | src/redstone.rs:240-247 | asking for one level more, or one less, gives up just that level |
| Redstone.KeysAreOrdered | src/redstone.rs:133-136 | wakeups are ordered strictly and totally by task and then request |
| Redstone.SignalsAreLevels | src/redstone.rs:232-238 | the signals that can be waited for are the levels a side can have |
| Redstone.SortWakeups | src/redstone.rs:133-136 | wakeups are sorted strictly by task and request, with none lost |
| Redstone.RedstoneDevice.constructor | src/checkpoint/redstone.rs:40-62 | a new device satisfies the checkpoint validator, as does every state that the operations below reach |
| Redstone.RedstoneDevice.Input | src/redstone.rs:82-85 | a level below sixteen for each of six sides |
| Redstone.RedstoneDevice.ConfirmOutput | src/redstone.rs:98-102 | reserved bits are refused without effect |
| Redstone.RedstoneDevice.SplitWaiters | src/redstone.rs:115-131 | the loop never meets its error, so no waiter is dropped |
| Redstone.RedstoneDevice.SubmitInput | src/redstone.rs:104-136 | reserved bits are refused without effect; otherwise the snapshot is taken, exactly the right waiters wake in the order of their identities, and the others stay in the order they came |
| Redstone.RedstoneDevice.Register | src/redstone.rs:177-213 | each error exactly in its case and in its order; a level-triggered wait that is already satisfied answers at once; a wait that registers goes last and keeps the device quiescent |
| Accounting.AddCounter | src/computer.rs:315-323 | a sum that stops at the 64-bit maximum, and a flag that records that it did |
| Accounting.Add | src/computer.rs:280-313 | adding to the tally of an exact count gives the tally of the exact sum, in all six counters and in the flag |
| Accounting.TotalIsSums | src/computer.rs:639-672 | each counter of a total is the sum of that counter over the processes |
| Accounting.TallyShows | src/computer.rs:639-672 | a tally shows each of the six counters as its sum, stopped at the 64-bit maximum, and is marked exactly when one was stopped |
| Accounting.TotalReplaces | src/computer.rs:639-672 | work done by one process changes the total by just that work |
| Accounting.AddReports | src/computer.rs:612-706 | each gauge is the sum of what is reported, stopped at the 64-bit maximum, and one that would not fit sets the flag |
| Accounting.GaugeSumIsSum | src/computer.rs:612-706 | a gauge over all reports is what each report says of it, added up |
| Sessions.IssueKeeps | src/execution/requests.rs:250-301 | a call becomes the last pending request under a new id, and one that finds no room or does not fit ends the session; what the host was shown still stands |
| Sessions.RanKeeps | src/execution/session.rs:974-1015 | whatever calls a slice makes, a session keeps within its room, its ids rise, and no request that has been answered comes back |
| Sessions.AllIssuedIff | src/execution/requests.rs:250-301 | the calls of a slice are all taken exactly when each fits and all together fit; then they pend in the order they were made under ids one after the other, and otherwise the session is over |
| Sessions.TakenKeeps | src/execution/session.rs:564-702 | an answer takes out the request it answers and no other |
| Sessions.ResumedIff | src/execution/session.rs:564-702 | an answer has effect exactly when it is not declined, the session is not over and waits for it; then that request is gone and all others stand, and only a fatal answer ends the session |
| Batch.ChosenIsServiceable | src/computer.rs:1171-1213 | the internal request of a choice is one of the batch, not for the host and not parked |
| Batch.ArmingComesFirst | src/computer.rs:1171-1213 | the first request to arm a wait for a redstone edge is served before all else and nothing is published with it |
| Batch.IdleIff | src/computer.rs:1171-1256 | a choice serves nothing exactly when every request is external, parked with its own device, or a compilation while one runs |
| Batch.PublishedIff | src/computer.rs:1214-1254 | a request is published exactly when it is within the allowance counted over all externals of the batch, exposed or not, nothing is urgent, and, if internal work waits, something within the allowance is new |
| Sessions.FreshBehindExposed | src/computer.rs:1214-1254 | so a new request behind an exposed one, in a session that has made the two calls, is not published while the allowance covers only the exposed one, although the comment there says that an exposed wait hides none |
| Batch.FindFirst | src/computer.rs:1171-1213 | the first urgent request, or the first that can be served, passing over parked ones |
| Batch.CollectExternals | src/computer.rs:1214-1249 | the prefix of the externals that the allowance covers, and whether one of them is new |
| Batch.Choose | src/computer.rs:1155-1256 | the choice for every batch, parking and allowance; an error exactly for an empty batch or for a malformed request that would be copied |
| Processes.InitialKeeps | src/computer.rs:485-553 | a started machine satisfies the invariant: a root of scope zero, one reservation, no routes |
| Transitions.EnteredKeeps | src/computer.rs:2075-2182 | starting a process within the limits keeps the invariant: scopes rise up the stack and stay below the number of starts, every process but the top waits for the one above it, and reservations are depth times profile |
| Transitions.EnteredOnTop | src/computer.rs:2075-2182 | a program that starts is on top under the next scope with nothing pending, its parent waits for it, and the others are as they were |
| Transitions.ChildMayExit | src/computer.rs:2453-2488 | on every reachable machine with more than one process a parent waits for the top one and no reservation underflows |
| Transitions.ExitedKeeps | src/computer.rs:2453-2488 | ending the top process keeps the invariant |
| Transitions.ExitedIsGone | src/computer.rs:2457-2460 | a process that has ended is off the stack and has no route |
| Transitions.ExitConserves | src/computer.rs:2461-2461 | the end of a process changes none of the six totals although its session is gone |
| Processes.RunEvolves | src/computer.rs:1927-1988 | what holds of one operation holds of every run: what is over stays over |
| Processes.TimesIsProduct | src/computer.rs:2093-2125 | what so many processes reserve is their number times what the profile gives one |
| Processes.RequestKeepsId | src/computer.rs:1955-1988 | on every run a request of a process has one external id for good: two routes for it, at whatever times and whatever has been answered in between, are the same route |
| Processes.LiveRequestKeepsId | src/computer.rs:1955-1988 | on every run a request that was routed and still waits still has its route, so every republication carries the same id |
| Processes.RoomNeverLacks | src/computer.rs:1968-1975 | the limit on routes never stops a publication: while a request of the active process waits without a route, fewer stand than maximum_host_requests times maximum_depth |
| Processes.SpentTokenForever | src/computer.rs:2242-2258 | on every run a compilation token that was given and names no compilation any more never names one again |
| Processes.GoneIsRefusedForever | src/computer.rs:1927-1953 | on every run an id that was issued and has no route any more is never accepted again |
| Processes.RouteNeverChanges | src/computer.rs:1927-1988 | on every run an id stands for one request of one process as long as it is accepted: ids are never reused |
| Processes.ExitedProcessHasNoRoute | src/computer.rs:2457-2460 | on every run no route belongs to a process that has exited |
| Processes.ExitedWorkStands | src/computer.rs:2461-2461 | on every run the counters of a process that has exited stand |
| Transitions.CompilingKeeps | src/computer.rs:2242-2258 | asking for a compilation keeps the invariant, which knows the asker, its place and that its request is none of the host's |
| Transitions.FrameChangedKeeps | src/computer.rs:1091-1155 | a process whose session goes on without an answer from the host keeps the invariant |
| Transitions.PublishedKeeps | src/computer.rs:1955-1988 | a new route for a waiting request keeps ids and requests distinct and every process within its share |
| Transitions.DroppedRoutes | src/computer.rs:1927-1953 | taking a route out by swapping in the last one takes out that route and no other |
| Transitions.AnsweredKeeps | src/computer.rs:1927-1953 | answering a request keeps the invariant and leaves its id without a route |
| Terminations.TargetIsNotRoot | src/computer.rs:954-981 | the process to be ended is never the root, and the top process can always be taken off |
| Terminations.UnwindingIsLastInFirstOut | src/computer.rs:1098-1121 | on every run of forced termination each step takes exactly one process off the top, runs no session, issues no id, and leaves every frame below the resumed one as it was; the target stands until it is reached |
| Terminations.ExitOrder | src/computer.rs:1098-1121 | the process that ends at a step is the one that far from the top |
| Terminations.TargetIsGone | src/computer.rs:1098-1121 | after as many steps as there were processes from the target up, the target is gone |
| Terminations.CompilationOutlastsIff | src/computer.rs:1098-1121 | a compilation outlasts a step of forced termination exactly when a process below the target asked for it |
| Terminations.InterleavedUnwinding | src/computer.rs:1098-1121 | with answers, keys, completions and wakeups in between in any order, and even if one of them is misdirected, each advance ends one process from the top down; after as many advances as there were processes from the target up it is gone, and until then it stays the target |
| Terminations.AnsweredMeanwhile | src/computer.rs:1927-1953 | an answer from the host starts, ends and runs no process |
| Supervisor.ComputerMachine.FinishChild | src/computer.rs:2453-2488 | the top process ends: routes, reservation and work as the transition says; a parent that refuses the news makes the call fail with the process ended all the same |
| Supervisor.ComputerMachine.RunProgram | src/computer.rs:2075-2182 | a program becomes the top process exactly when it loads, starts and keeps within every limit; otherwise its parent is told and the stack stays |
| Supervisor.ComputerMachine.FindTarget | src/computer.rs:962-968 | the place above the last shell, or above the root |
| Supervisor.ComputerMachine.SubmitTerminalKey | src/computer.rs:954-981 | pressing control-C asks for that process to be ended unless one is already asked for; which events are forwarded and when queued input is dropped |
| Supervisor.ComputerMachine.AdvanceTermination | src/computer.rs:1098-1121 | a step of forced termination exactly while the target is there; a target that is gone is forgotten |
| Supervisor.ComputerMachine.constructor | src/computer.rs:485-553 | the initial machine |
| Supervisor.ComputerMachine.Start | src/computer.rs:476-553 | a machine starts exactly when it binds no more than 28 add-ons, the root process fits into the aggregate limits, and its session is admitted and started; the errors in their order |
| Supervisor.ComputerMachine.ResourceSnapshot | src/computer.rs:597-708 | each work counter is the sum over every process ever started, ended or not, and each gauge the sum of what is reported, both stopped at the 64-bit maximum; the flag is set exactly when one of them would not have fitted |
| Supervisor.ComputerMachine.RouteExternalRequest | src/computer.rs:1955-1988 | the id a request has, or a new one; the limit error exactly when it needs one and ids have run out |
| Supervisor.ComputerMachine.RouteAll | src/computer.rs:1345-1354 | publishing fails exactly when the requests without a route are more than the ids left; otherwise every request has the route its id tells and just that many ids are used |
| Supervisor.ComputerMachine.ResumeHostRequestFor | src/computer.rs:1927-1953 | an id without a route is refused; otherwise the answer is offered to the session of the process that made the request and to no other, and if it is taken the id has no route any more; a refusal changes nothing |
| Supervisor.AnswerReaches | src/computer.rs:1927-1953 | an answer reaches the request routed under its id, made by a task of the same number; that request no longer pends and every other process is as it was |
| Processes.AcceptsIff | src/computer.rs:1927-1953 | an answer is accepted exactly when its id stands for a request made by a task of the same number |
| Supervisor.ComputerMachine.TakeOn | src/computer.rs:1453-1470 | a wait for a line, a terminal event or a compilation is parked with its own device, where the next choices pass it over, and the waits of the other devices stay |
| Supervisor.ComputerMachine.AnswerParked | src/computer.rs:1122-1139 | a settled read is answered and no longer parked; a wait for an event is answered if one is there, and stays parked if its session refuses |
| Supervisor.ComputerMachine.Serve | src/computer.rs:1367-1403 | a chosen request is answered, parked or failed by its device, or, for the process service, is a diagnostic, an exit or a program |
| Supervisor.AnsweredOrStays | src/computer.rs:1367-1470 | a request of a device is answered at once exactly when the device replies, or when it is for the file system; otherwise it stays pending |
| Supervisor.ParksWhatItTakesOn | src/computer.rs:1453-1470 | a request that its device takes on is parked with that device and with no other |
| Supervisor.ParkedIsPassedOver | src/computer.rs:1171-1213 | and every choice passes it over |
| Supervisor.SettlesItsOwn | src/computer.rs:1122-1139 | a line answers the read and a terminal event the raw wait; neither touches the place of the other, and the answered request no longer pends |
| Supervisor.EndingClears | src/execution/session.rs:515-545 | a session that has ended is over, and only halting and an uncaught exception clear what was pending |
| Supervisor.EndIsReported | src/computer.rs:2453-2488 | the end of the root is reported by its sort and stops the machine; the end of a child by its scope exactly when its parent takes the news, and then the parent no longer waits |
| Supervisor.ExitCodes | src/computer.rs:1996-2028 | the root halts with a code of one byte and crashes with any other |
| Supervisor.ComputerMachine.CarryOut | src/computer.rs:1345-1403 | a choice is published whole, or served, or gives the reason to wait |
| Supervisor.ComputerMachine.TakeUp | src/computer.rs:1155-1403 | the pending requests of the active session are taken up as the choice among them says, with the two errors exactly in their cases |
| Supervisor.ComputerMachine.Advance | src/computer.rs:1091-1403 | while a process is to be ended an advance is a step of forced termination and nothing else; otherwise a parked wait is settled, or the active session runs and what it comes to is dealt with; the invariant is kept in every case |
| Supervisor.ComputerMachine.CompleteCompilation | src/computer.rs:2368-2424 | a compilation ends, and its request is answered, exactly when it goes by the token and a process is active at the depth of the one that asked; the errors in their order; the invariant is kept exactly when the answer is not misdirected |
| Supervisor.ComputerMachine.SubmitRedstoneInput | src/computer.rs:570-585 | the levels of the waits that end go to the active process in order, up to the first that is refused; the invariant is kept exactly when none of those delivered is misdirected |
| Supervisor.ComputerMachine.BeginCompilation | src/computer.rs:2242-2258 | a compilation gets the next token and remembers the depth of its process |
| LateAnswers.ResumeKeepsIff | src/computer.rs:570-585 | an answer given to the active process by request id alone keeps the invariant if and only if it is not taken for a request that has been put to the host, in a session that goes on |
| LateAnswers.CompletedKeepsIff | src/computer.rs:2368-2424 | ending a compilation keeps the invariant if and only if its answer is not so misdirected |
| LateAnswers.CompletionCounts | src/computer.rs:2368-2424 | a completion counts exactly when its token is that of the compilation under way and the stack is as high as when it was asked for; then the compilation is over and a request that takes the answer no longer pends |
| LateAnswers.AwakenedKeepsIff | src/computer.rs:570-585 | a series of redstone wakeups keeps the invariant if and only if none of those delivered is misdirected |
| LateAnswers.OneWakeup | src/computer.rs:570-585 | a wakeup is delivered exactly when the active session accepts it and waits for it; then its request no longer pends, and otherwise nothing changes |
| LateAnswers.AskerHasExited | src/computer.rs:2368-2424 | on every machine that keeps the invariant the answer to a compilation is misdirected only if the process that asked for it has exited |
| StaleCompilations.StaleCompilation | src/computer.rs:2453-2487 | five advances of a new machine after which it is: a child asks for a compilation and exits, which leaves the compilation standing, and the next child at that depth calls the host under the same request id |
| Supervisor.TakingUpProgresses | src/computer.rs:1155-1366 | if the machine can do something itself, taking up the batch serves such a request or gives a route to a pending request that had none; it fails with the limit error exactly when it would publish something new and ids do not suffice |
| Supervisor.AdvanceProgresses | src/computer.rs:1091-1366 | so does every advance that reaches the batch |
| Supervisor.PublishesThenServes | src/computer.rs:1155-1366 | after an advance that published while the machine had work of its own, an advance with no further call and the same allowance serves the first request that can be served |
| Transfers.QuotaBoundsEach | src/computer_filesystem.rs:236-260 | the quotas over all processes bound each table |
| Transfers.StaleForever | src/computer_filesystem.rs:88-119 | on every run a handle that was issued and is gone stays stale while its process lives: ids are not reissued |
| Transfers.InsertedKeeps | src/computer_filesystem.rs:88-100 | a new entry keeps the ids strictly increasing and below the next one |
| Transfers.ClosedKeeps | src/computer_filesystem.rs:115-123 | closing takes out that handle and keeps the others in order |
| Transfers.ClosedHolds | src/computer_filesystem.rs:115-123 | and exactly the other entries are left |
| Transfers.BeforeIff | src/filesystem/tree.rs:326-345 | names are ordered by the first byte where they differ, a prefix coming first |
| Transfers.ActiveKeeps | src/computer_filesystem.rs:236-260 | a change to the active table within the quota keeps the quotas over all processes |
| FileTransfers.Grown | src/computer_filesystem.rs:324-329 | a draft that has room keeps it; otherwise it reserves what it must hold, or twice what it had, or all that the file limit allows |
| FileTransfers.AppendKeepsDraft | src/computer_filesystem.rs:291-343 | an append keeps a draft equal to the concatenation of what was appended, or poisons it; a poisoned draft takes no more |
| FileTransfers.PublishingSupersedes | src/computer_filesystem.rs:344-371 | publishing gives a file a revision that none had, so no other draft opened on the old one can be published, and drafts of other files are not affected |
| FileTransfers.FileHost.CapacityIsQuota | src/computer_filesystem.rs:236-260 | there is room for a new transfer exactly when the quotas still hold with it |
| FileTransfers.FileHost.constructor | src/computer_filesystem.rs:32-39 | a root process with no transfers |
| FileTransfers.FileHost.Insert | src/computer_filesystem.rs:88-100 | a transfer opens under the next id of the active process, and under no id once ids have run out |
| FileTransfers.FileHost.OpenRead | src/computer_filesystem.rs:261-276 | a snapshot of the file as it is now, within the file limit and the quotas, or the error of the first condition that fails |
| FileTransfers.FileHost.OpenWrite | src/computer_filesystem.rs:277-290 | an empty draft that remembers the revision it replaces, or the error of the first condition that fails |
| FileTransfers.FileHost.OpenDirectory | src/computer_filesystem.rs:394-403 | a listing as it is now, within the quotas, or the error of the first condition that fails |
| FileTransfers.FileHost.OpenMove | src/computer_filesystem.rs:422-437 | a move handle that remembers the generation, or the error of the first condition that fails |
| FileTransfers.FileHost.Append | src/computer_filesystem.rs:291-343 | taken exactly when it fits chunk, file and quota and no earlier append has failed; otherwise the draft is poisoned, and every attempt is logged with it |
| FileTransfers.FileHost.AppendChunk | src/computer_filesystem.rs:302-343 | the draft after an append, exactly when it fits |
| FileTransfers.FileHost.Commit | src/computer_filesystem.rs:344-371 | publishes exactly the concatenation of all appends attempted on the handle since it was opened, over the revision it was opened on, and consumes the handle; a draft with a failed append is never published, and a failed commit changes nothing |
| FileTransfers.FileHost.Close | src/computer_filesystem.rs:115-123 | a handle is closed once; afterwards it is stale |
| FileTransfers.FileHost.ReleaseAll | src/computer_filesystem.rs:124-126 | all handles of the active process close; ids go on |
| FileTransfers.FileHost.ReadChunk | src/computer_filesystem.rs:372-392 | the next part of the snapshot behind a zero byte, and the position behind it; each error exactly in its case |
| FileTransfers.FileHost.NextEntry | src/computer_filesystem.rs:404-421 | the next name of the listing, or its end; each error exactly in its case |
| TransferCodec.TableForced | src/computer_filesystem.rs:570-610 | an input starts with the written form of at most one table |
| TransferCodec.ReadBytes | src/computer_filesystem.rs:616-632 | a length-prefixed run of bytes within a bound, or no such run starts the input |
| TransferCodec.ReadNames | src/computer_filesystem.rs:704-720 | the names of a listing within the room that is left, or no such names start the input |
| TransferCodec.ReadSnapshot | src/computer_filesystem.rs:670-681 | a snapshot and a position inside it, or none starts the input |
| TransferCodec.ReadDraft | src/computer_filesystem.rs:682-687 | a draft, or none starts the input |
| TransferCodec.ReadListing | src/computer_filesystem.rs:688-730 | a listing within the limits, in strict order, and a position inside it, or none starts the input |
| TransferCodec.ReadTransfer | src/computer_filesystem.rs:669-736 | a transfer of one of the four kinds, or none starts the input |
| TransferCodec.ReadEntry | src/computer_filesystem.rs:653-743 | an entry whose id lies between the one before and the next one to be issued, or none starts the input |
| TransferCodec.ReadTable | src/computer_filesystem.rs:635-747 | accepts exactly the inputs that start with the form of a table within the limits, and answers that table |
| TransferCodec.WriteTable | src/computer_filesystem.rs:570-610 | the form of a table |
| TransferForm.TableLies | src/computer_filesystem.rs:570-610 | the next id in four bytes, the number of entries in eight, and the entries |
| TransferForm.TableEntryLies | src/computer_filesystem.rs:570-610 | each entry behind those before it |
| TransferForm.EntryLies | src/computer_filesystem.rs:570-610 | an entry is its id in four bytes, its path behind its length, and its transfer |
| TransferForm.BodyLies | src/computer_filesystem.rs:570-610 | a transfer is a tag, 0 to 3 for snapshot, draft, listing and move, and a body |
| TransferForm.ReadLies | src/computer_filesystem.rs:570-610 | a snapshot is its bytes behind their length and its position |
| TransferForm.WriteLies | src/computer_filesystem.rs:570-610 | a draft is its revision, its bytes behind their length, and whether an append has failed |
| TransferForm.DirectoryLies | src/computer_filesystem.rs:570-610 | a listing is the number of its names, the names, and its position |
| TransferForm.NameLies | src/computer_filesystem.rs:570-610 | each name behind its length and behind the names before it |
| TransferForm.MoveLies | src/computer_filesystem.rs:570-610 | a move is a generation |
| TransferCodec.TrimmedLegalIff | src/computer_filesystem.rs:635-747 | a table within the quotas is within the limits of the reader if and only if its listings have no more names, and no longer ones, than the reader allows |
| TransferCodec.RootListingNeedsRoom | src/filesystem/tree.rs:326-345 | the listing of the root has two names whatever the limits on listings are, so with room for one handle and 39 bytes its table is reachable, and it is legal for the reader exactly when those limits allow two names of up to four bytes |
| TransferCodec.WriteAndRead | src/computer_filesystem.rs:569-747 | a reachable table, once written, is accepted if and only if its listings fit, whatever follows it, and what is restored is the same table with no more room reserved than it uses |

## Left out

- The interpreter, its heap, garbage collector, scheduler, record decoder and verifier: a session is the table of requests it waits on, the next request id, whether it is over, and its six work counters; request ids do not run out.
- Panics inside an action on a stored handle: no action panics in this model, so a poisoned lock does not occur.
- SHA-256: the digest is any function.
- Allocation failure and allocation budgets: memory suffices and vectors have exactly the room asked for.
- The C and Java interfaces, the wire encoders, the benchmark, diagnostics text and stack traces: plumbing and formatting.
- Diagnostics of the decoders: the contracts say exactly what is refused, not with which of the codes, offsets and texts.
- Instruction costs and the math and matrix cost tables: they would add only table look-ups.
- Bit masks and shifts are written as division and remainder.
- Which redstone waits stand, and which of them new levels end, are parameters of the supervisor; what the device does is proved about the device alone.
- Process diagnostics and the active terminal event of a process: kept per frame by the source and not part of the frames here.
- The machine-wide checkpoint validator: only the validators of the streams, the device and the transfer table are modelled.
- The file system tree, its permissions, journal and persistence: a map from paths to bytes and generations with a replace that checks the revision; renames are not modelled.
- Reading a file by offset, statistics, deployment and compilation requests: they would add only easy members.
- Supervisor.ComputerMachine.FinishChild: does not model that the ended process gives up the active terminal event, which is not part of the frames here, nor the input; `Stdio.StandardStreams.CancelFrame` models the latter on the streams.
- Sessions.IssueKeeps: takes it as a parameter whether the arguments, text and merge entries of a request keep within their limits.
- Supervisor.ComputerMachine.ResourceSnapshot: takes what each part reports as a parameter; the file system's own figures, which are copied and not added, are left out.
- FileTransfers.FileHost.OpenDirectory: takes the names in strict order from the file system, which keeps them in an ordered map.
- ArrayCopy.PendingArrayCopy.constructor: takes element widths for which the unchecked size of a chunk of 256 elements fits 32 bits.
- Container.DecodeContainer: takes the bytes of at most one 64-bit address space.
