# Verification of the sequencer's core algorithms

SATAN is a music sequencer. This project models seven parts of its native code in
Dafny and proves what they are for:

- the mixed-radix FFT and its real-signal packing (`kiss_fft.c`, `kiss_fftr.c`);
- the MIDI event pool and the builders that fill audio-period buffers from it
  (`midi_generation.cc`);
- the loops of a machine sequencer: the sorted note list, the playback cursor, the
  slots of sounding notes, and the loop store that a sequence refers to by index
  (`machine_sequencer.cc`);
- the fixed-point square root (`fixedpointmathcode.h`);
- the connection table of a machine and its copies on remote clients
  (`remote_interface.cc`);
- the chunk writer of Standard MIDI Files (`midi_export.cc`);
- the builder that turns what a pad plays into notes of a loop (`midi_generation.hh`).

`dafny verify dfyconfig.toml` checks everything.

## How the parts are modelled

**FFT** (`Complex`, `Sums`, `Roots`, `Modular`, `Kernels`, `Butterfly`, `Factor`,
`KissFft`, `Transform`, `RealTransform`, `FastSize`). Samples are pairs of reals, so
arithmetic is exact. The twiddle table is any table with the algebra of exact roots of
unity: `Stage.ValidTable` says that adding indices multiplies entries, that only entry
0 is one and that mirrored entries are conjugate; `Stage.TableOfFour` exhibits one. The
half-turn, quarter-turn and third-turn values that the butterflies rely on are derived
from it. Butterflies, recursion and the packing loops are methods that work in place
on arrays, each proved to leave the discrete Fourier transform (`Roots.Dft`) of its
input.

**MIDI events** (`MidiGeneration`, `MidiRuns`). Nodes carry their `next` and `last`
pointers; ghost sequences say which nodes a chain holds. `World` is the invariant of
one event store and any set of builders on it; every public call of a builder keeps
it. `MidiRuns.Interleave` executes any sequence of calls on any builders. A builder
must have been given a buffer before it queues or skips: until then the cursor fields
are unset.

**Sequencer** (`NoteOrder`, `Playback`, `SequencerLoop`, `LoopStore`). `NoteOrder`
holds what concerns on_at and the cursor, `Playback` what concerns slots and
countdowns; the class `Loop` works on the doubly linked list and the slot array and is
proved to do what these two modules say. A note is *considered* when the cursor passes
it; it sounds if playback is on, the sequencer is not muted and a slot is free.

**Square root** (`FixedSqrt`), **connections** (`ConnectionText`, `Connections`),
**MIDI chunks** (`MidiChunk`), **pad export** (`PadExport`). Bit masks of the chunk
writer are bit-vector operations with the constants of the code. Temporaries of the
square root are proved to stay inside their type.

## Where the code does not do what it is meant to do

Each is stated with its exact condition.

- `push_u32b_word_var_len` loses bits of words from 2^14 on: the mask at line 155
  keeps bits 18-24 where 14-20 are meant, the carried accumulator then sets bits in
  the third byte, and the mask at line 139 misses bit 21. `MidiChunk.SeenKept` says
  which words survive; 2^14 itself reads back as 0 (`MidiChunk.FirstLoss`). The header
  promises 28 bits.
- A note inserted while the loop plays is passed over if it belongs between the
  position and the note under the cursor: `NoteOrder.StepGood`, `NoteOrder.InsertMissed`.
- A loop with a note before tick 0 never gets past that note
  (`NoteOrder.StartOnTrack`, `NoteOrder.BehindIsStuck`).
- Deleting a loop from a full store does not empty a slot: the last loop stays, under
  two indices unless the last slot was deleted (`LoopStore.DeletePacked`,
  `LoopStore.DeleteSeparate`).
- The square root of a small positive number lies outside the first bracket
  (`FixedSqrt.InitialHolds`, `FixedSqrt.SqrtTooSmall`).
- A snapshot of the connections loses names that are empty, outputs with `{` and
  inputs with `}` (`ConnectionText.RoundTrip`).
- A text that ends inside an output's name does not lose that connection: it is read
  with the input of the one before, since getline at the end keeps its old string
  (`ConnectionText.CutOff`).

## Model

| member | source | states |
|---|---|---|
| Inversion.DftInversion | src_jni/kiss_fftr.c:123-159 | transforming a spectrum with the inverse roots gives n times the signal, for every primitive root of every order n: the orthogonality behind every inverse transform |
| Stage.QuarterTurn | src_jni/_kiss_fft_guts.h:89-127 | a quarter of the way round a primitive root is i or -i, from its algebra alone, which is what radix 4 relies on |
| Factor.KfFactor | src_jni/kiss_fft.c:304-330 | terminates for every 31-bit n; the pairs written form a chain n = p1*m1, m1 = p2*m2, ..., 1; every radix is 4 or prime, at most one is 2, and fewer than 32 pairs are used |
| KissFft.KfBfly2 | src_jni/kiss_fft.c:21-42 | the radix-2 butterfly leaves in every cell the bin that one decimation stage defines, from the cells before it, and changes nothing else |
| KissFft.KfBfly4 | src_jni/kiss_fft.c:44-90 | the same for radix 4, in both directions |
| KissFft.KfBfly3 | src_jni/kiss_fft.c:92-134 | the same for radix 3, although it keeps half of the imaginary part of the root only |
| KissFft.KfBfly5 | src_jni/kiss_fft.c:136-195 | the same for radix 5 |
| KissFft.KfBflyGeneric | src_jni/kiss_fft.c:198-235 | the same for every radix, with the running table index kept in range by one conditional subtraction |
| Transform.StageIsUnique | src_jni/kiss_fft.c:265-271 | whichever butterfly the radix selects, the array is the same as the generic one leaves |
| KissFft.KfWork | src_jni/kiss_fft.c:237-302 | for every factor chain, stride and offset: output k is the transform of the strided input, cells outside the output are untouched |
| Transform.Alloc | src_jni/kiss_fft.c:339-368 | a configuration whose factors chain from the length to 1, ready for every transform of that length |
| Transform.Stride | src_jni/kiss_fft.c:371-383 | the transform of the strided input, also when input and output are the same buffer |
| Transform.Fft | src_jni/kiss_fft.c:385-388 | the transform of the input for every length |
| Transform.RoundTrip | src_jni/kiss_fft.c:385-388 | forward and then inverse multiplies every sample by the length |
| RealTransform.AllocReal | src_jni/kiss_fftr.c:27-65 | odd lengths are refused; otherwise a configuration of half the length whose tables and scratch space fit |
| RealTransform.KissFftr | src_jni/kiss_fftr.c:67-121 | bins 0 to n of the full-length transform of 2n real samples, from one transform of length n; nothing is written for an inverse configuration |
| RealTransform.KissFftri | src_jni/kiss_fftr.c:123-159 | the inverse transform of the packed half spectrum, nothing beyond it |
| RealTransform.RealRoundTrip | src_jni/kiss_fftr.c:67-159 | from the bins of a real signal the inverse yields 2n times the signal, including the DC, Nyquist and middle bins |
| RealTransform.ThereAndBack | src_jni/kiss_fftr.c:67-159 | the caller's view: kiss_fftr, then kiss_fftri, gives back every sample times 2n |
| FastSize.NextFastSize | src_jni/kiss_fft.c:396-408 | terminates and returns the least number from n on whose prime factors are 2, 3 and 5 |
| FastSize.RemainderDecides | src_jni/kiss_fft.c:398-405 | dividing out 2, 3 and 5 leaves 1 exactly for such numbers |
| MidiGeneration.Chain.GetHead | src_jni/midi_generation.cc:107-123 | takes the first node off; the next one inherits the pointer to the true last node |
| MidiGeneration.Chain.Join | src_jni/midi_generation.cc:131-148 | in constant time, the concatenation of the two chains, with the head's pointer to the last node right |
| MidiGeneration.Controller.PopNextFreeMidi | src_jni/midi_generation.cc:66-87 | a node from the free list or a new block, in no chain any more; sizes above four are refused |
| MidiGeneration.Controller.InitFreeMidiEventChain | src_jni/midi_generation.cc:41-60 | a new block of 256 linked nodes becomes the free list |
| MidiGeneration.Controller.PushNextFreeMidi | src_jni/midi_generation.cc:93-105 | the node is the first of the free list, whose order is kept otherwise |
| MidiGeneration.Controller.ChainToTail | src_jni/midi_generation.cc:125-129 | one node in hand becomes the last of the chain; all other chains stay |
| MidiGeneration.MidiEventBuilder.ChainEvent | src_jni/midi_generation.cc:158-165 | with room the node is in the cell under the cursor, the cursor moves by one and no other cell changes; without room no cell changes and the node is the last of the waiting ones |
| MidiGeneration.MidiEventBuilder.ProcessFreeableChain | src_jni/midi_generation.cc:167-172 | every node of the freeable chain is in the free list again |
| MidiGeneration.MidiEventBuilder.ProcessRemainingChain | src_jni/midi_generation.cc:174-181 | waiting events move into the buffer in order until it is full or none waits; no node is lost |
| MidiGeneration.MidiEventBuilder.QueueEvent | src_jni/midi_generation.cc:233-281 | with room the cell under the cursor, which is not before the skipped position, holds the event and every other cell what it held; without room no cell changes and the event waits last; all other builders and the store stay well formed |
| MidiGeneration.MidiEventBuilder.QueueNoteOn | src_jni/midi_generation.cc:233-243 | the same for status 0x90 with the low four bits of the channel, note and velocity as bytes |
| MidiGeneration.MidiEventBuilder.QueueNoteOff | src_jni/midi_generation.cc:245-255 | the same for status 0x80 |
| MidiGeneration.MidiEventBuilder.QueueController | src_jni/midi_generation.cc:257-269 | the same for status 0xb0 |
| MidiGeneration.MidiEventBuilder.QueuePitchBend | src_jni/midi_generation.cc:271-281 | the same for status 0xe0 |
| MidiGeneration.MidiEventBuilder.UseBuffer | src_jni/midi_generation.cc:183-190 | cells from 0 on hold the nodes that waited first, in order, as many as fit; the cells behind them hold what they held; the rest keeps waiting; every builder stays well formed |
| MidiGeneration.MidiEventBuilder.Skip | src_jni/midi_generation.cc:199-203 | the cursor moves to the accumulated skip position unless it is past it, and the answer says whether a slot is left |
| MidiGeneration.MidiEventBuilder.FinishCurrentBuffer | src_jni/midi_generation.cc:192-197 | what was placed is free again, what waits keeps waiting |
| MidiGeneration.ExactlyOnePlace | src_jni/midi_generation.cc:41-148 | every allocated node is in exactly one of the free list, one builder's freeable chain or one builder's remaining chain |
| MidiGeneration.HeadKnowsTail | src_jni/midi_generation.cc:107-148 | every chain is acyclic and its head points to its true last node |
| MidiGeneration.SlotsHoldEvents | src_jni/midi_generation.cc:158-203 | filled slots increase strictly, lie inside the buffer, still hold the events placed there, and their nodes are not free |
| MidiRuns.TakeStep | src_jni/midi_generation.cc:183-281 | the effect of each call on its builder, in cursor, skip position, buffer and account, and no field of another builder changes |
| MidiRuns.Interleave | src_jni/midi_generation.cc:156-281 | for any interleaving of calls on any builders: placed events followed by waiting ones are the queued events in order, for each builder; every node is somewhere |
| NoteOrder.InsertedSorted | src_jni/machine_sequencer.cc:307-345 | insertion keeps the list in order of on_at and puts equal ones in order of arrival |
| NoteOrder.RebuiltSame | src_jni/machine_sequencer.cc:397-407 | inserting the notes of a sorted list one by one gives the same list |
| NoteOrder.EachAtItsTick | src_jni/machine_sequencer.cc:170-226 | in an unedited list with no note before 0, tick t considers exactly the notes with on_at t, and after t ticks exactly those before t have been considered |
| NoteOrder.StepGood | src_jni/machine_sequencer.cc:194-345 | a step from a good state leads to a good one exactly if an inserted note lies before the position, or not before the note under the cursor |
| NoteOrder.RunGood | src_jni/machine_sequencer.cc:170-345 | in every run with timely insertions the cursor is the first note not before the position |
| NoteOrder.ConsideredOnce | src_jni/machine_sequencer.cc:170-345 | in every such run without a restart, with insertions and deletions, a note ahead of the cursor is considered in one tick, its own, once that tick has passed |
| NoteOrder.InsertMissed | src_jni/machine_sequencer.cc:307-345 | a note inserted in the other cases is considered in no tick until playback restarts, whatever is edited meanwhile |
| NoteOrder.BehindIsStuck | src_jni/machine_sequencer.cc:194-205 | a cursor on a note before the position never moves on |
| Playback.RunBalance | src_jni/machine_sequencer.cc:175-226 | in every run, retriggering included, note-ons minus note-offs is the number of occupied slots, at most 16 |
| Playback.SingleNoteOff | src_jni/machine_sequencer.cc:194-226 | a note that starts and is not due again gets one note-off, length + 1 ticks later |
| SequencerLoop.NoteOnAndOff | src_jni/machine_sequencer.cc:170-226 | in an unedited playing loop a note gets its note-on at its on_at if there is a slot, its single note-off length + 1 ticks later, and no other message |
| SequencerLoop.Loop.StartToPlay | src_jni/machine_sequencer.cc:170-173 | position 0 and the cursor on the first note; sounding notes go on |
| SequencerLoop.Loop.ActivateNote | src_jni/machine_sequencer.cc:175-183 | the first empty slot holds the note and no other slot changes; it fails, changing nothing, exactly if there is no empty slot |
| SequencerLoop.Loop.DeactivateNote | src_jni/machine_sequencer.cc:185-192 | the first slot that holds the note is empty and no other slot changes |
| SequencerLoop.Loop.InternalInsertNote | src_jni/machine_sequencer.cc:307-345 | the doubly linked list with the note before the first later one; the cursor stays on its note |
| SequencerLoop.Loop.InternalDeleteNote | src_jni/machine_sequencer.cc:232-252 | the doubly linked list without the note; the cursor moves on if it stood there; nothing changes for a note that is not in the list |
| SequencerLoop.Loop.InternalInsertNotes | src_jni/machine_sequencer.cc:397-407 | the list rebuilt from the new notes; the same notes in the same order if they are sorted |
| SequencerLoop.Loop.CopyLoop | src_jni/machine_sequencer.cc:409-449 | clones of all notes of the source, field by field within four and seven bits, in its order if that is sorted, also when a loop is copied onto itself |
| SequencerLoop.Loop.ProcessNoteOn | src_jni/machine_sequencer.cc:194-205 | stopped or muted, nothing is sent and nothing that sounds changes; otherwise exactly the notes between the old and the new cursor are started in free slots; the messages carry note, velocity and channel of each; the cursor passes the notes at the position in either case |
| SequencerLoop.Loop.ProcessNoteOff | src_jni/machine_sequencer.cc:207-219 | every occupied slot counts down or ends, also when a note sits in two slots; the note-offs carry note and channel, with velocity 0x80 |
| SequencerLoop.Loop.Process | src_jni/machine_sequencer.cc:221-226 | one tick: stopped or muted, only the countdowns run and only they send; otherwise the notes passed by the cursor start and then the countdowns run |
| SequencerLoop.Loop.PlayFor | src_jni/machine_sequencer.cc:170-226 | start_to_play and any number of ticks: the run that the due notes of each tick make |
| LoopStore.DeleteKeepsLoops | src_jni/machine_sequencer.cc:914-943 | after deletion every position plays the Loop object it played before, except those that referred to the deleted one, which play nothing |
| LoopStore.DeletePacked | src_jni/machine_sequencer.cc:914-943 | deletion leaves one loop less exactly if the store was not full |
| LoopStore.DeleteSeparate | src_jni/machine_sequencer.cc:914-943 | every loop keeps a single index exactly if the store was not full or its last slot was deleted |
| LoopStore.MachineSequencer.DeleteLoop | src_jni/machine_sequencer.cc:914-943 | slots above the index move down by one, positions are renumbered or unset, in numbers, and what each position plays then |
| LoopStore.MachineSequencer.InternalAddNewLoop | src_jni/machine_sequencer.cc:564-590 | the first empty slot, in a doubled store if there is none; no position plays anything else than before; refused at 100 loops |
| LoopStore.MachineSequencer.InternalSetLoopIdAt | src_jni/machine_sequencer.cc:543-562 | accepted exactly for positions from 0 on and ids of stored loops or none; a position beyond the sequence makes the shared length and this sequence position + 16 long, new positions unset; otherwise both lengths stay, and so do all other positions |
| LoopStore.MachineSequencer.InternalGetLoopIdAt | src_jni/machine_sequencer.cc:528-534 | unset outside the sequence, otherwise unset or the index of a stored loop |
| LoopStore.MachineSequencer.GetLoop | src_jni/machine_sequencer.cc:854-882 | the stored loop, or the error for every other index |
| LoopStore.MachineSequencer.RefreshLength | src_jni/machine_sequencer.cc:1423-1450 | never shorter; old positions unchanged, new ones unset |
| LoopStore.MachineSequencer.DoubleLoopStore | src_jni/machine_sequencer.cc:1404-1421 | twice the size, old contents first, the rest empty |
| FixedSqrt.HalvedKeeps | src_jni/fixedpointmathcode.h:208-225 | a bisection step keeps the root in the bracket, if it was there, and halves the width, rounded up at most |
| FixedSqrt.InitialHolds | src_jni/fixedpointmathcode.h:227-301 | the first bracket holds the root exactly for 0 and from a quarter less one unit on |
| FixedSqrt.SqrtTooSmall | src_jni/fixedpointmathcode.h:227-301 | for all others the result is below the root, however close the bisection gets to its upper end |
| FixedSqrt.SqrtU8P8 | src_jni/fixedpointmathcode.h:227-242 | for 0 and from a quarter less one unit on, the result is within the width of the first bracket over 8192, rounded up, of the root, and so within four units |
| FixedSqrt.SqrtU24P8 | src_jni/fixedpointmathcode.h:244-263 | the same in 24.8 for every x in range, with 131072 |
| FixedSqrt.SqrtU16P16 | src_jni/fixedpointmathcode.h:265-280 | the same in 16.16, with 8192 |
| FixedSqrt.SqrtU8P24 | src_jni/fixedpointmathcode.h:282-301 | the same in 8.24, with 131072 |
| FixedSqrt.Less | src_jni/fixedpointmathcode.h:194-197 | the top bit of the wrapped difference is the comparison |
| FixedSqrt.Temporaries.Sqrt | src_jni/fixedpointmathcode.h:201-315 | for every number of 16 or 32 bits, the middle of what 12 or 16 bisection steps on the static temporaries leave; no intermediate value leaves its type |
| FixedSqrt.Temporaries.SqrtSigned | src_jni/fixedpointmathcode.h:312-315 | 0 for numbers that are not positive, otherwise the unsigned root |
| ConnectionText.RoundTrip | src_jni/remote_interface.cc:1876-1898 | a snapshot reads back as the same table exactly if outputs are non-empty without `{` and inputs non-empty without `}` |
| ConnectionText.WithConnectionPlace | src_jni/remote_interface.cc:1955-1977 | in an ordered table a new connection comes behind those of its own and lower sources and before those of higher ones |
| ConnectionText.WireText | src_jni/remote_interface.cc:2880-2890 | the delimiters of the text, on two connections and on none |
| ConnectionText.StolReads | src_jni/remote_interface.cc:1890-1892 | the number behind any white space and an optional sign is read whatever follows its digits |
| ConnectionText.StolThrows | src_jni/remote_interface.cc:1890-1892 | without a digit there the call throws |
| ConnectionText.CutOff | src_jni/remote_interface.cc:1876-1898 | a text that ends inside the name of an output reads as a connection of that part of the name to the input of the connection before |
| ConnectionText.Serialize | src_jni/remote_interface.cc:2880-2890 | the text of every connection in order, or the marker for none |
| ConnectionText.Parse | src_jni/remote_interface.cc:1876-1898 | the loop over the stream, with getline at the end of input and the exception of stol |
| Connections.RIMachine.EraseAll | src_jni/remote_interface.cc:2823-2846 | all connections equal to the given one are gone, the others keep their order |
| Connections.MessageHandler.DeliverMessage | src_jni/remote_interface.cc:361-376 | the message is queued behind the others and written at once exactly if none was queued; one write is outstanding exactly while the queue is not empty |
| Connections.MessageHandler.WriteCompleted | src_jni/remote_interface.cc:319-338 | the next message is written at once, nothing is lost or repeated |
| Connections.Server.AttachInput | src_jni/remote_interface.cc:1955-1977 | the table has the connection, each agent's queue has the message last and the wire has it too if the queue was empty; every client that would agree with the table after all pending messages still would |
| Connections.Server.DetachInput | src_jni/remote_interface.cc:1997-2024 | the same without the connection |
| Connections.Server.AcceptClient | src_jni/remote_interface.cc:2872-2890 | a new client will agree with the table exactly if the snapshot can carry all names |
| Connections.Server.TakeStep | src_jni/remote_interface.cc:319-376 | the effect of each step: an edit is queued for every client, a completed write leaves the queue and the next message goes on the wire, a received message leaves the wire and is applied to the client's table |
| Connections.Server.Interleave | src_jni/remote_interface.cc:319-376 | in any interleaving of edits, write completions and arrivals, undelivered messages applied to a client's table give the server's |
| MidiChunk.VarLenReads | src_jni/midi_export.cc:130-172 | a variable-length quantity is always well formed and ends where it should; the value a reader gets is Seen |
| MidiChunk.SeenKept | src_jni/midi_export.cc:130-172 | the value is the word that was pushed exactly for the words described above |
| MidiChunk.ChunkReads | src_jni/midi_export.cc:94-172 | a chunk whose texts survive reads back field by field exactly if all its variable-length words survive |
| MidiChunk.SmallKept | src_jni/midi_export.cc:94-172 | words and string lengths below 2^14 survive |
| MidiChunk.StandardBytes | src_jni/midi_export.cc:130-172 | quantities of one and two bytes are those of the file format |
| MidiChunk.Chunk.VerifyFit | src_jni/midi_export.cc:78-88 | one doubling makes room for up to four bytes and keeps the bytes before |
| MidiChunk.Chunk.PushU8 | src_jni/midi_export.cc:103-106 | appends the byte and keeps header and earlier bytes |
| MidiChunk.Chunk.PushU16 | src_jni/midi_export.cc:108-112 | appends the word, high byte first |
| MidiChunk.Chunk.PushU32 | src_jni/midi_export.cc:114-120 | appends the word, high byte first |
| MidiChunk.WordsReadBack | src_jni/midi_export.cc:108-120 | big-endian words read back, whatever follows |
| MidiChunk.Chunk.PushU8VarLen | src_jni/midi_export.cc:122-124 | appends the quantity of the zero-extended byte |
| MidiChunk.Chunk.PushU16VarLen | src_jni/midi_export.cc:126-128 | appends the quantity of the zero-extended word |
| MidiChunk.Chunk.PushU32VarLen | src_jni/midi_export.cc:130-172 | appends the quantity and keeps header and earlier bytes |
| MidiChunk.Chunk.PushString | src_jni/midi_export.cc:94-101 | appends length and bytes up to the first NUL |
| MidiChunk.Chunk.Finalize | src_jni/midi_export.cc:61-76 | the size field is the number of bytes pushed modulo 2^32, the rest is as it was; dropped and empty chunks write nothing |
| PadExport.RunGood | src_jni/midi_generation.hh:140-184 | in every run accepted note-ons are the finished and the open notes, each finished note ends at the tick of its note-off, notes of one pitch do not overlap |
| PadExport.RunKeeps | src_jni/midi_generation.hh:140-184 | finished notes stay as they are |
| PadExport.Provenance | src_jni/midi_generation.hh:140-184 | in every run from an empty builder the open and the finished notes are, one by one, those of the first note-on of a pitch since its last note-off, with its channel and velocity; every note-off of a pitch that is open finishes a note and no other one does |
| PadExport.FinishedFrom | src_jni/midi_generation.hh:140-184 | for one finished note: the note-on it has its channel, velocity, pitch and tick from, and the note-off that gave it its length |
| PadExport.PadMidiExportBuilder.QueueNoteOn | src_jni/midi_generation.hh:140-154 | opens a new note with the given channel, velocity and pitch as bytes, program 0, the export tick and length 0, unless one of that pitch is open; all other open notes stay |
| PadExport.PadMidiExportBuilder.QueueNoteOff | src_jni/midi_generation.hh:156-167 | the open note of the pitch gets its length and enters the loop, whose notes are then the finished ones in order of on_at; all other notes stay; nothing happens without an open note |
| PadExport.PadMidiExportBuilder.StepTickOnce | src_jni/midi_generation.hh:180-184 | both tick counters advance by one |

## Left out

- Floating-point rounding, the `FIXED_POINT` and SIMD variants of the FFT macros and its OpenMP branch: the arithmetic is exact.
- The trigonometric setup of the twiddle tables: the tables are parameters with the algebra of exact roots.
- KissFft.KfWork: input and output arrays are distinct; buffers that overlap partly are not modelled. `in_stride` and offsets are arbitrary.
- RealTransform.KissFftr: exiting the process on a configuration of the wrong direction is an answer of false.
- FastSize.NextFastSize: integers are unbounded; the C counter overflows above the largest such number of 31 bits.
- MidiGeneration.MidiEventBuilder.QueueEvent: `queue_midi_data`, which cuts a byte string into these calls, is not part of this model. Positions and skips are unbounded integers. Allocation always succeeds.
- MidiGeneration.MidiEventBuilder.UseBuffer: no other builder may be using the same buffer, and a positive size must not exceed it.
- SequencerLoop.Loop.Process: whether playback is on is a parameter; line and tick arithmetic of the machine that calls it is not part of this model. Ticks and positions are unbounded integers.
- `note_update`, `clear_loop` while playing and deletion of a note that sounds: they leave the cursor or a slot on a note outside the list, and no step of the model does so. `internal_clear` and `internal_insert_notes` are modelled on the list alone.
- LoopStore.MachineSequencer.DeleteLoop: negative indices, for which the C code writes before the array.
- LoopStore.MachineSequencer.InternalSetLoopIdAt: one sequencer; the other ones that share the sequence length refresh in the same way. XML loading, which can leave gaps in the store, is not part of this model.
- ConnectionText.Parse: the out-of-range exception of stol, which depends on the width of long.
- Connections.Server.AttachInput: the table changes and the message is queued in one step. Transport failures, UDP delivery and other objects' messages are not part of this model; a client that cannot read its snapshot has an empty table.
- MidiChunk.Chunk.Finalize: writing to the file is returning the bytes; offsets are unbounded, with the size taken modulo 2^32.
- PadExport.PadMidiExportBuilder.QueueNoteOff: the callback is the one the sequencer passes, insertion into a loop that was empty at the start. The pad's own sessions are not part of this model.
- Fixed-point exp, ln, pow and the lookup tables; `export_sequence2midi_file`; `linked_list.hh`; id and object allocators; Java, JACK and XML bridges.
