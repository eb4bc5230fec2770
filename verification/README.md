# Bytehound, modelled and proved in Dafny

Bytehound is a memory profiler: a preloaded library records allocations of a program, a command line tool
squeezes, loads, analyses and replays the traces. This project models the parts of it where most can go
wrong and proves what they promise, for all inputs, all runs and all interleavings.

- **Range map** (`Links`, `LinkedHashMap`, `RangeSpec`, `RangeMap`): a linked list threaded through a hash
  table, and an index by range end, together behave like a plain function from address to value.
- **LZ4 block codec** (`Lz4Format`, `Lz4Encoder`, `Lz4Decoder`): a reference decoder for the LZ4 block format,
  encoder and decoder proved against it, the round trip, and the bound on the compressed size.
- **Chunk streams** (`Frames`, `FrameReader`, `ThreadedStream`, `ThreadedWriter`): framing of chunks, and putting
  chunks that were processed by several threads back in order, on both ends.
- **Replay** (`Replay`, `ReplayMachine`, `ReplayExporter`): a compiler from traces to slot operations and
  call-stack moves, and the recursive interpreter that runs its programs.
- **Squeezing** (`Trace`, `SqueezeSpec`, `SqueezeSteps`, `SqueezeFates`, `SqueezeLines`, `Squeeze`): rewriting a
  trace with temporary allocations replaced by statistics, without loading being able to tell the difference and
  with every other event kept.
- **Loading** (`Allocations`, `Records`, `Backtraces`, `Chains`, `Loader`, `Regions`, `RegionUse`, `MapUsage`): the
  tables a trace is folded into, chains of reallocations, the regions of memory maps and their usage histories.
- **Live culling** (`OrderedMap`, `TrackerSpec`, `TrackerRuns`, `TrackerTiming`, `TrackerFlushing`, `Tracker`):
  pending allocations per thread, flushed by age and sent over sharded queues.
- **Analysis** (`Timeline`, `Datapoints`, `Filter`, `CommonFilter`, `Tree`): bucketed timelines, series on a
  common axis, compiled filters, and the trie of call stacks.

Code that updates objects in place is modelled by classes and loops that are proved against specification
functions; the properties are proved about those functions. `dafny verify dfyconfig.toml` checks everything.

What the code does is followed where it differs from what one would expect:

- The shard of a queue is computed by an expression in which the addition binds tighter than the bitwise
  and, so only the first and the last of the five queues are ever used (`preload/src/channel.rs:103`).
- A replayed free carries the time of the allocation, not that of the deallocation
  (`cli-core/src/exporter_replay.rs:88-95`); the time of a `Deallocation` in the model is that one.
- Frees are written to the squeezed trace with their backtrace as it was, not renamed
  (`cli-core/src/squeeze.rs:333`, `cli-core/src/squeeze.rs:349`).
- A reallocation that is squeezed with its allocation still held back is written with the address where its block
  was, not with the old pointer it came with (`cli-core/src/squeeze.rs:42-69`).
- Flushing while squeezing takes allocations that are exactly as old as the threshold, while a free culls
  them (`cli-core/src/squeeze.rs:138`, `cli-core/src/squeeze.rs:347`), so those may go either way.
- The table of dead threads' pending allocations is flushed from the front although it is not in order of time, so
  an old allocation can wait behind a younger one (`preload/src/allocation_tracker.rs:84-95`).
- Changes in a timeline's bucket zero are counted with the first later bucket (`cli-core/src/timeline.rs:170-171`).
- A change that belongs to an earlier bucket than the current one is counted in the current one, and makes it
  forget its highest total so far (`cli-core/src/timeline.rs:172-190`).
- Filling in a timeline all of whose changes are in bucket zero always stops the program
  (`cli-core/src/script.rs:354-373`).
- A compiled filter asks that a freed allocation was freed after the beginning of the trace, even when no
  criterion does (`cli-core/src/filter.rs:402`).
- The lifetime of an allocation recorded as freed before it was made wraps around in 64 bits, as in a build
  without overflow checks (`cli-core/src/filter.rs:774-775`, `common/src/timestamp.rs:20-22`).
- Removing a region of a map twice, or updating one that was removed, stops the program
  (`cli-core/src/loader.rs:1013`, `cli-core/src/loader.rs:1062`).

## Model

| member | source | states |
|---|---|---|
| `LinkedHashMaps.MakeIndex` | fast_range_map/src/lib.rs:74-77 | An index carries its counter, taken modulo 2^32, in its upper half, so that indices of fewer than 2^32 generations are pairwise distinct |
| `LinkedHashMaps.LinkedHashMap.GenerateIndex` | fast_range_map/src/lib.rs:74-77 | The generated index is not one of the live ones and its upper half is the new counter |
| `Links.InsertFacts` | fast_range_map/src/lib.rs:79-173 | Linking a node in anywhere keeps prev and next mutual inverses along one sequence that holds every node of the table, and puts the payload at that place of the sequence |
| `Links.RemoveFacts` | fast_range_map/src/lib.rs:176-200 | Unlinking a node keeps the table one sequence of mutually inverse links, without that node |
| `LinkedHashMaps.LinkedHashMap.InsertBack` | fast_range_map/src/lib.rs:79-102 | The represented sequence gets the entry at its end; first and last stay its ends and no node is unreachable |
| `LinkedHashMaps.LinkedHashMap.InsertFront` | fast_range_map/src/lib.rs:104-127 | The represented sequence gets the entry at its beginning |
| `LinkedHashMaps.LinkedHashMap.InsertBefore` | fast_range_map/src/lib.rs:129-150 | The entry comes right before the given node |
| `LinkedHashMaps.LinkedHashMap.InsertAfter` | fast_range_map/src/lib.rs:152-173 | The entry comes right after the given node |
| `LinkedHashMaps.LinkedHashMap.RemoveAndGetNextIndex` | fast_range_map/src/lib.rs:176-200 | Exactly that node leaves the sequence; its entry and its successor are returned |
| `LinkedHashMaps.LinkedHashMap.IntoVec` | fast_range_map/src/lib.rs:235-245 | Following the links from the first node yields the whole sequence in order |
| `LinkedHashMaps.LinkedHashMap.Clear` | fast_range_map/src/lib.rs:247-250 | The sequence becomes empty |
| `RangeSpec.LastWriterWins` | fast_range_map/src/lib.rs:439-471 | For any sequence of inserts, removes and clears the specified map stays sorted and has at every address the value of the last command that covered it |
| `RangeSpec.InsertedPoint` | fast_range_map/src/lib.rs:289-420 | Insertion changes the point map inside the inserted range and nowhere else |
| `RangeSpec.RemovedPoint` | fast_range_map/src/lib.rs:614-720 | Removal clears the point map inside the removed range and nowhere else |
| `RangeSpec.InsertedSorted` | fast_range_map/src/lib.rs:289-420 | Entries stay nonempty, sorted and disjoint under insertion |
| `RangeSpec.RemovedSorted` | fast_range_map/src/lib.rs:614-720 | Entries stay nonempty, sorted and disjoint under removal |
| `RangeSpec.RemovalConserves` | fast_range_map/src/lib.rs:600-720 | Yielded pieces and remaining entries together are the old point map, and share no address |
| `RangeSpec.OverlapsIff` | fast_range_map/src/lib.rs:510-556 | An entry is among the overlapping ones exactly if it has an address in the interval |
| `RangeMaps.RangeMap.Insert` | fast_range_map/src/lib.rs:448-471 | The entries become the old ones outside the range plus the new one in its place, whichever of the nine overlap cases occur; the index by range end stays in agreement |
| `RangeMaps.RangeMap.InsertAtStartingIndex` | fast_range_map/src/lib.rs:289-420 | The overlap loop, started at the first entry that can overlap, completes the insertion |
| `RangeMaps.RangeMap.FindStartingIndex` | fast_range_map/src/lib.rs:284-287 | The first entry that ends after the given address, found by range end |
| `RangeMaps.RangeMap.StartingIndexForRemoval` | fast_range_map/src/lib.rs:422-437 | The first entry a removal can touch, or none |
| `RangeMaps.RangeMap.Get` | fast_range_map/src/lib.rs:492-508 | The entry enclosing the address, if the point map has a value there, and none otherwise |
| `RangeMaps.RangeMap.GetAllOverlapping` | fast_range_map/src/lib.rs:510-556 | Exactly the entries with an address in the queried range, in ascending order |
| `RangeMaps.RangeMap.GetInRange` | fast_range_map/src/lib.rs:558-562 | The entries clipped to the queried range, in ascending order |
| `RangeMaps.RangeMap.Clear` | fast_range_map/src/lib.rs:594-597 | No entries and an empty index |
| `RangeMaps.RemoveIter.constructor` | fast_range_map/src/lib.rs:439-446 | Starting a removal changes nothing yet and yields nothing yet |
| `RangeMaps.RemoveIter.Next` | fast_range_map/src/lib.rs:614-720 | Every yielded piece is the next one of the old entries clipped to the removed range; at the end the map is the old one without the range |
| `RangeMaps.RemoveIter.Drop` | fast_range_map/src/lib.rs:606-610 | Dropping the iterator at any point leaves the same map as draining it |
| `RangeMaps.PerformAll` | fast_range_map/src/lib.rs:439-471 | Any sequence of inserts, removals through a dropped iterator and clears, performed on a new map, leaves the entries that the specification computes for the whole sequence |
| `RangeMaps.GetAfter` | fast_range_map/src/lib.rs:439-508 | After any such sequence, looking up any address finds what the last command that covered it wrote there, and nothing if it was removed or never written |
| `Lz4Encoder.CommonPrefixLength` | lz4-compress/src/compress.rs:145-187 | The number of equal bytes at the beginning of two slices |
| `Lz4Encoder.Encoder.FindDuplicate` | lz4-compress/src/compress.rs:289-322 | A duplicate is found exactly if the latest position entered into the slot looked up has the same four bytes and is at most 65535 bytes back; it is then as long as it can be |
| `Lz4Encoder.Encoder.PopBlock` | lz4-compress/src/compress.rs:337-368 | The next block reproduces the input up to the new cursor: no position of its literals has such a duplicate, and its match is the longest at the first one that has |
| `Lz4Encoder.Encoder.WriteInteger` | lz4-compress/src/compress.rs:325-334 | The bytes of a length in linear small-integer code |
| `Lz4Encoder.Encoder.Complete` | lz4-compress/src/compress.rs:371-429 | The output is the serialization of blocks that expand to the input; all of them take every duplicate the dictionary offers, as long as it goes on |
| `Lz4Encoder.GreedyExtends` | lz4-compress/src/compress.rs:371-429 | Blocks that take every duplicate stay so when the next one does |
| `Lz4Encoder.RunBlocks` | lz4-compress/src/compress.rs:289-368 | A run of one byte becomes one literal and one match over all the rest |
| `Lz4Encoder.Compress` | lz4-compress/src/compress.rs:443-450 | For every input and every dictionary behaviour the output decodes to the input and is no longer than n + n/255 + 2 bytes; for a run of one byte whose second position finds the first it is no longer than n/255 + 6 |
| `Lz4Format.DecodeSerialized` | lz4-compress/src/decompress.rs:236-256 | The reference decoder recovers what any chain of valid blocks expands to |
| `Lz4Format.SerializedSize` | lz4-compress/src/compress.rs:371-429 | Summed over all blocks the serialization has at most n + n/255 + 2 bytes |
| `Lz4Format.RepeatIsCopy` | lz4-compress/src/decompress.rs:79-97 | Copying an overlapping match byte by byte repeats its pattern |
| `Lz4Format.BlockLayout` | lz4-compress/src/compress.rs:371-429 | The bytes of a block: both lengths in the halves of the token, at most 15 each; the rest of the literal length as 255s and a remainder; the literals; the offset, low byte first; the rest of the match length |
| `Lz4Format.BlockStandsFor` | lz4-compress/src/decompress.rs:79-97 | A block stands for its literals and a match of four bytes and the extra ones, every byte of which is the one an offset before it |
| `Lz4Decoder.Decoder.Duplicate` | lz4-compress/src/decompress.rs:79-97 | The match is copied as the format defines it, overlapping or not |
| `Lz4Decoder.Decoder.ReadInteger` | lz4-compress/src/decompress.rs:113-128 | Reads a length in linear small-integer code, or runs out of input where the reference does |
| `Lz4Decoder.Decoder.ReadLiteralSection` | lz4-compress/src/decompress.rs:148-166 | Appends the literals, or fails where the reference does |
| `Lz4Decoder.Decoder.ReadDuplicateSection` | lz4-compress/src/decompress.rs:178-215 | Appends the match, or fails with the same error as the reference, also for offsets that are zero or out of range |
| `Lz4Decoder.Decompress` | lz4-compress/src/decompress.rs:272-279 | Every byte string decodes to what the reference decoder gives, or fails with its error |
| `Lz4Decoder.RoundTrip` | lz4-compress/src/decompress.rs:260-279 | Compressing and decompressing gives back every byte string |
| `Frames.ReadFile` | common/src/lz4_stream.rs:139-166 | Reading back the frames of a file gives the chunks that were written, in order, exactly if every payload is shorter than 2^32 bytes |
| `Frames.FrameLayout` | common/src/lz4_stream.rs:139-166 | The bytes of a frame: kind 1 or 2, the length in four bytes, low byte first, and the payload |
| `Frames.Lz4Writer.Write` | common/src/lz4_stream.rs:175-200 | All bytes written so far, buffered ones included, grow by exactly the given ones; they stay in the buffer exactly while it is below a chunk; frames are added in the current mode only, compressed ones of at most a chunk; lengths keep fitting their fields exactly as long as no raw slice has 2^32 bytes or more |
| `Frames.Lz4Writer.Flush` | common/src/lz4_stream.rs:202-216 | Everything written is in the file, framed in the current mode, and the buffer is empty; an empty one adds no frame |
| `Frames.Lz4Writer.WriteCompressed` | common/src/lz4_stream.rs:139-157 | The data, cut into chunks and compressed, is appended to what the file unpacks to |
| `Frames.Lz4Writer.WriteUncompressed` | common/src/lz4_stream.rs:159-166 | The data is appended as one raw frame, whose length fits its field exactly below 2^32 bytes |
| `Frames.Lz4Writer.DisableCompression` | common/src/lz4_stream.rs:100-104 | What was written before is flushed in compressed form first |
| `Frames.Lz4Writer.IntoInner` | common/src/lz4_stream.rs:133-136 | The frames stand for exactly the bytes written; they can be read back exactly if all lengths fit, and then the file unpacks to the bytes written |
| `FrameReader.Lz4Reader.Read` | common/src/lz4_stream.rs:69-81 | The bytes given out are the beginning of what the file unpacks to; at the end of the file they are all of it; stopping at a raw chunk, they are all that came before it; an empty answer means an empty chunk |
| `FrameReader.Lz4Reader.FillCache` | common/src/lz4_stream.rs:41-66 | The next compressed chunk is decoded, or reading stops because the file ends, the chunk is raw or it is not valid |
| `ThreadedStream.StepKeepsInv` | cli-core/src/threaded_lz4_stream.rs:39-102 | Every step of the reading or decompressing thread keeps: each chunk read is waiting, was delivered, or does not decode |
| `ThreadedStream.RunDelivers` | cli-core/src/threaded_lz4_stream.rs:39-102 | However the threads interleave, in the end exactly the chunks that decode were delivered |
| `ThreadedStream.Lz4Reader.NextChunk` | cli-core/src/threaded_lz4_stream.rs:114-151 | The next chunk in file order is found among those that arrived early or is waited for; nothing is skipped |
| `ThreadedStream.Lz4Reader.Read` | cli-core/src/threaded_lz4_stream.rs:177-184 | The bytes given out stay a prefix of the chunks in file order; none are left when it returns none |
| `ThreadedStream.Lz4Reader.ReadToEnd` | cli-core/src/threaded_lz4_stream.rs:106-184 | All that is read is the decoded chunks in file order up to the first that does not decode, so everything if all do |
| `ThreadedStream.WriteInOrder` | cli-core/src/threaded_lz4_stream.rs:224-251 | A frame and all queued successors are written in counter order |
| `ThreadedStream.Merge` | cli-core/src/threaded_lz4_stream.rs:224-251 | For every order of arrival the file has the frames in counter order, none lost or repeated, up to the first that never arrived |
| `ThreadedWriter.Lz4Writer.Write` | cli-core/src/threaded_lz4_stream.rs:280-290 | The chunks sent so far, in order, followed by the buffer, are all the bytes written; they grow by exactly the given ones; the buffer is sent, whole and as one chunk, exactly when it reaches the size of one; chunks stay small enough for their length fields exactly if that one is |
| `ThreadedWriter.Lz4Writer.Flush` | cli-core/src/threaded_lz4_stream.rs:297-313 | The whole buffer is sent as one chunk under the next number, unless it is empty |
| `ThreadedWriter.Lz4Writer.Join` | cli-core/src/threaded_lz4_stream.rs:262-278 | After the last flush everything written has been sent |
| `ThreadedWriter.CompressJob` | cli-core/src/threaded_lz4_stream.rs:213-221 | A compressing thread turns a chunk into bytes that decode to it, under the same number, for every dictionary behaviour |
| `ThreadedWriter.WorkKeepsInv` | cli-core/src/threaded_lz4_stream.rs:205-222 | Over every run of any number of compressing threads each chunk sent is waiting, in work or done, in exactly one of the places and once |
| `ThreadedWriter.WorkDelivers` | cli-core/src/threaded_lz4_stream.rs:205-222 | However the threads interleave, when all is done every chunk was handed to the merging thread in compressed form, once |
| `ThreadedWriter.MergeAll` | cli-core/src/threaded_lz4_stream.rs:205-260 | From the threads' results, in any order of arrival, the merging thread makes a file whose frames read back exactly if their lengths fit 32 bits; it then unpacks to everything that was sent; chunks that are small enough before compression always make them fit |
| `ThreadedWriter.ReadThreaded` | cli-core/src/threaded_lz4_stream.rs:39-184 | Through reading and decompressing threads, in any interleaving, a file all of whose chunks decode is read back whole |
| `ThreadedWriter.WriteThenRead` | cli-core/src/threaded_lz4_stream.rs:39-313 | Chunks compressed by some threads, merged into a file, read and decompressed by others, in any interleaving, come out as they went in, as long as the lengths of the frames fit |
| `Replay.SlotsForInv` | cli-core/src/exporter_replay.rs:18-41 | Live pointers have distinct slots, free slots are distinct and unused, and together they are all slots |
| `Replay.SlotCountIsPeak` | cli-core/src/exporter_replay.rs:18-41 | The number of slots is exactly the peak number of simultaneously live allocations |
| `Replay.SameEffectsRead` | cli-core/src/exporter_replay.rs:147-151 | Numbering by a table loses nothing: read through the table, every logged call stack is the recorded backtrace |
| `ReplayExporter.EffectsInOrder` | cli-core/src/exporter_replay.rs:154-195 | Every operation has one effect, in order: entry by entry of the log, the size and the time are those of the operation, the block is the one the allocator gave to the last request for that pointer, and the call stack is the most recent recorded backtrace |
| `ReplayExporter.TraversalRuns` | cli-core/src/exporter_replay.rs:49-77 | Running the moves between two backtraces turns a call stack of the one into the other |
| `ReplayExporter.OperationMatches` | cli-core/src/exporter_replay.rs:79-104 | Running one operation by slot does what the trace does by pointer, on a call stack equal to the most recent backtrace |
| `ReplayExporter.ReplayIsFaithful` | cli-core/src/exporter_replay.rs:106-195 | For every well-formed trace and every numbering of its frames the exported program ends normally with the effects of the trace, for every allocator behaviour |
| `ReplayExporter.NumberFrames` | cli-core/src/exporter_replay.rs:147-151 | Used frames are numbered from zero by decreasing use, each with its own number, by a table that leads back from numbers to frames |
| `ReplayExporter.GenerateTraversal` | cli-core/src/exporter_replay.rs:49-77 | The generated moves are those of the specification: up to the common prefix, then down |
| `ReplayExporter.Exporter.PreprocessAlloc` | cli-core/src/exporter_replay.rs:18-29 | Takes the slot freed last, or a new one if none is free |
| `ReplayExporter.Exporter.PreprocessDealloc` | cli-core/src/exporter_replay.rs:31-35 | Gives the slot back |
| `ReplayExporter.Exporter.PreprocessRealloc` | cli-core/src/exporter_replay.rs:37-41 | Moves the slot to the new pointer |
| `ReplayExporter.Exporter.PreprocessBacktrace` | cli-core/src/exporter_replay.rs:43-47 | Every frame is counted as often as it occurs |
| `ReplayExporter.Exporter.PreprocessAll` | cli-core/src/exporter_replay.rs:107-144 | The first pass records the slot of every operation and counts every frame as often as it occurs in all backtraces |
| `ReplayExporter.Exporter.Process` | cli-core/src/exporter_replay.rs:106-195 | Both passes together produce the specified program and slot count, with a one-to-one numbering of exactly the recorded frames, the more often used ones first |
| `ReplayMachine.Interpreter.Touch` | replay/replay.cpp:125-143 | A heap operation acts on its slot, or aborts where the slot is occupied |
| `ReplayMachine.Interpreter.Run` | replay/replay.cpp:117-153 | The recursive loop, with the host stack as call stack, does what the explicit machine does |
| `ReplayExporter.ExportAndReplay` | replay/replay.cpp:108-177 | Exporting and replaying any well-formed trace never aborts or returns early, uses exactly as many slots as were ever live at once, and does what the trace did: entry by entry, each operation has its size and time from the trace, the block made last for its pointer, and a call stack that, read through the frame table, is the most recent recorded backtrace |
| `Squeeze.SqueezeTrace` | cli-core/src/squeeze.rs:80-445 | With or without a threshold the squeezed trace loads to the same counters per backtrace and the same live blocks, and its backtrace numbers mean what the original ones did. About each block, and for events that carry none, it has exactly the events of the trace, in order, without whole lifetimes that were dropped; these are freed within the threshold, and if times do not go back, all that are freed in less than it are dropped. So every free in it is one of the trace, unchanged, and every free of the trace later than the threshold is in it after its allocation. Without a threshold only allocations never freed are in it |
| `SqueezeLines.LinesKept` | cli-core/src/squeeze.rs:133-414 | Over any event: what was written about a block, followed by what is held back of it, is what the trace said about it up to then, without dropped lifetimes; a block that is not held back was made at least the threshold ago |
| `SqueezeLines.DroppedKept` | cli-core/src/squeeze.rs:341-362 | Over any event: only allocations whose first free comes within the threshold are dropped |
| `SqueezeLines.EarlyKept` | cli-core/src/squeeze.rs:133-365 | Over any event: if times do not go back, every allocation freed in less than the threshold is dropped |
| `SqueezeLines.FreesAreOwn` | cli-core/src/squeeze.rs:324-365 | Every free in the output is an event of the trace, unchanged |
| `SqueezeLines.FreesAreKept` | cli-core/src/squeeze.rs:324-365 | The free of an allocation that is not dropped is in the output, unchanged, after its allocation |
| `SqueezeLines.LateFrees` | cli-core/src/squeeze.rs:324-365 | Every free later than the threshold after its allocation is in the output, after it |
| `SqueezeLines.ReallocsAreOwn` | cli-core/src/squeeze.rs:267-323 | Every reallocation in the output is one of the trace, with its time and, renamed, its backtrace; its old pointer is the one of the trace, or, if it was held back with its allocation, the address where that block was |
| `SqueezeLines.PointersAreOwn` | cli-core/src/squeeze.rs:42-69 | If the trace names blocks where they are, reallocations keep their old pointers |
| `SqueezeLines.KeptInOrder` | cli-core/src/squeeze.rs:133-365 | Events about the same block that are not dropped are in the output in their order |
| `Squeeze.SqueezeMisplaced` | cli-core/src/squeeze.rs:42-69 | A trace that names a block elsewhere: squeezing it writes the address where the block was |
| `Squeeze.NamesMean` | cli-core/src/squeeze.rs:166-211 | Renamed backtrace numbers mean in the output what the original ones mean in the input |
| `Squeeze.Squeezer.Process` | cli-core/src/squeeze.rs:133-414 | One event: what loading the original and the output give stays balanced by what is held back and counted; what is written about each block grows by exactly this event, or it is held back, or its free drops the block; after a flush no allocation that was mature and old enough is held back |
| `Squeeze.Squeezer.Flush` | cli-core/src/squeeze.rs:133-159 | Young and mature tables are swapped, and exactly the mature allocations made before, at least the threshold ago, are written out, oldest first |
| `Squeeze.Partition` | cli-core/src/squeeze.rs:137-145 | Splits a table into the allocations made at least the threshold ago, and before now, and the others |
| `Squeeze.Squeezer.WriteChain` | cli-core/src/squeeze.rs:42-69 | An allocation and its reallocations are written in order, each from where the one before left the block |
| `Squeeze.Squeezer.OnBacktrace` | cli-core/src/squeeze.rs:166-181 | A backtrace already in the output under another number is only renamed; a new one is written |
| `Squeeze.Squeezer.OnPartialBacktrace` | cli-core/src/squeeze.rs:182-211 | A partial backtrace is completed from the last one on its thread and handled like a full one |
| `Squeeze.Squeezer.OnAlloc` | cli-core/src/squeeze.rs:212-266 | The allocation is held back under its renamed backtrace, or dropped if its identifier is still young |
| `Squeeze.Squeezer.OnRealloc` | cli-core/src/squeeze.rs:267-323 | The reallocation joins its allocation if that is held back, and is passed on otherwise |
| `Squeeze.Squeezer.OnFree` | cli-core/src/squeeze.rs:324-365 | A free of a held-back allocation drops it if it lived no longer than the threshold, and otherwise is written after it; any other free is written as it is |
| `Squeeze.Squeezer.Settle` | cli-core/src/squeeze.rs:341-362 | Short-lived allocations become statistics; longer-lived ones are written with their free |
| `Squeeze.Squeezer.CullEvents` | cli-core/src/squeeze.rs:356-361 | Every event of a culled allocation is added to the statistics of its backtrace |
| `Squeeze.Squeezer.OnStatistics` | cli-core/src/squeeze.rs:372-395 | Statistics of an earlier squeeze are added up under the renamed backtrace |
| `Squeeze.Squeezer.Finish` | cli-core/src/squeeze.rs:416-439 | Everything held back is written, then all statistics; nothing remains |
| `SqueezeSpec.ChainFreed` | cli-core/src/squeeze.rs:356-361 | Freeing the last block of a chain makes its counters those of culled allocations |
| `SqueezeSpec.Cull` | cli-core/src/squeeze.rs:341-362 | Culling keeps the original and the output in balance |
| `SqueezeSpec.Extend` | cli-core/src/squeeze.rs:288-322 | Holding a reallocation back keeps the balance |
| `SqueezeSteps.EmitPending` | cli-core/src/squeeze.rs:42-69 | Writing a held-back allocation at any time keeps the balance |
| `SqueezeSteps.DeclareNew` | cli-core/src/squeeze.rs:166-173 | Writing a new backtrace keeps the numbering of backtraces equal on both sides |
| `SqueezeSteps.NothingHeld` | cli-core/src/squeeze.rs:416-439 | With nothing held back the counters and the live blocks are the same |
| `Loader.LoadBalanced` | cli-core/src/loader.rs:345-519 | Every event, duplicate allocations and unknown frees included, keeps: allocated minus freed, in count and size, is what is live at each backtrace |
| `Loader.LoadedBalanced` | cli-core/src/loader.rs:345-519 | The same after any trace |
| `Loader.LeakedNotNegative` | cli-core/src/filter.rs:913-915 | The leaked count computed by subtraction never goes below zero |
| `Loader.Loader.HandleAlloc` | cli-core/src/loader.rs:345-405 | A new allocation under a free key; one whose key is taken is ignored; the map holds exactly the allocations without a deallocation |
| `Loader.Loader.HandleFree` | cli-core/src/loader.rs:407-442 | The allocation under the key ends; an unknown key is ignored; totals stay equal to what is live |
| `Loader.Loader.HandleRealloc` | cli-core/src/loader.rs:444-519 | The old allocation ends and the new one begins, linked both ways; if the new key is taken only the first half happens and the link is broken |
| `Loader.Loader.AddBacktrace` | cli-core/src/loader.rs:657-739 | Backtraces are numbered by their frames, equal ones alike |
| `Loader.Loader.Process` | cli-core/src/loader.rs:810-1237 | One event does to the summary, the table and the index of live entries what the specification says: the table grows by at most one entry and at most one entry ends, with the time, thread and backtrace of the event |
| `Loader.LoadTrace` | cli-core/src/loader.rs:1242-1275 | After any trace the table has one entry for each event that made one, in order, with its time and description; it is dead exactly if a later event ended it, and then has that event's time, thread and backtrace number; links lead to the entries made and ended by the same reallocation; the index holds exactly the live entries; every counter of every backtrace is the sum over its entries and statistics; backtraces are numbered by their frames. reallocation and reallocated_from are mutual inverses exactly if no reallocation took the key of another live allocation |
| `Records.BookKept` | cli-core/src/loader.rs:1131-1161 | Every event keeps: each entry tells, from the events alone, which event made it and which one ended it, and the index has exactly those that none ended |
| `Records.EndsTarget` | cli-core/src/loader.rs:407-519 | An event ends the entry that the index has under the name it ends, which is the latest of that name, and no other |
| `Records.EndedFirst` | cli-core/src/loader.rs:407-442 | The event that ended an entry is the first one after it that names it |
| `Records.CountersKept` | cli-core/src/loader.rs:345-519 | Every event keeps: each counter of each backtrace is the sum over the entries of the table made there, dead ones for frees, with requested and extra size, plus the statistics about it |
| `Loader.TotalsTellEnd` | cli-core/src/loader.rs:407-442 | When an entry ends, the totals stay the sums of requested sizes over all and over dead entries |
| `Backtraces.LoadedNumbered` | cli-core/src/loader.rs:657-793 | After any trace the groups are the frames declared, once each, in order of their first declaration; a raw number stands for the frames it was declared with last; partial backtraces are completed from the last one on their thread |
| `Backtraces.SameMeaning` | cli-core/src/loader.rs:657-739 | Two raw numbers stand for the same group exactly if they were last declared with the same frames |
| `Backtraces.PartialLoadsWhole` | cli-core/src/loader.rs:741-793 | A partial backtrace that takes over the end of the last one on its thread loads like the whole list of addresses |
| `Loader.LandsExample` | cli-core/src/loader.rs:494-499 | There is a trace that can be loaded in which a reallocation of an untracked block lands on another one |
| `Loader.LoadLandingTrace` | cli-core/src/loader.rs:494-499 | Loading it leaves a table whose links are not mutual inverses |
| `Loader.TrackedNeverLands` | cli-core/src/loader.rs:199-205 | For tracked identifiers it cannot happen: the old and the new key coincide |
| `Loader.OnesCount` | cli-core/src/loader.rs:392-394 | The difference of the total counts is the number of live allocations |
| `Chains.AssignChains` | cli-core/src/loader.rs:1242-1275 | On every table the loader can make both walks end; every member of a chain with a proper end gets its first member and position, the chains have the right last member and length, and members of a chain that ends in a broken link get nothing |
| `Chains.ChainOf` | cli-core/src/data.rs:844-855 | Any allocation finds its whole chain, first, last and length, if the chain has a proper end, and is a chain of its own otherwise |
| `Chains.KnownFollows` | cli-core/src/loader.rs:1252-1275 | In a chain with a proper end the first member has position zero, and every other one the first member of the one it was reallocated from and the next position |
| `Chains.ChainSpans` | cli-core/src/loader.rs:1242-1275 | A chain runs from its first member to one that was not reallocated, and is as long as the position of that one says |
| `Chains.InverseCloses` | cli-core/src/loader.rs:1242-1275 | If all links are mutual inverses every chain has a proper end |
| `Chains.NothingBetween` | cli-core/src/loader.rs:1252-1275 | Two members of a chain have no gap between them: the later one leads back no further than the earlier |
| `Loader.LoadAndFinalize` | cli-core/src/loader.rs:1239-1275 | Loading any trace and assigning chains gives the tables just described; all chains have proper ends if no reallocation took the key of another live allocation |
| `MapUsage.UsageHistory` | cli-core/src/loader.rs:1363-1425 | At any time the level of a map is the sum of all its raw changes stamped up to then; no level is below zero exactly if no such sum is; the peak is the highest sum of shared and private, clean and dirty memory |
| `MapUsage.Merge` | cli-core/src/loader.rs:1367-1372 | Moving changes on to the next one at the same time changes no sum |
| `MapUsage.Retain` | cli-core/src/loader.rs:1374-1374 | Dropping changes of nothing leaves strictly increasing times and the same sums |
| `MapUsage.EmitOps` | cli-core/src/timeline.rs:24-33 | Differences of a history are exactly the merged changes it was added up from |
| `Regions.RegionLoader.OnMemoryMap` | cli-core/src/loader.rs:823-875 | A mapping makes a new map that uses its whole size until a region is reported |
| `Regions.RegionLoader.OnAddRegion` | cli-core/src/loader.rs:876-967 | A region is added to its map, or makes one; the first one reported takes back the change that made the map, and counts from then if it is all of the map; the program stops exactly if such a report is stamped before the mapping |
| `Regions.RegionLoader.OnRemoveRegion` | cli-core/src/loader.rs:968-1024 | The latest region with the address and size ends, and what it used is taken off; an unknown one is ignored; the program stops exactly if that region was removed already |
| `Regions.RegionLoader.OnUpdateRegionUsage` | cli-core/src/loader.rs:1025-1074 | The latest region with the address gets a new usage, and its map the difference; an unknown one or one of another size is ignored; the program stops exactly if that region was removed already |
| `Regions.AfterOk` | cli-core/src/loader.rs:823-1074 | Every event keeps, for every map: it has a change, its changes sum in every kind to what its live regions use, and at no point in their list to less than zero |
| `Regions.StopsAtRemoved` | cli-core/src/loader.rs:1013-1062 | Removing a region or updating its usage stops the program exactly if the region found was removed already |
| `Regions.AfterInOrder` | cli-core/src/loader.rs:823-1074 | If events come in order of time so do the changes of every map, also those that count from an earlier time |
| `Regions.SumsAreUse` | cli-core/src/loader.rs:823-1074 | For events in order of time the changes of a map up to any time sum to what was in use by it after the last event up to then |
| `Regions.RunNotNegative` | cli-core/src/loader.rs:1404-1424 | For events in order of time no level of any map is below zero, as the conversions to unsigned numbers need it |
| `Regions.RemovedBeforeAdded` | cli-core/src/loader.rs:1404-1424 | A region removed, by its time stamp, before it was added takes a level below zero |
| `Regions.LoadMaps` | cli-core/src/loader.rs:1361-1425 | Loading the region events and making all histories stops exactly if an event does; for events in order of time every level, at any time, is what was in use by the map after the last event up to then, and none is below zero |
| `RegionUse.MappedUse` | cli-core/src/loader.rs:823-875 | A new map is in use as a whole, as address space |
| `RegionUse.AddedUse` | cli-core/src/loader.rs:876-967 | A new region adds its size to the address space in use by its map; the first one reported replaces the map as a whole; other maps do not change |
| `RegionUse.RemovedUse` | cli-core/src/loader.rs:968-1024 | Removing a region takes away, of every kind, what was last known of it, and nothing of other maps |
| `RegionUse.ReportedUse` | cli-core/src/loader.rs:1025-1074 | A report replaces what was last known of the latest region at its address: of every kind, the level of its map changes by the difference, kilobytes counted as 1024 bytes; other maps do not change |
| `RegionUse.NotFound` | cli-core/src/loader.rs:968-1074 | An event that finds no region changes nothing |
| `OrderedMaps.OrderedMap.Insert` | preload/src/ordered_map.rs:84-134 | The key goes to the back of the order, moved there if it was in the map; the old value is returned |
| `OrderedMaps.OrderedMap.Remove` | preload/src/ordered_map.rs:141-169 | The key leaves the order, the others keep theirs; first, last and links agree |
| `OrderedMaps.OrderedMap.PopFront` | preload/src/ordered_map.rs:79-82 | The oldest key is taken with its value |
| `OrderedMaps.OrderedMap.Get` | preload/src/ordered_map.rs:62-64 | The value of a key in the map |
| `OrderedMaps.OrderedMap.FrontKey` | preload/src/ordered_map.rs:70-72 | The oldest key |
| `OrderedMaps.OrderedMap.BackKey` | preload/src/ordered_map.rs:75-77 | The latest key |
| `OrderedMaps.OrderedMap.Len` | preload/src/ordered_map.rs:58-60 | The size of the table is the length of the order |
| `OrderedMaps.OrderedMap.Set` | preload/src/ordered_map.rs:66-68 | A value is replaced without moving its key |
| `OrderedMaps.MoveIsCutAndSplice` | preload/src/ordered_map.rs:92-110 | The updates for moving a key to the back are those of taking it out and appending it |
| `TrackerSpec.SendOutgoing` | preload/src/channel.rs:102-113 | Sending appends to what is written of the allocation the message is about, and of no other |
| `TrackerSpec.DrainOutgoing` | preload/src/channel.rs:40-42 | Draining the buffers one after the other keeps the order of the messages of each allocation |
| `TrackerSpec.QueuesUsed` | preload/src/channel.rs:102-113 | Only the first and the last queue ever hold messages; which one a message is in depends on the third bit of its thread number |
| `TrackerSpec.FlushSettles` | preload/src/allocation_tracker.rs:124-143 | Flushing leaves an allocation alone or moves it, with its whole history, from the table to the queues |
| `TrackerRuns.StepKeeps` | preload/src/allocation_tracker.rs:68-349 | Every call, thread event, tick, exit and consumer step keeps: a pending allocation has its whole history in its table; of any other all was sent, or nothing and it was freed |
| `TrackerRuns.WrittenInOrder` | preload/src/allocation_tracker.rs:68-349 | Over every run what is written of an allocation is the beginning of its history in order; what is sent is all of it, or nothing while it is pending or culled |
| `TrackerRuns.MergeKeeps` | preload/src/allocation_tracker.rs:78-80 | Moving a dead thread to the global table keeps every pending allocation findable |
| `TrackerTiming.CulledIffShortLived` | preload/src/allocation_tracker.rs:283-349 | Without a pending limit nothing is sent of a freed allocation exactly if it lived less than the threshold, also after its table moved |
| `TrackerTiming.LongLivedNotLost` | preload/src/allocation_tracker.rs:124-349 | Whatever the limit on pending allocations, and also through exit, everything is sent of a freed allocation that lived as long as the threshold |
| `TrackerTiming.NothingPendingAfterExit` | preload/src/allocation_tracker.rs:97-122 | After exit everything was sent of every allocation, except of freed ones that did not live long enough |
| `TrackerFlushing.RunOrderly` | preload/src/allocation_tracker.rs:124-143 | Over every run the table of a live thread is ordered by the times of its allocations and holds no more than the limit, and the global one no more than twice the limit |
| `TrackerFlushing.TickSendsLongLived` | preload/src/allocation_tracker.rs:84-95 | Over every run: right after a tick every pending allocation of a live thread was made less than the threshold before it |
| `TrackerFlushing.TickLeaves` | preload/src/allocation_tracker.rs:84-95 | Over every run, for any table, the global one included: a tick leaves an allocation pending exactly if it or one before it in the table was made less than the threshold before the tick with no more than the limit pending from there on |
| `TrackerFlushing.TickBounds` | preload/src/allocation_tracker.rs:84-95 | Over every run: right after a tick no table holds more than the limit |
| `TrackerFlushing.AlwaysBounded` | preload/src/allocation_tracker.rs:124-143 | Over every run and at any time no live thread has more allocations pending than the limit, and dead ones together no more than twice as many |
| `TrackerFlushing.CallSendsLongLived` | preload/src/allocation_tracker.rs:145-349 | Over every run: right after a call about an allocation of a live thread, every pending allocation of that thread was made less than the threshold before |
| `TrackerFlushing.EndSendsLongLived` | preload/src/allocation_tracker.rs:68-82 | Over every run: right after a thread ends, every pending allocation of it was made less than the threshold before |
| `TrackerFlushing.StaysIff` | preload/src/allocation_tracker.rs:124-143 | Flushing stops exactly at the first allocation with no more than the limit pending from it on and made less than the threshold before |
| `Tracker.AllocationTracker.FlushPending` | preload/src/allocation_tracker.rs:124-143 | Buckets are sent from the front while there are more than the limit or the first lived as long as the threshold; the specification it follows stops exactly where `TrackerFlushing.StaysIff` says |
| `Tracker.AllocationTracker.OnAllocation` | preload/src/allocation_tracker.rs:145-195 | The bucket goes to the back of its thread's table, which is then flushed; when culling is off the event is sent |
| `Tracker.AllocationTracker.OnReallocation` | preload/src/allocation_tracker.rs:197-281 | After a flush the event joins a pending bucket, in the table of the live thread or the global one, or is sent |
| `Tracker.AllocationTracker.OnFree` | preload/src/allocation_tracker.rs:283-349 | After a flush a pending bucket is dropped, or sent before the free if it lived long enough; otherwise the free is sent |
| `Tracker.AllocationTracker.OnThreadCreated` | preload/src/allocation_tracker.rs:61-66 | The thread gets an empty table |
| `Tracker.AllocationTracker.OnThreadDestroyed` | preload/src/allocation_tracker.rs:68-82 | Its table and the global one are flushed and the rest moves over, oldest first |
| `Tracker.AllocationTracker.OnTick` | preload/src/allocation_tracker.rs:84-95 | All tables are flushed, so that what `TrackerFlushing.TickSendsLongLived`, `TrackerFlushing.TickLeaves` and `TrackerFlushing.TickBounds` state holds of the tables |
| `Tracker.AllocationTracker.OnExit` | preload/src/allocation_tracker.rs:97-122 | All buckets are collected and then sent, and culling is off |
| `Tracker.Sender.Send` | preload/src/channel.rs:102-113 | The message is appended to the queue its shard key selects |
| `Tracker.Receiver.Take` | preload/src/channel.rs:59-67 | A queue and its buffer are swapped |
| `Tracker.Receiver.Drain` | preload/src/channel.rs:40-42 | All buffered messages are handled, buffer by buffer |
| `Tracker.EmitAllocationBucket` | preload/src/processing_thread.rs:472-517 | A bucket is written as its allocation and its reallocations, each from where the one before left the block |
| `Tracker.Run` | preload/src/allocation_tracker.rs:68-349 | For every possible run the tracker ends in the specified state, and what the consumer handled of each allocation is the beginning of its history |
| `Timeline.BuildTimeline` | cli-core/src/timeline.rs:150-220 | For changes in any order there is one point per bucket from the first to the last with a change: its time, the sum of the increases and of the decreases counted in it, and as value the highest total reached among them since the last late one, or zero, or the value before if nothing changed; then the final total; a single bucket has a point at zero before it |
| `Timeline.BucketMeans` | cli-core/src/timeline.rs:162-195 | From the first change outside bucket zero on, a change is counted in the latest bucket that it or a change before it is in |
| `Timeline.EarlyBucketMeans` | cli-core/src/timeline.rs:162-195 | Changes before that one are counted with it |
| `Timeline.ZeroBucketMeans` | cli-core/src/timeline.rs:170-171 | If all changes are in bucket zero they are counted there |
| `Timeline.LateMeans` | cli-core/src/timeline.rs:172-190 | A change is late exactly if one before it is in a later bucket |
| `Timeline.TimelineConserves` | cli-core/src/timeline.rs:150-220 | For changes in any order growth minus shrinkage over all points is the final total, and the last point shows it, at least zero |
| `Timeline.TimelineBounded` | cli-core/src/timeline.rs:156-157 | There are at most twice as many points as asked for, plus two |
| `Timeline.TimelineIncreases` | cli-core/src/timeline.rs:196-217 | The times of the points strictly increase exactly if not everything is in bucket zero |
| `Timeline.PeakCovers` | cli-core/src/timeline.rs:162-195 | The value of a bucket is at least every total reached in it, unless a change that belongs to an earlier bucket came after |
| `Timeline.PeakReached` | cli-core/src/timeline.rs:162-195 | The value of a bucket is zero or a total that was reached in it |
| `Timeline.OrderedPeaks` | cli-core/src/timeline.rs:162-195 | For changes in order of time no change is late, so the value of a bucket is at least every total reached in it |
| `Timeline.LateForgets` | cli-core/src/timeline.rs:172-190 | A late change does make a bucket forget a higher total |
| `Datapoints.ExpandDatapoints` | cli-core/src/script.rs:345-383 | On an axis that holds its keys a series is filled in exactly if there is room for it and its keys increase up to the end or up to the last place on the axis; it then becomes the step function of its points as far as they increase; otherwise the program stops, at the length check or at the branch taken for unreachable |
| `Datapoints.TimelineFits` | cli-core/src/script.rs:1053-1081 | A timeline is such a series exactly if not everything is in bucket zero |
| `Datapoints.TimelineExpands` | cli-core/src/script.rs:345-383 | A timeline can be filled in on an axis that holds its times exactly if not everything is in bucket zero |
| `Datapoints.ExpandTimeline` | cli-core/src/script.rs:345-383 | Building a timeline and filling it in on an axis that holds its times gives its step function, or stops the program, exactly if everything is in bucket zero |
| `Datapoints.FirstMomentStops` | cli-core/src/script.rs:354-373 | A single change at time zero makes a timeline that cannot be filled in on its own axis |
| `Datapoints.FinalizeDatapoints` | cli-core/src/script.rs:1028-1052 | On the sorted axis every series is filled in and then stacked on those before it; for series whose keys are on the axis this works exactly if all of them can be filled in |
| `Datapoints.Stack` | cli-core/src/script.rs:1038-1049 | Every value becomes the sum of its own and all earlier nonempty series at its place |
| `Datapoints.StackedFirst` | cli-core/src/script.rs:1038-1049 | The lowest series that is not empty stays where it is |
| `Datapoints.StackedNext` | cli-core/src/script.rs:1038-1049 | Every other stacked series is above the nonempty one before it by its own value, at every place |
| `Filter.CompileBacktraceFilter` | cli-core/src/filter.rs:239-369 | Exactly the backtraces of allowed length that have one frame matching all positive patterns, no frame matching a negative one, and are in the allowed set |
| `Filter.MatchFrames` | cli-core/src/filter.rs:271-358 | Early exits and the caches of earlier answers do not change the answer |
| `CommonFilter.CompiledMeans` | cli-core/src/filter.rs:371-444 | The compiled ranges accept exactly what the criteria mean among allocations from the beginning of the trace on (unless a time is given) that were not freed up to its first moment; for one recorded as freed before it was made, whose lifetime wraps around, it is stated exactly when that makes a difference |
| `CommonFilter.FreedBeforeMade` | cli-core/src/filter.rs:774-786 | An allocation freed a moment before it was made passes for one that lived longer than any other |
| `CommonFilter.CompiledAccepts` | cli-core/src/filter.rs:745-793 | For every allocation of the trace the compiled filter accepts what the criteria mean, with the lifetime taken as a 64-bit difference, among those since the start |
| `CommonFilter.FirstMomentRefused` | cli-core/src/filter.rs:402-402 | Such an allocation is refused even by a filter without criteria |
| `CommonFilter.CombinationMeans` | cli-core/src/filter.rs:1045-1068 | Compiling and, or and not combinations keeps their meaning |
| `CommonFilter.CompiledCombination` | cli-core/src/filter.rs:1045-1068 | Any combination of criteria, compiled, accepts exactly what it means with every basic filter so restricted; for allocations made and freed inside the trace, after its first moment and in that order, it accepts what it means |
| `Tree.Trie.AddAllocation` | cli-core/src/tree.rs:85-136 | Every node's totals count exactly the allocations whose stacks extend its path, and its own numbers those with that stack |
| `Tree.Trie.ChildId` | cli-core/src/tree.rs:80-83 | Finds the child with the key, or there is no node with that path |
| `Tree.TotalsAddUp` | cli-core/src/tree.rs:85-136 | A node's totals are its own numbers plus its children's totals |
| `Tree.CountsAgree` | cli-core/src/tree.rs:85-136 | The root counts every allocation added once, and every node counts itself as often as it lists allocations |
| `Tree.DumpNode` | cli-core/src/exporter_flamegraph_pl.rs:13-57 | The lines below a node are for different stacks that start with its path, one for each at which something was allocated, with the bytes allocated there, and together its total; the shared stack comes back unchanged |
| `Tree.DumpCollation` | cli-core/src/exporter_flamegraph_pl.rs:59-73 | Every stack at which something was allocated has exactly one line, with what was allocated there, also if that is nothing; the sizes sum to the root total, which is everything added |

## Left out

- The hash of the LZ4 encoder's dictionary and the shifting window over four bytes it is computed from: which slot a position is entered into or looked up in are arbitrary functions of the position.
- Restrictions of the LZ4 format on the end of a block: this encoder does not keep them and its decoder does not ask for them.
- Reading of exact lengths, input and output errors of all streams, and what a reader does after an error.
- Machine integer width other than in indices of the linked hash map: counters, sizes and times are unbounded.
- RangeMaps.RangeMap.Insert: asks for fewer than 2^32 generated indices, beyond which they are not distinct.
- Building a range map from a vector and its iterator over values.
- Replaying with a filter that rejects operations, and the byte encoding of replay programs.
- Squeeze.SqueezeTrace: covers tracked allocations only; pointer-keyed ones are written at the end in hash order, which can reorder reused pointers.
- Squeeze.SqueezeTrace: of the statistics only counts and sizes are compared; first and last times and extreme sizes are not modelled.
- Squeezing of markers, wall clock events and other events that carry no allocation: they are passed on and load to nothing.
- Loading of backtraces leaves out address spaces, symbols and frames; taking off the profiler's own frames is an arbitrary fixed function.
- Loading of markers, flags, shared pointers, wall clock shifts, the list of operations and the time of maximal usage per backtrace.
- MapUsage.UsageHistory: asks for a change, which Regions.AfterOk shows every map to have; levels of 2^63 or more are not modelled.
- When a memory map as a whole is gone, the sources of its regions, and shifts of time stamps.
- Events of dying threads, the race around exit and untracked allocations in the tracker; exit is one step. Tables are keyed by the whole identifier, of which the code leaves out the thread where it is fixed.
- TrackerRuns.WrittenInOrder: reallocations and frees name the block where it is, which the code only reports; thread numbers and tracked identifiers are not used twice.
- Waiting and waking in the channel; taking a queue and draining the buffers are separate steps in any order.
- Numbering and deduplication of backtraces by the processing thread.
- Timelines of several components at once: each component behaves like the modelled one.
- CommonFilter.CompiledMeans: asks that nothing is later than the end of the trace, which the loader keeps as the latest of all times.
- Criteria of filters on chains, groups, maps, markers and allocator flags.
- Timestamps and the pointer table of the call trie, and the text of frames in flame graph lines.
- Operation identifiers, binary search by time, the algebra of lists in scripts, and all of networking, the web interface, plotting and option parsing.
