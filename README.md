# qisniff TCP reassembly, modelled in Dafny

qisniff reads a packet capture and reassembles every TCP connection direction
(a "stream", keyed by source and destination address, ports and IP protocol)
into a temporary file addressed by absolute stream offset. A stream is created
by the first segment seen for its identifier, and that segment's sequence
number seeds the offset. Every segment, the first included, then goes
through the same write path:

- a SYN moves the offset down by one;
- a 32-bit wrap is detected by comparing against the stored reference
  sequence number;
- if the segment's window `[a, b)` overlaps offsets already written, the old
  bytes are read back, and a diff is recorded when they disagree with the new
  payload;
- the payload is then written, and `[a, b)` is added to the set of written
  offsets.

The diffs are the program's output: evidence of conflicting retransmissions,
such as a quantum insert attack.

The model has these parts:

- `Reassembly.Step` is one write of one segment, stated on a value `State`.
- `Reassembly.Stream` is the mutable stream object. Its `Write` method is
  proved to change its fields exactly as `Step` says.
- `Sniffer.Registry` is the lazily filled map from identifier to stream.
  `Sniffer.ProcessCapture` is the packet loop, proved to leave every stream
  in the state of replaying that identifier's own segments, in capture order.
- The temporary file is `ByteStore`, a sparse map from offset to byte. An
  unwritten position reads as 0.
- The written-offset record is `Blocks`: its two operations, stated on a set
  of offsets.
- `Intervals` is a sorted, coalescing list of ranges. It is proved to
  implement those two operations and to be canonical.

The code is followed where it has two quirks, and both are stated as lemmas:

- The wrap bump adds `math.MaxUint32`, which is 2^32 - 1, not 2^32. A segment
  after a wrap therefore lands one byte short.
- The reference sequence number `lastSeq` is set when the stream is created
  and never updated. Every later segment low in the sequence space is bumped
  again.

A write whose non-empty window starts at a negative offset fails on a seek, because
the operating system refuses a negative `lseek`. It fails on the first seek,
before the read, when the window overlaps written offsets. Otherwise it fails
on the second seek, before the write. In both cases it records nothing, but
the SYN and wrap adjustments of the offset have already been kept.

## Model

| member | source | states |
|---|---|---|
| Reassembly.Stream.constructor | qisniff.go:49-60 | a new stream has offset `-seq`, reference sequence number `seq`, nothing written and no diffs, and is coherent |
| Reassembly.Stream.Write | qisniff.go:62-103 | the fields after the call and the returned error are exactly the outcome of `Step` on the fields before it; the stream stays coherent |
| Reassembly.StepKeepsCoherent | qisniff.go:77-98 | after any write, the file holds a byte at exactly the offsets recorded as written, and none of them is negative |
| ReassemblyLemmas.FirstSegmentPlacement | qisniff.go:57-73 | the first segment of a stream starts at offset 0, or at -1 when it carries SYN |
| ReassemblyLemmas.FirstSegmentWritesAtZero | qisniff.go:57-98 | a first segment without SYN succeeds, records no diff, marks `[0, len)` written and can be read back there |
| ReassemblyLemmas.SynDecrementsByOne | qisniff.go:64-66 | SYN lowers the offset by exactly one, whatever else the segment carries |
| ReassemblyLemmas.SynThenData | qisniff.go:57-98 | a bare SYN at `s0`, then data at `s0 + 1`: the data lands at `[0, len)` with no diff |
| ReassemblyLemmas.SynAtTopThenDataFails | qisniff.go:64-92 | a SYN at sequence 2^32 - 1, then data at 0: the data's start offset is -1 and the write fails on the seek |
| ReassemblyLemmas.DuplicateSynThenDataFails | qisniff.go:64-92 | a SYN at `s0` sent twice, then data at `s0 + 1`: the data's start offset is -1 and the write fails on the seek |
| ReassemblyLemmas.WrapBump | qisniff.go:64-70 | the offset moves by -1 for SYN and by 2^32 - 1 exactly when the reference is in the top quarter and the new number is in the bottom quarter |
| ReassemblyLemmas.WrapLandsOneShort | qisniff.go:57-73 | after the wrap, a segment lands one byte before its true distance `s1 + 2^32 - s0` |
| ReassemblyLemmas.WrapExample | qisniff.go:68-73 | first segment at 0xFFFFFFF0, second at 0x10: the second starts at 31 instead of 32 |
| ReassemblyLemmas.WrapContinuationFalseDiff | qisniff.go:68-87 | a byte stream that continues cleanly across the wrap overwrites its own last byte, and records a diff when that byte differs |
| ReassemblyLemmas.LastSeqFrozen | qisniff.go:58-70 | no run of writes changes the reference sequence number |
| ReassemblyLemmas.WrapTestUsesFirstSeq | qisniff.go:58-70 | for a stream's whole life, the wrap test compares against its first sequence number |
| ReassemblyLemmas.SecondLowSegmentBumpedAgain | qisniff.go:68-73 | a second low segment after the wrap is bumped again and lands `2 * (2^32 - 1)` past its raw distance |
| ReassemblyLemmas.EmptyPayloadOnlyRebases | qisniff.go:64-102 | an empty payload changes only the offset and never fails |
| ReassemblyLemmas.OffsetAlwaysAdjusted | qisniff.go:64-92 | every outcome, failures included, keeps the adjusted offset and the reference sequence number |
| ReassemblyLemmas.SeekFailsIff | qisniff.go:75-92 | a write fails exactly when its window is non-empty and starts below 0, on the first seek if it overlaps and on the second otherwise; a failure leaves the written set, the bytes and the diffs unchanged |
| ReassemblyLemmas.DiffRecordedIff | qisniff.go:75-87 | a diff is recorded exactly when the written window overlaps written offsets and the stored bytes differ from the payload; it holds those `b - a` stored bytes and the payload |
| ReassemblyLemmas.DiffsAppendOnly | qisniff.go:85-87 | one write appends at most one diff and never alters earlier ones |
| ReassemblyLemmas.RunDiffsAppendOnly | qisniff.go:85-87 | over any run of writes, the earlier diffs are a prefix of the later ones |
| ReassemblyLemmas.CommitOnSuccess | qisniff.go:90-98 | a successful non-empty write starts at offset 0 or later, leaves the payload at `[a, b)` and every other byte as it was, and adds exactly `[a, b)` to the written set |
| ReassemblyLemmas.RunKeepsCoherent | qisniff.go:62-103 | every state reachable from a coherent one by writes is coherent |
| ReassemblyLemmas.OverlapIsReadable | qisniff.go:77-84 | in a coherent stream, an overlapping window has a stored byte at or after its start, so the read of the old bytes does not start at end of file |
| ReassemblyLemmas.IdenticalRetransmissionNoDiff | qisniff.go:64-98 | a byte-for-byte retransmission of a segment without SYN, outside the wrap test, lands on the same window, records no diff and leaves the written set and the whole store unchanged |
| ReassemblyLemmas.RetransmissionMoves | qisniff.go:64-73 | the same segment sent again with SYN, or while the wrap test holds, starts at a different offset from the first time, because the offset is decremented or bumped again |
| ReassemblyLemmas.FreshRunNoDiffs | qisniff.go:77-87 | a run of writes in which every successful write's window misses the offsets written before it records no diff; a failed write ends the run |
| ReassemblyLemmas.FreshRunKeepsWritten | qisniff.go:90-98 | such a run keeps every offset written before it in the written set, with its byte |
| ReassemblyLemmas.FreshRunReadsBack | qisniff.go:90-98 | at the end of such a run, every window it committed reads back its own payload |
| ReassemblyLemmas.ConflictingRetransmission | qisniff.go:77-98 | the same window written twice with different bytes yields exactly one diff, with the first payload and the second, and the second stays in the file |
| ReassemblyLemmas.HelloHowdy | qisniff.go:77-98 | "hello" and then "howdy" at the same sequence number give the single diff ("hello", "howdy") |
| ByteStore.WriteAtFacts | qisniff.go:90-96 | writing `p` at `a` defines exactly `[a, a + len)` in addition, puts `p` there, and leaves every other offset as it was |
| ByteStore.ReadAfterWrite | qisniff.go:78-96 | reading back the window just written yields exactly the payload |
| Intervals.Overlaps | qisniff.go:77 | the interval-list overlap test agrees with "some offset in `[a, b)` was written" |
| Intervals.Add | qisniff.go:98 | the coalescing insert keeps the list sorted with gaps between ranges, and covers exactly the old offsets plus `[a, b)` |
| Intervals.Canonical | qisniff.go:77-98 | two valid lists covering the same offsets are equal |
| Intervals.AddCommutes | qisniff.go:98 | recording two windows in either order gives the same list |
| Intervals.AddIdempotent | qisniff.go:98 | recording the same window twice is the same as recording it once |
| Intervals.TouchingMergesWithoutOverlap | qisniff.go:77-98 | an adjacent window does not overlap, yet is merged into one range |
| Sniffer.TracksNoFailure | qisniff.go:162-171 | a registry that tracks the packets so far without an error has no identifier whose replay failed |
| Sniffer.TracksStep | qisniff.go:162-171 | dispatching one more packet preserves "each identifier's state is the replay of its own segments", with the error charged to the last packet's stream |
| Sniffer.Registry.constructor | qisniff.go:133 | the registry starts empty |
| Sniffer.Registry.Dispatch | qisniff.go:162-171 | an existing stream is reused and never replaced; an unknown identifier gets a fresh stream seeded by this segment's sequence number; only that identifier's state changes, by one `Step` |
| Sniffer.DispatchPacket | qisniff.go:162-171 | one iteration of the loop: after dispatching one more packet the registry tracks the capture extended by it, with any error charged to that packet's stream, and no earlier write had failed |
| Sniffer.ProcessCapture | qisniff.go:133-172 | the loop consumes every packet unless a write fails; on a failure, no write before the last consumed packet failed, so it stopped at the first failure; it leaves one stream per identifier seen, each in the state of replaying its own segments in capture order |

## Left out

- Capture reading and packet decoding (pcap, gopacket, Ethernet, IPv4, IPv6 and TCP layers) are not modelled. A `Sniffer.Packet` is an already-decoded TCP packet. Non-TCP packets, which the loop skips, and decode errors, which panic, are not represented.
- The command line, `flag.Usage`, `os.Exit` and `panic` are not modelled. A panic on a failed write is modelled as `Sniffer.ProcessCapture` stopping at that packet and returning the error.
- The report loop that prints the diffs, and `streamID.String`, are not modelled, because they only format output.
- The unused `files` global is not modelled.
- `ioutil.TempFile` failure in `newStream` is not modelled, because it depends on the operating system. `Reassembly.Stream.constructor` always succeeds.
- Other I/O errors are not modelled. The only modelled failure is the seek to a negative offset, which `lseek` always refuses. A read or write failure of the file system, such as a full disk, is not modelled. A short read at line 82 cannot start at end of file in a coherent stream (`ReassemblyLemmas.OverlapIsReadable`). A read that ends early leaves the buffer's tail at 0, as `ByteStore.Get` models.
- The `blocks.Blocks` package is not part of this model; only its `Overlaps` and `Add` calls are visible. Their meaning is stated on a set of offsets (module `Blocks`), and module `Intervals` is one implementation proved to meet it.
- A seek or write beyond the file system's largest file size is not modelled, and the map store accepts it. Because the wrap reference never updates, every low segment after a wrap adds about 2^32 to the offset, so a long capture can reach that size.
- The offset is an unbounded integer. The source's `int64` could overflow only after about 2^31 wrap bumps, and that is not modelled.
- A diff in the source keeps the payload slice itself, and the model keeps its value. Any later change to the buffer behind that slice is not modelled.
- Reassembly.Stream.Write: its `Seek`, `Read` and `Write` calls act on the map store, not on a file descriptor. It does not model the file's current position across calls, because every access seeks first.
