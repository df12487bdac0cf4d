/**
 * What the write path guarantees, stated on the `Step` and `Run` functions
 * that `Stream.Write` is proved to follow. Two quirks of the code are exposed
 * rather than corrected: the wrap bump adds 2^32 - 1 instead of 2^32, and the
 * reference sequence number for the wrap test is never updated after the
 * stream is created.
 */
module ReassemblyLemmas {
  import opened Common
  import opened ByteStore
  import Blocks
  import opened Reassembly

  // ----- Offset computation -----

  /** The first segment lands at absolute offset 0, or at -1 when it carries SYN. */
  lemma FirstSegmentPlacement(seg: Segment)
    ensures Start(Init(seg.seqNum), seg) == if seg.syn then -1 else 0
  {
  }

  /** A first segment without SYN commits its payload at [0, len) and records no diff. */
  lemma FirstSegmentWritesAtZero(seg: Segment)
    requires !seg.syn
    ensures var o := Step(Init(seg.seqNum), seg);
      && o.err == None
      && o.state.diffs == []
      && o.state.done == Span(0, |seg.payload|)
      && ReadAt(o.state.store, 0, |seg.payload|) == seg.payload
  {
    ReadAfterWrite(map[], 0, seg.payload);
  }

  /** SYN moves the offset down by exactly one, whatever else the segment carries. */
  lemma SynDecrementsByOne(st: State, seg: Segment)
    ensures Rebase(st, seg.(syn := true)) == Rebase(st, seg.(syn := false)) - 1
  {
  }

  /**
   * A SYN at `s0` with no payload, then data at `s0 + 1`: the data is
   * written at [0, len) with no diff.
   */
  lemma SynThenData(s0: uint32, p: seq<byte>)
    requires s0 < MaxUint32
    ensures var o1 := Step(Init(s0), Segment(s0, true, []));
      var data := Segment(s0 + 1, false, p);
      var o2 := Step(o1.state, data);
      && o1.err == None
      && Start(o1.state, data) == 0
      && o2.err == None
      && o2.state.diffs == []
      && o2.state.done == Span(0, |p|)
      && ReadAt(o2.state.store, 0, |p|) == p
  {
    ReadAfterWrite(map[], 0, p);
  }

  /**
   * The bump is one short: a SYN at the very top of the sequence space
   * followed by data at sequence 0 computes offset -1, and the write fails on
   * the negative seek instead of landing at offset 0.
   */
  lemma SynAtTopThenDataFails(p: seq<byte>)
    requires |p| > 0
    ensures var o1 := Step(Init(MaxUint32), Segment(MaxUint32, true, []));
      var data := Segment(0, false, p);
      && Start(o1.state, data) == -1
      && Step(o1.state, data).err == Some(WriteSeekFailed(-1))
  {
  }

  /**
   * A retransmitted SYN is decremented again: SYN at `s0`, the same SYN
   * once more, then data at `s0 + 1` computes offset -1, and the write fails
   * on the negative seek.
   */
  lemma DuplicateSynThenDataFails(s0: uint32, p: seq<byte>)
    requires s0 < MaxUint32 && |p| > 0
    ensures var syn := Segment(s0, true, []);
      var o1 := Step(Init(s0), syn);
      var o2 := Step(o1.state, syn);
      var data := Segment(s0 + 1, false, p);
      && o1.err == None && o2.err == None
      && Start(o2.state, data) == -1
      && Step(o2.state, data).err == Some(WriteSeekFailed(-1))
  {
  }

  /**
   * A retransmission with SYN or inside the wrap test does not land where it
   * landed the first time: the offset it left behind is moved again.
   */
  lemma RetransmissionMoves(st: State, seg: Segment)
    requires seg.syn || Wraps(st.lastSeq, seg.seqNum)
    ensures Start(Step(st, seg).state, seg) != Start(st, seg)
  {
  }

  /** The wrap bump adds exactly 2^32 - 1 whenever the wrap test holds, and nothing otherwise. */
  lemma WrapBump(st: State, seg: Segment)
    ensures Rebase(st, seg) == st.offset - (if seg.syn then 1 else 0) + (if Wraps(st.lastSeq, seg.seqNum) then 0xFFFF_FFFF else 0)
  {
  }

  /**
   * A first segment high in the sequence space, then one after the wrap: the
   * second lands one byte before its true distance (sequence distance
   * s1 + 2^32 - s0).
   */
  lemma WrapLandsOneShort(s0: uint32, s1: uint32, p1: seq<byte>, p2: seq<byte>)
    requires s0 > WrapHigh && s1 < WrapLow
    ensures var o1 := Step(Init(s0), Segment(s0, false, p1));
      Start(o1.state, Segment(s1, false, p2)) == (s1 + 0x1_0000_0000 - s0) - 1
  {
  }

  /** First seq 0xFFFFFFF0, then seq 0x10: the second segment lands at 31, not 32. */
  lemma WrapExample(p1: seq<byte>, p2: seq<byte>)
    ensures var o1 := Step(Init(0xFFFF_FFF0), Segment(0xFFFF_FFF0, false, p1));
      Start(o1.state, Segment(0x10, false, p2)) == 31
  {
    WrapLandsOneShort(0xFFFF_FFF0, 0x10, p1, p2);
  }

  /**
   * A byte stream that continues seamlessly across the wrap is misplaced:
   * the first byte after the wrap overwrites the last byte before it, and a
   * diff is recorded when the two bytes differ.
   */
  lemma WrapContinuationFalseDiff(p1: seq<byte>, p2: seq<byte>)
    requires 0 < |p1| < 0x4000_0000 && p2 != [] && p2[0] != p1[|p1| - 1]
    ensures var s0 := 0x1_0000_0000 - |p1|;
      var o1 := Step(Init(s0), Segment(s0, false, p1));
      var o2 := Step(o1.state, Segment(0, false, p2));
      && Start(o1.state, Segment(0, false, p2)) == |p1| - 1
      && o2.err == None
      && |o2.state.diffs| == 1
      && o2.state.diffs[0].previous[0] == p1[|p1| - 1]
  {
    var s0 := 0x1_0000_0000 - |p1|;
    var o1 := Step(Init(s0), Segment(s0, false, p1));
    WriteAtFacts(map[], 0, p1);
    assert |p1| - 1 in o1.state.done;
    var previous := ReadAt(o1.state.store, |p1| - 1, |p2|);
    assert previous[0] == Get(o1.state.store, |p1| - 1) == p1[|p1| - 1];
    assert previous != p2;
  }

  /** The wrap reference is never updated by a write. */
  lemma {:induction false} LastSeqFrozen(st: State, segs: seq<Segment>)
    ensures Run(st, segs).state.lastSeq == st.lastSeq
    decreases |segs|
  {
    if segs != [] && Step(st, segs[0]).err == None {
      LastSeqFrozen(Step(st, segs[0]).state, segs[1..]);
    }
  }

  /** So for the whole life of a stream the wrap test compares against its first sequence number. */
  lemma WrapTestUsesFirstSeq(s0: uint32, segs: seq<Segment>, seg: Segment)
    ensures Rebase(Run(Init(s0), segs).state, seg)
         == Run(Init(s0), segs).state.offset - (if seg.syn then 1 else 0) + (if Wraps(s0, seg.seqNum) then MaxUint32 else 0)
  {
    LastSeqFrozen(Init(s0), segs);
  }

  /**
   * Because the reference stays high, every later low segment is bumped
   * again: after a first segment at s0 and one low segment at s1, a second
   * low segment at s2 lands 2 * (2^32 - 1) past its raw distance.
   */
  lemma SecondLowSegmentBumpedAgain(s0: uint32, s1: uint32, s2: uint32, p1: seq<byte>, p2: seq<byte>, p3: seq<byte>)
    requires s0 > WrapHigh && s1 < WrapLow && s2 < WrapLow
    ensures var o1 := Step(Init(s0), Segment(s0, false, p1));
      var o2 := Step(o1.state, Segment(s1, false, p2));
      && Start(o1.state, Segment(s1, false, p2)) == s1 + MaxUint32 - s0
      && Start(o2.state, Segment(s2, false, p3)) == s2 + 2 * MaxUint32 - s0
  {
  }

  // ----- The write path -----

  /** An empty payload changes nothing but the offset; the SYN and wrap adjustments persist. */
  lemma EmptyPayloadOnlyRebases(st: State, seg: Segment)
    requires |seg.payload| == 0
    ensures Step(st, seg) == Outcome(st.(offset := Rebase(st, seg)), None)
  {
  }

  /** Every outcome keeps the adjusted offset and the wrap reference. */
  lemma OffsetAlwaysAdjusted(st: State, seg: Segment)
    ensures Step(st, seg).state.offset == Rebase(st, seg)
    ensures Step(st, seg).state.lastSeq == st.lastSeq
  {
  }

  /**
   * A write fails exactly when its window is non-empty and starts below 0;
   * it fails on the first seek when the window overlaps written offsets and
   * on the second otherwise, and it then leaves the written set, the store
   * and the diffs as they were.
   */
  lemma SeekFailsIff(st: State, seg: Segment)
    ensures var o, a := Step(st, seg), Start(st, seg);
      && (o.err.Some? <==> |seg.payload| > 0 && a < 0)
      && (o.err.Some? ==>
            && o.err.value == (if Blocks.Overlaps(st.done, a, a + |seg.payload|) then ReadSeekFailed(a) else WriteSeekFailed(a))
            && o.state.done == st.done && o.state.store == st.store && o.state.diffs == st.diffs)
  {
  }

  /**
   * A diff is recorded exactly when a non-empty window that starts at a
   * non-negative offset overlaps written offsets and the bytes stored there
   * (unwritten ones reading as 0) differ from the payload; it then holds
   * those stored bytes, b - a of them, and the payload.
   */
  lemma DiffRecordedIff(st: State, seg: Segment)
    ensures var o, a, n := Step(st, seg), Start(st, seg), |seg.payload|;
      && (|o.state.diffs| == |st.diffs| + 1 <==>
            n > 0 && a >= 0 && Blocks.Overlaps(st.done, a, a + n) && ReadAt(st.store, a, n) != seg.payload)
      && (|o.state.diffs| == |st.diffs| + 1 ==>
            && o.state.diffs[|st.diffs|] == Diff(ReadAt(st.store, a, n), seg.payload)
            && |o.state.diffs[|st.diffs|].previous| == n)
  {
  }

  /** One write appends at most one diff and never alters earlier ones. */
  lemma DiffsAppendOnly(st: State, seg: Segment)
    ensures var d := Step(st, seg).state.diffs;
      |st.diffs| <= |d| <= |st.diffs| + 1 && d[..|st.diffs|] == st.diffs
  {
  }

  /** Over a whole run, the diffs recorded before are a prefix of the diffs after. */
  lemma {:induction false} RunDiffsAppendOnly(st: State, segs: seq<Segment>)
    ensures var d := Run(st, segs).state.diffs;
      |st.diffs| <= |d| && d[..|st.diffs|] == st.diffs
    decreases |segs|
  {
    if segs != [] {
      var o := Step(st, segs[0]);
      DiffsAppendOnly(st, segs[0]);
      if o.err == None {
        RunDiffsAppendOnly(o.state, segs[1..]);
        assert Run(st, segs) == Run(o.state, segs[1..]);
        var d := Run(o.state, segs[1..]).state.diffs;
        assert d[..|st.diffs|] == d[..|o.state.diffs|][..|st.diffs|];
      }
    }
  }

  /**
   * A successful non-empty write leaves the payload at [a, b) (last writer
   * wins), every other offset as it was, and [a, b) added to the written set.
   */
  lemma CommitOnSuccess(st: State, seg: Segment)
    requires |seg.payload| > 0 && Step(st, seg).err == None
    ensures var o, a, n := Step(st, seg), Start(st, seg), |seg.payload|;
      && a >= 0
      && ReadAt(o.state.store, a, n) == seg.payload
      && (forall x :: x < a || a + n <= x ==> Get(o.state.store, x) == Get(st.store, x))
      && o.state.done == st.done + Span(a, a + n)
  {
    var a := Start(st, seg);
    ReadAfterWrite(st.store, a, seg.payload);
    WriteAtFacts(st.store, a, seg.payload);
  }

  /** Every stream reachable by a run stays coherent. */
  lemma {:induction false} RunKeepsCoherent(st: State, segs: seq<Segment>)
    requires Coherent(st)
    ensures Coherent(Run(st, segs).state)
    decreases |segs|
  {
    if segs != [] {
      StepKeepsCoherent(st, segs[0]);
      if Step(st, segs[0]).err == None {
        RunKeepsCoherent(Step(st, segs[0]).state, segs[1..]);
      }
    }
  }

  // ----- Runs whose windows never overlap -----

  /**
   * Every write of the run that succeeds lands on offsets not written before
   * it; a failed write ends the run and changes nothing that is checked.
   */
  ghost predicate FreshWindows(st: State, segs: seq<Segment>)
    decreases |segs|
  {
    segs != [] && Step(st, segs[0]).err == None ==>
      var a := Start(st, segs[0]);
      && !Blocks.Overlaps(st.done, a, a + |segs[0].payload|)
      && FreshWindows(Step(st, segs[0]).state, segs[1..])
  }

  /** A payload committed at offset `at`. */
  datatype Window = Window(at: int, bytes: seq<byte>)

  /** The non-empty windows a run commits, in order, up to its first failure. */
  ghost function Committed(st: State, segs: seq<Segment>): seq<Window>
    decreases |segs|
  {
    if segs == [] then []
    else
      var o := Step(st, segs[0]);
      if o.err.Some? then []
      else (if |segs[0].payload| > 0 then [Window(Start(st, segs[0]), segs[0].payload)] else [])
           + Committed(o.state, segs[1..])
  }

  /** A run whose windows never overlap earlier ones records no diff. */
  lemma {:induction false} FreshRunNoDiffs(st: State, segs: seq<Segment>)
    requires FreshWindows(st, segs)
    ensures Run(st, segs).state.diffs == st.diffs
    decreases |segs|
  {
    if segs != [] && Step(st, segs[0]).err == None {
      FreshRunNoDiffs(Step(st, segs[0]).state, segs[1..]);
    }
  }

  /** Such a run keeps every offset written before it, with its byte. */
  lemma {:induction false} FreshRunKeepsWritten(st: State, segs: seq<Segment>)
    requires FreshWindows(st, segs)
    ensures st.done <= Run(st, segs).state.done
    ensures forall x :: x in st.done ==> Get(Run(st, segs).state.store, x) == Get(st.store, x)
    decreases |segs|
  {
    if segs != [] {
      var seg := segs[0];
      var a := Start(st, seg);
      if |seg.payload| > 0 && a >= 0 {
        WriteAtFacts(st.store, a, seg.payload);
      }
      if Step(st, seg).err == None {
        FreshRunKeepsWritten(Step(st, seg).state, segs[1..]);
      }
    }
  }

  /** At the end of such a run, every committed window reads back its own payload. */
  lemma {:induction false} FreshRunReadsBack(st: State, segs: seq<Segment>)
    requires FreshWindows(st, segs)
    ensures forall w :: w in Committed(st, segs) ==> ReadAt(Run(st, segs).state.store, w.at, |w.bytes|) == w.bytes
    decreases |segs|
  {
    if segs != [] && Step(st, segs[0]).err == None {
      var seg, o := segs[0], Step(st, segs[0]);
      var a, n := Start(st, seg), |seg.payload|;
      var last := Run(o.state, segs[1..]).state.store;
      assert Run(st, segs) == Run(o.state, segs[1..]);
      FreshRunReadsBack(o.state, segs[1..]);
      if n > 0 {
        CommitOnSuccess(st, seg);
        FreshRunKeepsWritten(o.state, segs[1..]);
        forall i | 0 <= i < n ensures ReadAt(last, a, n)[i] == seg.payload[i] {
          assert a + i in o.state.done by {
            assert Within(a + i, a, a + n);
          }
          assert ReadAt(o.state.store, a, n)[i] == seg.payload[i];
        }
      }
    }
  }

  /**
   * In a coherent stream an overlapping window has a stored byte at or after
   * its start, so the file extends past the seek position and the read of the
   * old bytes does not start at end of file.
   */
  lemma OverlapIsReadable(st: State, a: int, b: int)
    requires Coherent(st) && Blocks.Overlaps(st.done, a, b)
    ensures exists o :: o in st.store && a <= o
  {
  }

  /**
   * Retransmitting a segment without SYN and outside the wrap test, byte for
   * byte, lands on the same window, records no new diff and leaves the
   * written set and the whole store as they were.
   */
  lemma IdenticalRetransmissionNoDiff(st: State, seg: Segment)
    requires !seg.syn && !Wraps(st.lastSeq, seg.seqNum) && Step(st, seg).err == None
    ensures var o1 := Step(st, seg);
      var o2 := Step(o1.state, seg);
      && Start(o1.state, seg) == Start(st, seg)
      && o2.err == None
      && o2.state.diffs == o1.state.diffs
      && o2.state.done == o1.state.done
      && o2.state.store == o1.state.store
      && ReadAt(o2.state.store, Start(st, seg), |seg.payload|) == seg.payload
  {
    var a, n := Start(st, seg), |seg.payload|;
    if n > 0 {
      var o1 := Step(st, seg);
      var s1 := o1.state.store;
      ReadAfterWrite(st.store, a, seg.payload);
      WriteAtFacts(st.store, a, seg.payload);
      WriteAtFacts(s1, a, seg.payload);
      assert a in o1.state.done;
      assert Start(o1.state, seg) == a;
      var s2 := WriteAt(s1, a, seg.payload);
      forall o | o in s2 ensures o in s1 && s2[o] == s1[o] {
        assert Get(s2, o) == Get(s1, o);
      }
      assert s2 == s1;
    }
  }

  /**
   * The same window written twice with different bytes: exactly one diff,
   * holding the first payload and the second, and the second wins in the store.
   */
  lemma ConflictingRetransmission(s0: uint32, p1: seq<byte>, p2: seq<byte>)
    requires |p1| == |p2| > 0 && p1 != p2
    ensures var o1 := Step(Init(s0), Segment(s0, false, p1));
      var o2 := Step(o1.state, Segment(s0, false, p2));
      && o2.err == None
      && o2.state.diffs == [Diff(p1, p2)]
      && ReadAt(o2.state.store, 0, |p2|) == p2
  {
    var o1 := Step(Init(s0), Segment(s0, false, p1));
    ReadAfterWrite(map[], 0, p1);
    ReadAfterWrite(o1.state.store, 0, p2);
    assert 0 in o1.state.done;
  }

  /** "hello" then "howdy" at the same sequence number 2000. */
  lemma HelloHowdy()
    ensures var hello, howdy := [104, 101, 108, 108, 111], [104, 111, 119, 100, 121];
      var o1 := Step(Init(2000), Segment(2000, false, hello));
      var o2 := Step(o1.state, Segment(2000, false, howdy));
      && o2.state.diffs == [Diff(hello, howdy)]
      && ReadAt(o2.state.store, 0, 5) == howdy
  {
    ConflictingRetransmission(2000, [104, 101, 108, 108, 111], [104, 111, 119, 100, 121]);
  }
}
