/**
 * Per-connection TCP reassembly: turning a segment's 32-bit sequence number
 * into an absolute stream offset, detecting content that disagrees with what
 * was written before at the same offsets, and committing the new bytes.
 *
 * `Step` is the meaning of one call of the stream's write path as a function
 * on a `State`; class `Stream` is the object the source mutates in place, and
 * its `Write` method is proved to change the fields exactly as `Step` says.
 */
module Reassembly {
  import opened Common
  import opened ByteStore
  import Blocks

  /** A raw sequence number above this is in the top quarter of the 32-bit range (Go: MaxUint32 - MaxUint32/4). */
  const WrapHigh: int := MaxUint32 - MaxUint32 / 4
  /** A raw sequence number below this is in the bottom quarter (Go: MaxUint32/4). */
  const WrapLow: int := MaxUint32 / 4

  /** The connection identifier: addresses, ports and IP protocol; directional. */
  datatype StreamId = StreamId(srcIP: seq<byte>, dstIP: seq<byte>, srcPort: uint16, dstPort: uint16, proto: byte)

  /** The decoded TCP fields the write path looks at. */
  datatype Segment = Segment(seqNum: uint32, syn: bool, payload: seq<byte>)

  /** Bytes previously stored over a window, and the payload that disagreed with them. */
  datatype Diff = Diff(previous: seq<byte>, payload: seq<byte>)

  /** A failed seek: before reading the old bytes, or before writing the new ones. */
  datatype IoError = ReadSeekFailed(at: int) | WriteSeekFailed(at: int)

  /** The fields of a stream that the write path reads and updates. */
  datatype State = State(offset: int, lastSeq: uint32, done: set<int>, store: Store, diffs: seq<Diff>)

  /** The state after one write, and the error it returned, if any. */
  datatype Outcome = Outcome(state: State, err: Option<IoError>)

  /** A fresh stream seeded by the first segment's sequence number. */
  function Init(seqNum: uint32): State
  {
    State(-(seqNum as int), seqNum, {}, map[], [])
  }

  /** The wrap test: the reference sequence number is high and the new one is low. */
  predicate Wraps(lastSeq: uint32, seqNum: uint32)
  {
    lastSeq > WrapHigh && seqNum < WrapLow
  }

  /** The offset after the SYN decrement and the wrap bump of one segment. */
  function Rebase(st: State, seg: Segment): int
  {
    var afterSyn := if seg.syn then st.offset - 1 else st.offset;
    if Wraps(st.lastSeq, seg.seqNum) then afterSyn + MaxUint32 else afterSyn
  }

  /** Absolute offset of the segment's first payload byte. */
  function Start(st: State, seg: Segment): int
  {
    Rebase(st, seg) + seg.seqNum
  }

  /** The diff a non-empty write at `a` records: none unless it overlaps bytes that differ. */
  function Found(st: State, a: int, payload: seq<byte>): seq<Diff>
  {
    var previous := ReadAt(st.store, a, |payload|);
    if Blocks.Overlaps(st.done, a, a + |payload|) && previous != payload
    then [Diff(previous, payload)]
    else []
  }

  /** One call of the write path. */
  function Step(st: State, seg: Segment): Outcome
  {
    var offset := Rebase(st, seg);
    var a := offset + seg.seqNum;
    var b := a + |seg.payload|;
    var rebased := st.(offset := offset);
    if b <= a then Outcome(rebased, None)
    else if a < 0 then
      Outcome(rebased, Some(if Blocks.Overlaps(st.done, a, b) then ReadSeekFailed(a) else WriteSeekFailed(a)))
    else
      Outcome(State(offset, st.lastSeq, Blocks.Add(st.done, a, b), WriteAt(st.store, a, seg.payload),
                    st.diffs + Found(st, a, seg.payload)),
              None)
  }

  /** Segments written in order; the first error aborts the run. */
  function Run(st: State, segs: seq<Segment>): Outcome
    decreases |segs|
  {
    if segs == [] then Outcome(st, None)
    else
      var o := Step(st, segs[0]);
      if o.err.Some? then o else Run(o.state, segs[1..])
  }

  /**
   * The invariant of a stream: the store holds a byte at exactly the offsets
   * recorded as written, and none of them is negative.
   */
  ghost predicate Coherent(st: State)
  {
    st.store.Keys == st.done && forall o :: o in st.store ==> 0 <= o
  }

  /** Every write keeps a coherent stream coherent. */
  lemma StepKeepsCoherent(st: State, seg: Segment)
    requires Coherent(st)
    ensures Coherent(Step(st, seg).state)
  {
    var a := Start(st, seg);
    if |seg.payload| > 0 && a >= 0 {
      WriteAtFacts(st.store, a, seg.payload);
    }
  }

  class Stream {
    const id: StreamId
    var offset: int
    var lastSeq: uint32
    var done: set<int>
    var store: Store
    var diffs: seq<Diff>

    function Snapshot(): State
      reads this
    {
      State(offset, lastSeq, done, store, diffs)
    }

    ghost predicate Valid()
      reads this
    {
      Coherent(Snapshot())
    }

    /** A stream for `id` whose first segment carries sequence number `seq`. */
    constructor (id: StreamId, seqNum: uint32)
      ensures Valid()
      ensures this.id == id && Snapshot() == Init(seqNum)
      ensures offset == -(seqNum as int) && lastSeq == seqNum && done == {} && diffs == []
    {
      this.id := id;
      offset := -(seqNum as int);
      lastSeq := seqNum;
      done := {};
      store := map[];
      diffs := [];
    }

    /** Write one segment: adjust the offset, record a diff on a disagreeing overlap, commit the bytes. */
    method Write(seg: Segment) returns (err: Option<IoError>)
      requires Valid()
      modifies this
      ensures Valid()
      ensures Outcome(Snapshot(), err) == Step(old(Snapshot()), seg)
    {
      ghost var st := Snapshot();
      ghost var o := Step(st, seg);
      if seg.syn {
        offset := offset - 1;
      }
      if lastSeq > WrapHigh && seg.seqNum < WrapLow {
        offset := offset + MaxUint32;
      }
      var a := offset + seg.seqNum;
      var b := a + |seg.payload|;
      assert offset == Rebase(st, seg) && a == Start(st, seg);
      if b > a {
        if Blocks.Overlaps(done, a, b) {
          if a < 0 {
            assert o == Outcome(Snapshot(), Some(ReadSeekFailed(a)));
            StepKeepsCoherent(st, seg);
            return Some(ReadSeekFailed(a));
          }
          var previous := ReadAt(store, a, |seg.payload|);
          if previous != seg.payload {
            diffs := diffs + [Diff(previous, seg.payload)];
          }
        }
        if a < 0 {
          assert o == Outcome(Snapshot(), Some(WriteSeekFailed(a)));
          StepKeepsCoherent(st, seg);
          return Some(WriteSeekFailed(a));
        }
        assert diffs == st.diffs + Found(st, a, seg.payload);
        store := WriteAt(store, a, seg.payload);
        done := Blocks.Add(done, a, b);
        assert o == Outcome(Snapshot(), None);
      } else {
        assert o == Outcome(Snapshot(), None);
      }
      StepKeepsCoherent(st, seg);
      return None;
    }
  }
}
