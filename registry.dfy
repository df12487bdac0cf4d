/**
 * The stream registry of the packet loop: a map from connection identifier to
 * its stream, filled lazily. A stream is created, seeded with the sequence
 * number of the segment that revealed it, only for an identifier not seen
 * before; an existing stream is never replaced; the segment always goes to
 * the stream of its own identifier.
 */
module Sniffer {
  import opened Common
  import opened Reassembly

  /** A decoded TCP packet: its connection identifier and the segment fields. */
  datatype Packet = Packet(id: StreamId, seg: Segment)

  /** The segments of `ps` that belong to `id`, in capture order. */
  ghost function SegmentsFor(ps: seq<Packet>, id: StreamId): seq<Segment>
    decreases |ps|
  {
    if ps == [] then []
    else SegmentsFor(ps[..|ps| - 1], id) + (if ps[|ps| - 1].id == id then [ps[|ps| - 1].seg] else [])
  }

  /** A stream created by its first segment and fed all of its segments. */
  ghost function Replay(segs: seq<Segment>): Outcome
    requires segs != []
  {
    Run(Init(segs[0].seqNum), segs)
  }

  /** Running one more segment after a run that did not fail is one more step. */
  lemma {:induction false} RunSnoc(st: State, segs: seq<Segment>, seg: Segment)
    requires Run(st, segs).err == None
    ensures Run(st, segs + [seg]) == Step(Run(st, segs).state, seg)
    decreases |segs|
  {
    if segs == [] {
      assert [] + [seg] == [seg];
    } else {
      assert (segs + [seg])[0] == segs[0] && (segs + [seg])[1..] == segs[1..] + [seg];
      RunSnoc(Step(st, segs[0]).state, segs[1..], seg);
    }
  }

  /**
   * `snaps` has an entry for `id` exactly when `ps` holds a packet of `id`,
   * and then it is the state of a stream fed that identifier's segments;
   * when the last packet's write failed (`err`), its stream's replay ends in
   * that error.
   */
  ghost predicate TracksAt(ps: seq<Packet>, snaps: map<StreamId, State>, err: Option<IoError>, id: StreamId)
  {
    && (id in snaps <==> SegmentsFor(ps, id) != [])
    && (id in snaps ==>
          Replay(SegmentsFor(ps, id)) == Outcome(snaps[id], if err.Some? && id == ps[|ps| - 1].id then err else None))
  }

  /** `snaps` tracks the capture `ps` for every identifier. */
  ghost predicate Tracks(ps: seq<Packet>, snaps: map<StreamId, State>, err: Option<IoError>)
  {
    && (err.Some? ==> ps != [])
    && forall id :: TracksAt(ps, snaps, err, id)
  }

  /** The replay of `id`'s segments in `ps`, if it has any, does not fail. */
  ghost predicate ReplaySucceeds(ps: seq<Packet>, id: StreamId)
  {
    SegmentsFor(ps, id) != [] ==> Replay(SegmentsFor(ps, id)).err == None
  }

  /** No identifier's replay of `ps` fails. */
  ghost predicate NoFailure(ps: seq<Packet>)
  {
    forall id :: ReplaySucceeds(ps, id)
  }

  /** A registry that tracks `ps` without an error has seen no failed write. */
  lemma TracksNoFailure(ps: seq<Packet>, snaps: map<StreamId, State>)
    requires Tracks(ps, snaps, None)
    ensures NoFailure(ps)
  {
    forall id
      ensures ReplaySucceeds(ps, id)
    {
      assert TracksAt(ps, snaps, None, id);
    }
  }

  /** A packet appended to the capture adds its segment to its own identifier only. */
  lemma SegmentsForSnoc(ps: seq<Packet>, p: Packet, id: StreamId)
    ensures SegmentsFor(ps + [p], id) == SegmentsFor(ps, id) + (if p.id == id then [p.seg] else [])
  {
    var ps' := ps + [p];
    assert ps'[..|ps'| - 1] == ps;
  }

  /** Writing the first segment of a fresh stream is one step. */
  lemma ReplayFirst(seg: Segment)
    ensures Replay([seg]) == Step(Init(seg.seqNum), seg)
  {
    var o := Step(Init(seg.seqNum), seg);
    assert [seg][0] == seg && [seg][1..] == [];
    assert Run(Init(seg.seqNum), [seg]) == if o.err.Some? then o else Run(o.state, []);
  }

  /** The bookkeeping of one identifier after one more packet. */
  lemma TracksStepAt(ps: seq<Packet>, snaps: map<StreamId, State>, p: Packet, id: StreamId)
    requires TracksAt(ps, snaps, None, id)
    ensures var o := Step(if p.id in snaps then snaps[p.id] else Init(p.seg.seqNum), p.seg);
      TracksAt(ps + [p], snaps[p.id := o.state], o.err, id)
  {
    var ps' := ps + [p];
    assert ps'[|ps'| - 1] == p;
    SegmentsForSnoc(ps, p, id);
    if id == p.id {
      var segs := SegmentsFor(ps, id);
      var o := Step(if p.id in snaps then snaps[p.id] else Init(p.seg.seqNum), p.seg);
      if id in snaps {
        assert (segs + [p.seg])[0] == segs[0];
        assert Run(Init(segs[0].seqNum), segs) == Outcome(snaps[id], None);
        RunSnoc(Init(segs[0].seqNum), segs, p.seg);
        assert Replay(segs + [p.seg]) == o;
      } else {
        assert segs + [p.seg] == [p.seg];
        ReplayFirst(p.seg);
        assert Replay([p.seg]) == o;
      }
      assert o == Outcome(o.state, o.err);
    } else {
      assert SegmentsFor(ps + [p], id) == SegmentsFor(ps, id) + [];
      assert SegmentsFor(ps, id) + [] == SegmentsFor(ps, id);
    }
  }

  /** Dispatching one more packet keeps the registry tracking the capture. */
  lemma TracksStep(ps: seq<Packet>, snaps: map<StreamId, State>, p: Packet)
    requires Tracks(ps, snaps, None)
    ensures var o := Step(if p.id in snaps then snaps[p.id] else Init(p.seg.seqNum), p.seg);
      Tracks(ps + [p], snaps[p.id := o.state], o.err)
  {
    var o := Step(if p.id in snaps then snaps[p.id] else Init(p.seg.seqNum), p.seg);
    var ps', snaps' := ps + [p], snaps[p.id := o.state];
    forall id
      ensures TracksAt(ps', snaps', o.err, id)
    {
      TracksStepAt(ps, snaps, p, id);
    }
  }

  class Registry {
    var streams: map<StreamId, Stream>
    /** Every stream the registry has created. */
    ghost var Repr: set<object>

    /**
     * Each stream is valid and filed under its own identifier, so no two
     * identifiers share a stream.
     */
    ghost predicate Valid()
      reads this, streams.Values
    {
      && streams.Values <= Repr
      && forall id :: id in streams ==> streams[id].id == id && streams[id].Valid()
    }

    /** The state of every stream, by identifier. */
    ghost function States(): map<StreamId, State>
      reads this, streams.Values
    {
      map id | id in streams :: streams[id].Snapshot()
    }

    constructor ()
      ensures Valid() && streams == map[] && Repr == {}
    {
      streams := map[];
      Repr := {};
    }

    /** Look up the stream of `id`, creating it when absent, and write the segment to it. */
    method Dispatch(id: StreamId, seg: Segment) returns (err: Option<IoError>)
      requires Valid()
      modifies this, Repr
      ensures Valid() && fresh(Repr - old(Repr))
      ensures id in old(streams) ==> streams == old(streams)
      ensures id !in old(streams) ==> id in streams && streams == old(streams)[id := streams[id]] && fresh(streams[id])
      ensures var o := Step(if id in old(States()) then old(States())[id] else Init(seg.seqNum), seg);
        States() == old(States())[id := o.state] && err == o.err
    {
      ghost var before := States();
      var s: Stream;
      if id in streams {
        s := streams[id];
      } else {
        s := new Stream(id, seg.seqNum);
        streams := streams[id := s];
        Repr := Repr + {s};
      }
      ghost var base := s.Snapshot();
      err := s.Write(seg);
      ghost var after := before[id := s.Snapshot()];
      forall k | k in streams
        ensures k in after && States()[k] == after[k] && streams[k].Valid()
      {
        if k != id {
          assert streams[k] != s;
        }
      }
      assert States().Keys == after.Keys;
    }
  }

  /**
   * One iteration of the packet loop, stated on the capture so far: after
   * dispatching `p`, the registry tracks `seen + [p]`, and no write before
   * this one failed.
   */
  method DispatchPacket(r: Registry, ghost seen: seq<Packet>, p: Packet) returns (err: Option<IoError>)
    requires r.Valid() && Tracks(seen, r.States(), None)
    modifies r, r.Repr
    ensures r.Valid() && fresh(r.Repr - old(r.Repr))
    ensures Tracks(seen + [p], r.States(), err) && NoFailure(seen)
  {
    ghost var snaps := r.States();
    TracksStep(seen, snaps, p);
    TracksNoFailure(seen, snaps);
    err := r.Dispatch(p.id, p.seg);
  }

  /**
   * The packet loop: every decoded packet is dispatched in capture order, and
   * the first failed write ends the run. The registry then tracks the packets
   * consumed: its streams are exactly those of the identifiers seen, each in
   * the state of a stream created by its first segment and fed all of its own
   * segments.
   */
  method ProcessCapture(packets: seq<Packet>) returns (r: Registry, consumed: nat, err: Option<IoError>)
    ensures r.Valid()
    ensures consumed <= |packets| && (err == None ==> consumed == |packets|)
    ensures Tracks(packets[..consumed], r.States(), err)
    ensures err.Some? ==> 0 < consumed && NoFailure(packets[..consumed - 1])
  {
    r := new Registry();
    consumed := 0;
    err := None;
    while consumed < |packets|
      invariant consumed <= |packets|
      invariant fresh(r) && fresh(r.Repr)
      invariant r.Valid()
      invariant err == None && Tracks(packets[..consumed], r.States(), None)
      decreases |packets| - consumed
    {
      var p := packets[consumed];
      assert packets[..consumed + 1] == packets[..consumed] + [p];
      err := DispatchPacket(r, packets[..consumed], p);
      consumed := consumed + 1;
      if err.Some? {
        return;
      }
    }
  }
}
