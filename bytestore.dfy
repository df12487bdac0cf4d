/**
 * The per-stream backing store. The source keeps each stream in a temporary
 * file addressed by absolute offset; here the file is a sparse map from
 * offset to byte, and a position that was never written reads as zero (a hole
 * in the file, or the part of the zero-filled read buffer that a short read
 * leaves untouched).
 */
module ByteStore {
  import opened Common

  type Store = map<int, byte>

  /** The byte a read at offset `o` yields. */
  function Get(s: Store, o: int): byte { if o in s then s[o] else 0 }

  /** Seek to `a`, then read `n` bytes into a zero-filled buffer. */
  function ReadAt(s: Store, a: int, n: nat): (r: seq<byte>)
    ensures |r| == n
  {
    seq<byte>(n, i requires 0 <= i < n => Get(s, a + i))
  }

  /** Seek to `a`, then write `p` byte after byte. */
  function WriteAt(s: Store, a: int, p: seq<byte>): Store
    decreases |p|
  {
    if p == [] then s else WriteAt(s[a := p[0]], a + 1, p[1..])
  }

  /**
   * A write defines the window [a, a + |p|) and puts `p` there (last writer
   * wins); every other offset keeps its byte, written or not.
   */
  lemma {:induction false} WriteAtFacts(s: Store, a: int, p: seq<byte>)
    ensures WriteAt(s, a, p).Keys == s.Keys + Span(a, a + |p|)
    ensures forall o :: a <= o < a + |p| ==> Get(WriteAt(s, a, p), o) == p[o - a]
    ensures forall o :: o < a || a + |p| <= o ==> Get(WriteAt(s, a, p), o) == Get(s, o)
    decreases |p|
  {
    if p != [] {
      WriteAtFacts(s[a := p[0]], a + 1, p[1..]);
    }
  }

  /** Reading back the window just written yields exactly the payload. */
  lemma ReadAfterWrite(s: Store, a: int, p: seq<byte>)
    ensures ReadAt(WriteAt(s, a, p), a, |p|) == p
  {
    var r := ReadAt(WriteAt(s, a, p), a, |p|);
    WriteAtFacts(s, a, p);
    forall i | 0 <= i < |p| ensures r[i] == p[i] {
      assert Get(WriteAt(s, a, p), a + i) == p[a + i - a];
    }
  }
}
