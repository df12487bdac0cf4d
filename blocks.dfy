/**
 * The record of which offsets of a stream have already been written.
 *
 * The source keeps it in a `blocks.Blocks` value, whose package is not part of
 * this model; only its two calls are visible: `Overlaps(a, b)` and
 * `Add(a, b)`. Module Blocks gives them their meaning on the set of written
 * offsets; module Intervals is a sorted, coalescing list of half-open ranges
 * proved to implement exactly that meaning.
 */
module Blocks {
  import opened Common

  /** Some offset in [a, b) has already been written. */
  predicate Overlaps(done: set<int>, a: int, b: int)
  {
    exists o :: a <= o < b && o in done
  }

  /** Record [a, b) as written. */
  function Add(done: set<int>, a: int, b: int): set<int>
  {
    done + Span(a, b)
  }
}

module Intervals {
  import opened Common
  import Blocks

  /** The half-open range [lo, hi). */
  datatype Block = Block(lo: int, hi: int)

  /**
   * Every range is non-empty, and the ranges are sorted with a gap between
   * neighbours: touching ranges would have been merged.
   */
  ghost predicate Valid(bs: seq<Block>)
  {
    && (forall i :: 0 <= i < |bs| ==> bs[i].lo < bs[i].hi)
    && (forall i :: 0 < i < |bs| ==> bs[i - 1].hi < bs[i].lo)
  }

  /** The offsets the ranges cover. */
  ghost function Cover(bs: seq<Block>): set<int>
    decreases |bs|
  {
    if bs == [] then {} else Span(bs[0].lo, bs[0].hi) + Cover(bs[1..])
  }

  lemma ValidTail(bs: seq<Block>)
    requires Valid(bs) && bs != []
    ensures Valid(bs[1..])
  {
    forall i | 0 < i < |bs[1..]| ensures bs[1..][i - 1].hi < bs[1..][i].lo {
      assert bs[1..][i - 1] == bs[i] && bs[1..][i] == bs[i + 1];
    }
  }

  /** No covered offset lies below the first range. */
  lemma {:induction false} CoverAbove(bs: seq<Block>)
    requires Valid(bs) && bs != []
    ensures forall o :: o in Cover(bs) ==> bs[0].lo <= o
    decreases |bs|
  {
    if |bs| > 1 {
      ValidTail(bs);
      CoverAbove(bs[1..]);
    }
  }

  /** Everything the later ranges cover lies strictly above the first range. */
  lemma TailAbove(bs: seq<Block>)
    requires Valid(bs) && bs != []
    ensures forall o :: o in Cover(bs[1..]) ==> bs[0].hi < o
  {
    if |bs| > 1 {
      ValidTail(bs);
      CoverAbove(bs[1..]);
    }
  }

  /** The overlap query: one scan that stops at the first range past `b`. */
  function Overlaps(bs: seq<Block>, a: int, b: int): (r: bool)
    requires Valid(bs) && a < b
    ensures r == Blocks.Overlaps(Cover(bs), a, b)
    decreases |bs|
  {
    if bs == [] then false
    else if b <= bs[0].lo then
      CoverAbove(bs);
      false
    else if bs[0].hi <= a then
      ValidTail(bs);
      TailAbove(bs);
      Overlaps(bs[1..], a, b)
    else
      var w := Max(a, bs[0].lo);
      assert a <= w < b && w in Cover(bs);
      true
  }

  /** Putting a range in front of the list: its cover, and when the result stays valid. */
  lemma Cons(x: Block, bs: seq<Block>)
    ensures Cover([x] + bs) == Span(x.lo, x.hi) + Cover(bs)
    ensures Valid(bs) && x.lo < x.hi && (bs != [] ==> x.hi < bs[0].lo) ==> Valid([x] + bs)
  {
    assert ([x] + bs)[1..] == bs;
    if Valid(bs) && x.lo < x.hi && (bs != [] ==> x.hi < bs[0].lo) {
      forall i | 0 < i < |[x] + bs| ensures ([x] + bs)[i - 1].hi < ([x] + bs)[i].lo {
        if i > 1 {
          assert ([x] + bs)[i - 1] == bs[i - 2] && ([x] + bs)[i] == bs[i - 1];
        }
      }
    }
  }

  /** Two ranges that overlap or touch cover the same offsets as their hull. */
  lemma MergeSpans(lo1: int, hi1: int, lo2: int, hi2: int)
    requires lo1 <= hi2 && lo2 <= hi1
    ensures Span(lo1, hi1) + Span(lo2, hi2) == Span(Min(lo1, lo2), Max(hi1, hi2))
  {
  }

  /**
   * The coalescing insert: ranges entirely below or above [a, b) with a gap
   * are kept, every range that overlaps or touches it is merged into it.
   */
  function Add(bs: seq<Block>, a: int, b: int): (r: seq<Block>)
    requires Valid(bs) && a < b
    ensures Valid(r) && Cover(r) == Blocks.Add(Cover(bs), a, b)
    ensures r != [] && r[0].lo == if bs == [] then a else Min(a, bs[0].lo)
    decreases |bs|
  {
    if bs == [] then [Block(a, b)]
    else if b < bs[0].lo then
      Cons(Block(a, b), bs);
      [Block(a, b)] + bs
    else if bs[0].hi < a then
      ValidTail(bs);
      var rest := Add(bs[1..], a, b);
      assert bs[0].hi < rest[0].lo;
      Cons(bs[0], rest);
      [bs[0]] + rest
    else
      ValidTail(bs);
      MergeSpans(bs[0].lo, bs[0].hi, a, b);
      Add(bs[1..], Min(a, bs[0].lo), Max(b, bs[0].hi))
  }

  lemma NonEmptyCover(bs: seq<Block>)
    requires Valid(bs)
    ensures bs != [] ==> bs[0].lo in Cover(bs)
  {
  }

  /** Valid lists with the same cover start with the same range. */
  lemma SameFirst(xs: seq<Block>, ys: seq<Block>)
    requires Valid(xs) && Valid(ys) && xs != [] && ys != [] && Cover(xs) == Cover(ys)
    ensures xs[0] == ys[0]
  {
    var x, y := xs[0], ys[0];
    CoverAbove(xs);
    CoverAbove(ys);
    TailAbove(xs);
    TailAbove(ys);
    assert x.lo in Cover(ys) && y.lo in Cover(xs);
    assert x.hi !in Cover(xs) && y.hi !in Cover(ys);
    assert Within(x.hi, y.lo, y.hi) ==> x.hi in Span(y.lo, y.hi);
    assert Within(y.hi, x.lo, x.hi) ==> y.hi in Span(x.lo, x.hi);
  }

  /** A set of offsets has only one valid representation. */
  lemma {:induction false} Canonical(xs: seq<Block>, ys: seq<Block>)
    requires Valid(xs) && Valid(ys) && Cover(xs) == Cover(ys)
    ensures xs == ys
    decreases |xs|
  {
    NonEmptyCover(xs);
    NonEmptyCover(ys);
    if xs != [] && ys != [] {
      var x, y := xs[0], ys[0];
      SameFirst(xs, ys);
      TailAbove(xs);
      TailAbove(ys);
      assert Cover(xs[1..]) == Cover(xs) - Span(x.lo, x.hi);
      assert Cover(ys[1..]) == Cover(ys) - Span(y.lo, y.hi);
      ValidTail(xs);
      ValidTail(ys);
      Canonical(xs[1..], ys[1..]);
      assert xs == [x] + xs[1..] && ys == [y] + ys[1..];
    }
  }

  /** Inserting two ranges in either order yields the same list. */
  lemma AddCommutes(bs: seq<Block>, a: int, b: int, c: int, d: int)
    requires Valid(bs) && a < b && c < d
    ensures Add(Add(bs, a, b), c, d) == Add(Add(bs, c, d), a, b)
  {
    Canonical(Add(Add(bs, a, b), c, d), Add(Add(bs, c, d), a, b));
  }

  /** Inserting the same range twice changes nothing the second time. */
  lemma AddIdempotent(bs: seq<Block>, a: int, b: int)
    requires Valid(bs) && a < b
    ensures Add(Add(bs, a, b), a, b) == Add(bs, a, b)
  {
    Canonical(Add(Add(bs, a, b), a, b), Add(bs, a, b));
  }

  /** Touching ranges do not overlap, yet an insert merges them into one. */
  lemma TouchingMergesWithoutOverlap(a: int, b: int, c: int)
    requires a < b < c
    ensures !Overlaps([Block(a, b)], b, c)
    ensures Add([Block(a, b)], b, c) == [Block(a, c)]
  {
  }
}
