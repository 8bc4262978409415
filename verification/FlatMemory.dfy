/** One flat memory, and what a copy made of consecutive block moves does to it.

    A vector move loads its whole block before it stores it; blocks are moved in ascending order.
    Source and destination may overlap, so a copy of several blocks need not be a memmove. The
    last theorem of this file says exactly when it is one.
 */
module FlatMemory {

  /** m with the cells bs stored at address at. */
  function Overlay<T>(m: seq<T>, at: nat, bs: seq<T>): (r: seq<T>)
    ensures |r| == |m|
  {
    seq(|m|, a requires 0 <= a < |m| => if at <= a < at + |bs| then bs[a - at] else m[a])
  }

  /** The effect of memmove: the n cells that were at src are at dest, the rest is unchanged.
      (Cells outside the memory are never involved where the two ranges lie inside it.) */
  function Moved<T>(m: seq<T>, dest: nat, src: nat, n: nat): (r: seq<T>)
    ensures |r| == |m|
  {
    seq(|m|, a requires 0 <= a < |m| =>
      if dest <= a < dest + n && src + (a - dest) < |m| then m[src + (a - dest)] else m[a])
  }

  /** What memmove means for the two ranges and for everything else. */
  lemma MovedMeaning<T>(m: seq<T>, dest: nat, src: nat, n: nat)
    requires dest + n <= |m| && src + n <= |m|
    ensures Moved(m, dest, src, n)[dest..dest + n] == m[src..src + n]
    ensures Moved(m, dest, src, n)[..dest] == m[..dest]
    ensures Moved(m, dest, src, n)[dest + n..] == m[dest + n..]
    ensures Moved(m, dest, src, n) == Overlay(m, dest, m[src..src + n])
  {
  }

  /** A store is what a later read of its range sees; a read outside it sees the old cells. */
  lemma OverlayRead<T>(m: seq<T>, at: nat, bs: seq<T>, p: nat, n: nat)
    requires at + |bs| <= |m| && p + n <= |m|
    ensures p == at && n == |bs| ==> Overlay(m, at, bs)[p..p + n] == bs
    ensures p + n <= at || at + |bs| <= p ==> Overlay(m, at, bs)[p..p + n] == m[p..p + n]
  {
  }

  /** Two adjacent stores are one store of both. */
  lemma OverlayAdjacent<T>(m: seq<T>, at: nat, bs: seq<T>, cs: seq<T>)
    ensures Overlay(Overlay(m, at, bs), at + |bs|, cs) == Overlay(m, at, bs + cs)
  {
  }

  // ----- copies by blocks -----

  /** The blocks of a copy in the order in which they are moved: where each one starts, counted
      from the start of the copy, and how wide it is. */
  datatype Plan = Nothing | After(before: Plan, start: nat, width: nat)

  /** The blocks are nonempty and, one after the other, make up the first n cells. */
  ghost predicate Tiles(p: Plan, n: nat) {
    match p
    case Nothing => n == 0
    case After(before, start, w) => 0 < w && start + w == n && Tiles(before, start)
  }

  ghost predicate AtMostOneBlock(p: Plan) {
    p.Nothing? || p.before.Nothing?
  }

  /** The effect of moving the blocks of p one after the other. */
  function CopyBlocks<T>(m: seq<T>, dest: nat, src: nat, p: Plan): (r: seq<T>)
    ensures |r| == |m|
  {
    match p
    case Nothing => m
    case After(before, start, w) => Moved(CopyBlocks(m, dest, src, before), dest + start, src + start, w)
  }

  /** p and then, from offset lo on, as many blocks of width w as fit below hi. */
  function Upto(p: Plan, w: nat, lo: nat, hi: nat): Plan
    requires 0 < w
    decreases hi - lo
  {
    if hi < lo + w then p else Upto(After(p, lo, w), w, lo + w, hi)
  }

  /** Where those blocks end. */
  function End(w: nat, lo: nat, hi: nat): nat
    requires 0 < w
    decreases hi - lo
  {
    if hi < lo + w then lo else End(w, lo + w, hi)
  }

  lemma {:induction false} UptoTiles(p: Plan, w: nat, lo: nat, hi: nat)
    requires 0 < w && Tiles(p, lo) && lo <= hi
    ensures lo <= End(w, lo, hi) <= hi < End(w, lo, hi) + w
    ensures Tiles(Upto(p, w, lo, hi), End(w, lo, hi))
    ensures AtMostOneBlock(Upto(p, w, lo, hi))
       <==> (AtMostOneBlock(p) && hi < lo + w) || (p.Nothing? && hi < lo + w + w)
    decreases hi - lo
  {
    if lo + w <= hi {
      UptoTiles(After(p, lo, w), w, lo + w, hi);
    }
  }

  // ----- when a copy by blocks is a memmove -----

  /** Moving upwards in memory is safe unless the destination starts inside the source. */
  predicate ForwardSafe(dest: nat, src: nat, n: nat) {
    dest <= src || src + n <= dest
  }

  lemma {:induction false} ForwardCopyIsMove<T>(m: seq<T>, dest: nat, src: nat, p: Plan, n: nat)
    requires Tiles(p, n) && dest + n <= |m| && src + n <= |m|
    requires ForwardSafe(dest, src, n)
    ensures CopyBlocks(m, dest, src, p) == Moved(m, dest, src, n)
  {
    if p.After? {
      ForwardCopyIsMove(m, dest, src, p.before, p.start);
    }
  }

  function FirstWidth(p: Plan): (w: nat)
    requires p.After?
  {
    if p.before.Nothing? then p.width else FirstWidth(p.before)
  }

  lemma {:induction false} FirstWidthWithin(p: Plan, n: nat)
    requires p.After? && Tiles(p, n)
    ensures 0 < FirstWidth(p) <= n
    ensures AtMostOneBlock(p) || FirstWidth(p) < n
  {
    if p.before.After? {
      FirstWidthWithin(p.before, p.start);
    }
  }

  /** When the destination starts d cells into the source, the first block is read before it is
      overwritten, but every later cell whose source lies in the stored first block is read
      afterwards and so repeats a cell of it. */
  lemma {:induction false} FirstBlockRepeats<T>(m: seq<T>, dest: nat, src: nat, p: Plan, n: nat, j: nat)
    requires p.After? && Tiles(p, n) && dest + n <= |m| && src + n <= |m|
    requires src < dest && j < n
    requires j < FirstWidth(p) || dest - src <= j < dest - src + FirstWidth(p)
    ensures CopyBlocks(m, dest, src, p)[dest + j]
         == if j < FirstWidth(p) then m[src + j] else m[src + j - (dest - src)]
  {
    if p.before.After? {
      FirstWidthWithin(p.before, p.start);
      FirstBlockRepeats(m, dest, src, p.before, p.start, if j < p.start then j else j - (dest - src));
    }
  }

  lemma OverlapSmears<T>(zero: T, one: T, size: nat, dest: nat, src: nat, p: Plan, n: nat) returns (m: seq<T>)
    requires zero != one && Tiles(p, n) && !AtMostOneBlock(p)
    requires dest + n <= size && src + n <= size && !ForwardSafe(dest, src, n)
    ensures |m| == size && CopyBlocks(m, dest, src, p) != Moved(m, dest, src, n)
  {
    FirstWidthWithin(p, n);
    var d, w := dest - src, FirstWidth(p);
    var j := if d <= w then w else d;
    m := seq(size, a => if a == src + j then one else zero);
    FirstBlockRepeats(m, dest, src, p, n, j);
    var smeared, moved := CopyBlocks(m, dest, src, p), Moved(m, dest, src, n);
    assert smeared[dest + j] == m[src + j - d] == zero;
    assert moved[dest + j] == m[src + j] == one;
  }

  /** A copy by blocks is a memmove on every memory exactly if the destination does not start
      inside the source, or one single block carries the whole copy. */
  lemma CopyBlocksIsMoveIff<T(!new)>(zero: T, one: T, size: nat, dest: nat, src: nat, p: Plan, n: nat)
    requires zero != one && Tiles(p, n) && dest + n <= size && src + n <= size
    ensures (forall m: seq<T> | |m| == size :: CopyBlocks(m, dest, src, p) == Moved(m, dest, src, n))
       <==> ForwardSafe(dest, src, n) || AtMostOneBlock(p)
  {
    if ForwardSafe(dest, src, n) {
      forall m: seq<T> | |m| == size
        ensures CopyBlocks(m, dest, src, p) == Moved(m, dest, src, n)
      {
        ForwardCopyIsMove(m, dest, src, p, n);
      }
    } else if !AtMostOneBlock(p) {
      var m := OverlapSmears(zero, one, size, dest, src, p, n);
    }
  }
}
