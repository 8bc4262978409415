/** Lists of writes to a page. If no two of them touch the same byte, each one reads back, all
    other bytes keep their value, and the order does not matter.
 */
module ByteWrites {
  import opened FlatMemory

  datatype Write<T> = Write(offset: nat, bytes: seq<T>) {
    predicate Covers(a: nat) {
      offset <= a < offset + |bytes|
    }
  }

  /** The page after the writes, the first one first. */
  function Apply<T>(page: seq<T>, ws: seq<Write<T>>): (r: seq<T>)
    ensures |r| == |page|
  {
    if ws == [] then page
    else
      var w := ws[|ws| - 1];
      Overlay(Apply(page, ws[..|ws| - 1]), w.offset, w.bytes)
  }

  ghost predicate Disjoint<T>(ws: seq<Write<T>>) {
    forall j, k, a: nat | 0 <= j < k < |ws| :: !(ws[j].Covers(a) && ws[k].Covers(a))
  }

  /** Two writes of the list never disagree about a byte. This depends on the members only. */
  ghost predicate Consistent<T>(ws: seq<Write<T>>) {
    forall v, w, a: nat | v in ws && w in ws && v.Covers(a) && w.Covers(a) ::
      v.bytes[a - v.offset] == w.bytes[a - w.offset]
  }

  lemma DisjointIsConsistent<T>(ws: seq<Write<T>>)
    requires Disjoint(ws)
    ensures Consistent(ws)
  {
  }

  /** Where a write of a consistent list covers an address, its byte is what is read there. */
  lemma {:induction false} CoveredByte<T>(page: seq<T>, ws: seq<Write<T>>, w: Write<T>, a: nat)
    requires Consistent(ws) && w in ws && w.Covers(a) && a < |page|
    ensures Apply(page, ws)[a] == w.bytes[a - w.offset]
  {
    var before, last := ws[..|ws| - 1], ws[|ws| - 1];
    assert last in ws;
    if !last.Covers(a) {
      var k :| 0 <= k < |ws| && ws[k] == w;
      assert before[k] == w;
      assert forall v | v in before :: v in ws;
      CoveredByte(page, before, w, a);
    }
  }

  lemma {:induction false} UncoveredByte<T>(page: seq<T>, ws: seq<Write<T>>, a: nat)
    requires a < |page| && forall w | w in ws :: !w.Covers(a)
    ensures Apply(page, ws)[a] == page[a]
  {
    if ws != [] {
      assert ws[|ws| - 1] in ws;
      assert forall v | v in ws[..|ws| - 1] :: v in ws;
      UncoveredByte(page, ws[..|ws| - 1], a);
    }
  }

  /** Each write of a consistent list reads back what it wrote. */
  lemma ReadsBack<T>(page: seq<T>, ws: seq<Write<T>>, w: Write<T>)
    requires Consistent(ws) && w in ws && w.offset + |w.bytes| <= |page|
    ensures Apply(page, ws)[w.offset..w.offset + |w.bytes|] == w.bytes
  {
    forall i | 0 <= i < |w.bytes|
      ensures Apply(page, ws)[w.offset + i] == w.bytes[i]
    {
      CoveredByte(page, ws, w, w.offset + i);
    }
  }

  lemma ConsistentByMembers<T>(p: seq<Write<T>>, q: seq<Write<T>>)
    requires Consistent(p) && forall w :: w in p <==> w in q
    ensures Consistent(q)
  {
  }

  /** Disjoint writes may be made in any order (and more than once). */
  lemma OrderIrrelevant<T>(page: seq<T>, p: seq<Write<T>>, q: seq<Write<T>>)
    requires Disjoint(p) && forall w :: w in p <==> w in q
    ensures Apply(page, p) == Apply(page, q)
  {
    DisjointIsConsistent(p);
    ConsistentByMembers(p, q);
    forall a: nat | a < |page|
      ensures Apply(page, p)[a] == Apply(page, q)[a]
    {
      if w :| w in p && w.Covers(a) {
        CoveredByte(page, p, w, a);
        CoveredByte(page, q, w, a);
      } else {
        UncoveredByte(page, p, a);
        UncoveredByte(page, q, a);
      }
    }
  }

  // ----- lists in ascending order -----

  ghost predicate Ascending<T>(ws: seq<Write<T>>) {
    forall k | 0 < k < |ws| :: ws[k - 1].offset + |ws[k - 1].bytes| <= ws[k].offset
  }

  lemma {:induction false} AscendingApart<T>(ws: seq<Write<T>>, j: nat, k: nat)
    requires Ascending(ws) && j < k < |ws|
    ensures ws[j].offset + |ws[j].bytes| <= ws[k].offset
  {
    if j + 1 < k {
      AscendingApart(ws, j, k - 1);
    }
  }

  lemma AscendingIsDisjoint<T>(ws: seq<Write<T>>)
    requires Ascending(ws)
    ensures Disjoint(ws)
  {
    forall j, k, a: nat | 0 <= j < k < |ws|
      ensures !(ws[j].Covers(a) && ws[k].Covers(a))
    {
      AscendingApart(ws, j, k);
    }
  }

  lemma AscendingConcat<T>(p: seq<Write<T>>, q: seq<Write<T>>)
    requires Ascending(p) && Ascending(q)
    requires p != [] && q != [] ==> p[|p| - 1].offset + |p[|p| - 1].bytes| <= q[0].offset
    ensures Ascending(p + q)
  {
  }
}
