/**
  The allocator's data on its own: address-ordered lists of blocks, inserting a block with
  coalescing, and the partition of memory into free and live blocks.  Addresses and sizes
  count units of one HEADER.
 */
module Blocks {
  /** The header `base` lies below all memory from sbrk. */
  const BASE: nat := 1

  datatype Block = Block(start: nat, size: nat) {
    function End(): nat { start + size }
    predicate Has(u: nat) { start <= u < End() }
  }

  /** In address order after the empty block of `base`, none empty, and no two adjacent. */
  ghost predicate Sorted(fl: seq<Block>) {
    && |fl| > 0 && fl[0] == Block(BASE, 0)
    && (forall i :: 1 <= i < |fl| ==> fl[i].size > 0)
    && (forall i, j :: 0 <= i < j < |fl| ==> fl[i].End() < fl[j].start)
  }

  /** Unit u lies in one of the blocks. */
  ghost predicate Covered(fl: seq<Block>, u: nat) { exists i :: 0 <= i < |fl| && fl[i].Has(u) }

  // ---------- inserting ----------

  /** Where a block belongs: after the last one that starts below it. */
  predicate Position(fl: seq<Block>, i: nat, b: Block) {
    i < |fl| && fl[i].start < b.start && (i + 1 < |fl| ==> b.start < fl[i + 1].start)
  }

  predicate JoinsNext(fl: seq<Block>, i: nat, b: Block) { i + 1 < |fl| && b.End() == fl[i + 1].start }

  predicate JoinsPrev(fl: seq<Block>, i: nat, b: Block)
    requires i < |fl|
  {
    fl[i].End() == b.start
  }

  /** The block together with a free block right after it. */
  function Upper(fl: seq<Block>, i: nat, b: Block): Block {
    if JoinsNext(fl, i, b) then Block(b.start, b.size + fl[i + 1].size) else b
  }

  function Above(fl: seq<Block>, i: nat, b: Block): seq<Block>
    requires i < |fl|
  {
    if JoinsNext(fl, i, b) then fl[i + 2..] else fl[i + 1..]
  }

  function Insert(fl: seq<Block>, i: nat, b: Block): seq<Block>
    requires i < |fl|
  {
    var c := Upper(fl, i, b);
    if JoinsPrev(fl, i, b) then fl[..i] + [Block(fl[i].start, fl[i].size + c.size)] + Above(fl, i, b)
    else fl[..i + 1] + [c] + Above(fl, i, b)
  }

  ghost predicate Apart(fl: seq<Block>, b: Block) { forall u: nat :: b.Has(u) ==> !Covered(fl, u) }

  /** A block apart from the free ones fits between its neighbours. */
  lemma Fits(fl: seq<Block>, i: nat, b: Block)
    requires Sorted(fl) && b.size > 0 && Apart(fl, b) && Position(fl, i, b)
    ensures fl[i].End() <= b.start && (i + 1 < |fl| ==> b.End() <= fl[i + 1].start)
  {
    assert b.Has(b.start);
    assert fl[i].End() > b.start ==> fl[i].Has(b.start);
    assert fl[i].Has(b.start) ==> Covered(fl, b.start);
    if i + 1 < |fl| {
      var u := fl[i + 1].start;
      assert fl[i + 1].Has(u) && Covered(fl, u);
      assert b.End() > u ==> b.Has(u);
    }
  }

  /** A block between two stretches of a sorted list. */
  lemma Between(fl: seq<Block>, at: nat, c: Block, from: nat)
    requires Sorted(fl) && at <= from <= |fl| && c.size > 0 && 0 < at
    requires fl[at - 1].End() < c.start && (from < |fl| ==> c.End() < fl[from].start)
    ensures Sorted(fl[..at] + [c] + fl[from..])
  {
    var r := fl[..at] + [c] + fl[from..];
    forall i | 0 <= i < |r| ensures r[i] == if i < at then fl[i] else if i == at then c else fl[from + i - at - 1] {}
    forall i | 0 <= i < at ensures fl[i].End() < c.start { assert i < at - 1 ==> fl[i].End() < fl[at - 1].start; }
    forall i | from <= i < |fl| ensures c.End() < fl[i].start { assert from < i ==> fl[from].End() < fl[i].start; }
    forall i, j | 0 <= i < j < |r| ensures r[i].End() < r[j].start {
      if i < at && j > at { assert fl[i].End() < fl[from + j - at - 1].start; }
    }
  }

  lemma InsertSorted(fl: seq<Block>, i: nat, b: Block)
    requires Sorted(fl) && b.size > 0 && Apart(fl, b) && Position(fl, i, b)
    ensures Sorted(Insert(fl, i, b))
  {
    hide Apart; hide Sorted;
    Fits(fl, i, b);
    SortedStep(fl, i);
    var c := Upper(fl, i, b);
    var from := if JoinsNext(fl, i, b) then i + 2 else i + 1;
    UpperFits(fl, i, b, from);
    if JoinsPrev(fl, i, b) {
      InsertJoined(fl, i, b, c, from);
    } else {
      Between(fl, i + 1, c, from);
    }
  }

  lemma UpperFits(fl: seq<Block>, i: nat, b: Block, from: nat)
    requires Sorted(fl) && b.size > 0 && i < |fl| && (i + 1 < |fl| ==> b.End() <= fl[i + 1].start)
    requires from == if JoinsNext(fl, i, b) then i + 2 else i + 1
    ensures var c := Upper(fl, i, b);
            c.start == b.start && c.size > 0 && (from < |fl| ==> c.End() < fl[from].start) && from <= |fl|
            && Above(fl, i, b) == fl[from..]
  {
    hide Sorted;
    SortedStep(fl, i);
  }

  lemma InsertJoined(fl: seq<Block>, i: nat, b: Block, c: Block, from: nat)
    requires Sorted(fl) && Position(fl, i, b) && JoinsPrev(fl, i, b) && c == Upper(fl, i, b)
    requires c.start == b.start && c.size > 0 && i < from <= |fl| && (from < |fl| ==> c.End() < fl[from].start)
    requires Above(fl, i, b) == fl[from..]
    ensures Sorted(Insert(fl, i, b))
  {
    hide Sorted; hide Upper; hide Above;
    SortedStep(fl, i);
    var d := Block(fl[i].start, fl[i].size + c.size);
    Between(fl, i, d, from);
    assert Insert(fl, i, b) == fl[..i] + [d] + fl[from..];
  }

  lemma SortedStep(fl: seq<Block>, i: nat)
    requires Sorted(fl) && i < |fl|
    ensures 0 < i ==> fl[i - 1].End() < fl[i].start
    ensures i + 2 < |fl| ==> fl[i + 1].End() < fl[i + 2].start
    ensures fl[i].start == fl[i].End() <==> i == 0
    ensures fl[0] == Block(BASE, 0)
  {}

  /** Nothing is lost and nothing added. */
  lemma InsertCovers(fl: seq<Block>, i: nat, b: Block)
    requires Sorted(fl) && b.size > 0 && Apart(fl, b) && Position(fl, i, b)
    ensures forall u: nat :: Covered(Insert(fl, i, b), u) <==> Covered(fl, u) || b.Has(u)
  {
    Fits(fl, i, b);
    hide Apart; hide Sorted; hide Position;
    forall u: nat ensures Covered(Insert(fl, i, b), u) <==> Covered(fl, u) || b.Has(u) {
      InsertCovers1(fl, i, b, u);
      InsertCovers2(fl, i, b, u);
    }
  }

  lemma InsertCovers1(fl: seq<Block>, i: nat, b: Block, u: nat)
    requires i < |fl| && fl[i].End() <= b.start && (i + 1 < |fl| ==> b.End() <= fl[i + 1].start)
    ensures Covered(Insert(fl, i, b), u) ==> Covered(fl, u) || b.Has(u)
  {
    var r := Insert(fl, i, b);
    if Covered(r, u) && !b.Has(u) {
      var k :| 0 <= k < |r| && r[k].Has(u);
      var above := Above(fl, i, b);
      var from := |fl| - |above|;
      var at := if JoinsPrev(fl, i, b) then i else i + 1;
      if k < at { assert fl[k].Has(u); }
      else if k == at { assert fl[i].Has(u) || (i + 1 < |fl| && fl[i + 1].Has(u)); }
      else { assert r[k] == above[k - at - 1] == fl[from + k - at - 1]; }
    }
  }

  lemma InsertCovers2(fl: seq<Block>, i: nat, b: Block, u: nat)
    requires i < |fl| && fl[i].End() <= b.start && (i + 1 < |fl| ==> b.End() <= fl[i + 1].start)
    ensures Covered(fl, u) || b.Has(u) ==> Covered(Insert(fl, i, b), u)
  {
    var r := Insert(fl, i, b);
    var at := if JoinsPrev(fl, i, b) then i else i + 1;
    var above := Above(fl, i, b);
    var from := |fl| - |above|;
    if b.Has(u) {
      assert r[at].Has(u);
    } else if Covered(fl, u) {
      var k :| 0 <= k < |fl| && fl[k].Has(u);
      if k < at { assert r[k] == fl[k]; }
      else if k < from { assert r[at].Has(u); }
      else { assert r[at + 1 + k - from] == above[k - from] == fl[k]; }
    }
  }

  // ---------- who owns what ----------

  ghost predicate LiveUnit(live: map<nat, nat>, u: nat) { exists p :: p in live && Block(p, live[p]).Has(u) }

  /** Free and live blocks together are the memory obtained from sbrk, and no unit is in two
      of them. */
  ghost predicate Partition(fl: seq<Block>, live: map<nat, nat>, own: seq<Block>) {
    && (forall u: nat :: Covered(own, u) <==> Covered(fl, u) || LiveUnit(live, u))
    && (forall u: nat :: Covered(fl, u) ==> !LiveUnit(live, u))
    && (forall p, q, u: nat :: p in live && q in live && Block(p, live[p]).Has(u) && Block(q, live[q]).Has(u) ==> p == q)
    && (forall p :: p in live ==> live[p] > 0)
  }

  /** A live block becomes free. */
  lemma PartitionFree(fl: seq<Block>, live: map<nat, nat>, own: seq<Block>, p: nat, i: nat)
    requires Sorted(fl) && Partition(fl, live, own) && p in live && Position(fl, i, Block(p, live[p]))
    ensures Apart(fl, Block(p, live[p]))
    ensures Partition(Insert(fl, i, Block(p, live[p])), live - {p}, own)
  {
    hide Covered; hide Insert; hide Sorted; hide Position;
    var b := Block(p, live[p]);
    var live' := live - {p};
    forall u: nat | b.Has(u) ensures !Covered(fl, u) { assert LiveUnit(live, u); }
    InsertCovers(fl, i, b);
    forall u: nat ensures LiveUnit(live, u) <==> LiveUnit(live', u) || b.Has(u) { LiveWithout(live, p, u); }
    forall u: nat | b.Has(u) ensures !LiveUnit(live', u) {
      forall q | q in live' ensures !Block(q, live'[q]).Has(u) { assert live'[q] == live[q]; }
    }
  }

  lemma LiveWithout(live: map<nat, nat>, p: nat, u: nat)
    requires p in live
    ensures LiveUnit(live, u) <==> LiveUnit(live - {p}, u) || Block(p, live[p]).Has(u)
  {
    var live' := live - {p};
    if LiveUnit(live, u) && !Block(p, live[p]).Has(u) {
      var q :| q in live && Block(q, live[q]).Has(u);
      assert q in live' && live'[q] == live[q];
    }
    if LiveUnit(live', u) {
      var q :| q in live' && Block(q, live'[q]).Has(u);
      assert q in live && live'[q] == live[q];
    }
  }

  lemma LiveWith(live: map<nat, nat>, p: nat, n: nat, u: nat)
    requires p !in live
    ensures LiveUnit(live[p := n], u) <==> LiveUnit(live, u) || Block(p, n).Has(u)
  {
    var live' := live[p := n];
    assert live'[p] == n;
    assert live' - {p} == live;
    LiveWithout(live', p, u);
  }

  /** Part of a free block becomes live: fl' covers what fl does but for b. */
  lemma PartitionTake(fl: seq<Block>, fl': seq<Block>, live: map<nat, nat>, own: seq<Block>, b: Block)
    requires Partition(fl, live, own) && b.size > 0
    requires forall u: nat :: Covered(fl, u) <==> Covered(fl', u) || b.Has(u)
    requires forall u: nat :: b.Has(u) ==> !Covered(fl', u)
    ensures b.start !in live && Partition(fl', live[b.start := b.size], own)
  {
    hide Covered;
    assert b.Has(b.start);
    assert b.start in live ==> Block(b.start, live[b.start]).Has(b.start);
    assert b.start in live ==> LiveUnit(live, b.start);
    var live' := live[b.start := b.size];
    forall u: nat ensures LiveUnit(live', u) <==> LiveUnit(live, u) || b.Has(u) { LiveWith(live, b.start, b.size, u); }
    forall p, u: nat | p in live && Block(p, live[p]).Has(u) ensures !b.Has(u) { assert LiveUnit(live, u); }
  }

  /** More memory from sbrk, as a live block. */
  lemma PartitionMore(fl: seq<Block>, live: map<nat, nat>, own: seq<Block>, b: Block)
    requires Partition(fl, live, own) && b.size > 0 && Apart(own, b)
    ensures b.start !in live && Partition(fl, live[b.start := b.size], own + [b])
  {
    hide Covered;
    assert b.Has(b.start);
    assert b.start in live ==> Block(b.start, live[b.start]).Has(b.start);
    assert b.start in live ==> LiveUnit(live, b.start);
    var live' := live[b.start := b.size];
    forall u: nat ensures LiveUnit(live', u) <==> LiveUnit(live, u) || b.Has(u) { LiveWith(live, b.start, b.size, u); }
    forall u: nat ensures Covered(own + [b], u) <==> Covered(own, u) || b.Has(u) { CoveredMore(own, b, u); }
    forall p, u: nat | p in live && Block(p, live[p]).Has(u) ensures !b.Has(u) { assert LiveUnit(live, u); }
  }

  lemma CoveredMore(own: seq<Block>, b: Block, u: nat)
    ensures Covered(own + [b], u) <==> Covered(own, u) || b.Has(u)
  {
    if Covered(own, u) {
      var i :| 0 <= i < |own| && own[i].Has(u);
      assert (own + [b])[i] == own[i];
    }
    if b.Has(u) { assert (own + [b])[|own|] == b; }
  }

  // ---------- taking ----------

  /** Block k as a whole. */
  function Remove(fl: seq<Block>, k: nat): seq<Block>
    requires k < |fl|
  {
    fl[..k] + fl[k + 1..]
  }

  /** The upper n units of block k. */
  function Shrink(fl: seq<Block>, k: nat, n: nat): seq<Block>
    requires k < |fl| && n <= fl[k].size
  {
    fl[k := Block(fl[k].start, fl[k].size - n)]
  }

  lemma RemoveSorted(fl: seq<Block>, k: nat)
    requires Sorted(fl) && 0 < k < |fl|
    ensures Sorted(Remove(fl, k))
  {}

  lemma ShrinkSorted(fl: seq<Block>, k: nat, n: nat)
    requires Sorted(fl) && 0 < k < |fl| && n < fl[k].size
    ensures Sorted(Shrink(fl, k, n))
  {}

  lemma RemoveCovers(fl: seq<Block>, k: nat, u: nat)
    requires Sorted(fl) && 0 < k < |fl|
    ensures Covered(fl, u) <==> Covered(Remove(fl, k), u) || fl[k].Has(u)
    ensures fl[k].Has(u) ==> !Covered(Remove(fl, k), u)
  {
    var r := Remove(fl, k);
    if Covered(fl, u) {
      var i :| 0 <= i < |fl| && fl[i].Has(u);
      if i < k { assert r[i].Has(u); } else if i > k { assert r[i - 1].Has(u); }
    }
    if Covered(r, u) {
      var i :| 0 <= i < |r| && r[i].Has(u);
      assert fl[if i < k then i else i + 1].Has(u);
    }
  }

  lemma ShrinkCovers(fl: seq<Block>, k: nat, n: nat, u: nat)
    requires Sorted(fl) && 0 < k < |fl| && n < fl[k].size
    ensures var b := Block(fl[k].End() - n, n);
            && (Covered(fl, u) <==> Covered(Shrink(fl, k, n), u) || b.Has(u))
            && (b.Has(u) ==> !Covered(Shrink(fl, k, n), u))
  {
    var r := Shrink(fl, k, n);
    var b := Block(fl[k].End() - n, n);
    if Covered(fl, u) {
      var i :| 0 <= i < |fl| && fl[i].Has(u);
      assert b.Has(u) || r[i].Has(u);
    }
    if Covered(r, u) {
      var i :| 0 <= i < |r| && r[i].Has(u);
      assert fl[i].Has(u);
    }
    if b.Has(u) { assert fl[k].Has(u); }
  }
}
