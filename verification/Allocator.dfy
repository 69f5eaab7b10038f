/**
  malloc, mfree, morecore, sbrk and clearblock.  Memory is two arrays: the words bptr and
  bsize of the header that each unit of four bytes can hold (the data of a live block lies
  in the same words).  Address 0 is the null pointer.
 */
module Allocator {
  import opened Blocks

  const HEADER := 4
  const NALLOC := 128

  /** Units for s bytes and the header. */
  function Nunits(s: nat): nat { 1 + (s + HEADER - 1) / HEADER }

  /** Units that morecore asks for. */
  function Rounded(nu: nat): nat { NALLOC * ((nu + NALLOC - 1) / NALLOC) }

  /** The least number of units that hold a header and s bytes. */
  lemma NunitsLeast(s: nat)
    ensures Nunits(s) > 0 && s <= HEADER * (Nunits(s) - 1) < s + HEADER
  {}

  /** The least multiple of NALLOC from nu on. */
  lemma RoundedLeast(nu: nat)
    ensures Rounded(nu) % NALLOC == 0 && nu <= Rounded(nu) < nu + NALLOC
    ensures forall g: nat :: g % NALLOC == 0 && nu <= g ==> Rounded(nu) <= g
  {
    var q := (nu + NALLOC - 1) / NALLOC;
    forall g: nat | g % NALLOC == 0 && nu <= g ensures Rounded(nu) <= g {
      assert g == NALLOC * (g / NALLOC);
    }
  }

  // ---------- the circular list ----------

  function Next(i: nat, n: nat): nat { if i + 1 < n then i + 1 else 0 }

  /** The header of block i has its size and points to the block after it. */
  ghost predicate LinkedAt(bptr: seq<nat>, bsize: seq<nat>, fl: seq<Block>, i: nat)
    requires i < |fl|
  {
    && fl[i].start < |bptr| && fl[i].start < |bsize|
    && bsize[fl[i].start] == fl[i].size && bptr[fl[i].start] == fl[Next(i, |fl|)].start
  }

  /** The headers form a circle through the blocks of fl in order. */
  ghost predicate Linked(bptr: seq<nat>, bsize: seq<nat>, fl: seq<Block>) {
    forall i :: 0 <= i < |fl| ==> LinkedAt(bptr, bsize, fl, i)
  }

  ghost predicate Starts(fl: seq<Block>, a: nat) { exists k :: 0 <= k < |fl| && fl[k].start == a }

  /** Words outside the list do not matter. */
  lemma LinkedFrame(bptr: seq<nat>, bsize: seq<nat>, fl: seq<Block>, bptr': seq<nat>, bsize': seq<nat>)
    requires Linked(bptr, bsize, fl) && |bptr'| == |bptr| && |bsize'| == |bsize|
    requires forall a :: 0 <= a < |bptr| && a < |bsize| && Starts(fl, a) ==> bptr'[a] == bptr[a] && bsize'[a] == bsize[a]
    ensures Linked(bptr', bsize', fl)
  {
    forall i | 0 <= i < |fl| ensures LinkedAt(bptr', bsize', fl, i) {
      assert LinkedAt(bptr, bsize, fl, i) && Starts(fl, fl[i].start);
    }
  }

  lemma Ascending(fl: seq<Block>)
    requires Sorted(fl)
    ensures forall x, y :: 0 <= x < y < |fl| ==> fl[x].start < fl[y].start
  {}

  /** Block i replaced by d at the same place, the blocks up to `from` left out, and c, if
      any, linked in between. */
  lemma LinkedInsert(bptr: seq<nat>, bsize: seq<nat>, fl: seq<Block>, at: nat, c: Block, from: nat)
    requires Linked(bptr, bsize, fl) && Sorted(fl) && 0 < at <= from <= |fl| && c.start < |bptr| && c.start < |bsize|
    requires fl[at - 1].start < c.start && (from < |fl| ==> c.start < fl[from].start)
    requires bsize[c.start] == c.size && bptr[c.start] == fl[Next(from - 1, |fl|)].start
    ensures Linked(bptr[fl[at - 1].start := c.start], bsize, fl[..at] + [c] + fl[from..])
  {
    Ascending(fl);
    hide Sorted;
    var r := fl[..at] + [c] + fl[from..];
    var q := fl[at - 1].start;
    var bptr' := bptr[q := c.start];
    assert LinkedAt(bptr, bsize, fl, at - 1);
    forall i | 0 <= i < |r| ensures LinkedAt(bptr', bsize, r, i) {
      if i < at - 1 {
        assert LinkedAt(bptr, bsize, fl, i) && r[i] == fl[i] && r[i + 1] == fl[i + 1];
      } else if i == at - 1 {
        assert r[i] == fl[i] && r[i + 1] == c;
      } else if i == at {
        assert r[i] == c && (at + 1 < |r| ==> r[at + 1] == fl[from]);
        assert r[0] == fl[0];
      } else {
        TailLinked(bptr, bsize, fl, at, from, r, at + 1, i);
      }
    }
  }

  /** Blocks from `at` on in r are those of fl from `from` on. */
  lemma TailLinked(bptr: seq<nat>, bsize: seq<nat>, fl: seq<Block>, before: nat, from: nat, r: seq<Block>, at: nat, i: nat)
    requires Linked(bptr, bsize, fl) && 0 < before <= from <= |fl| && 0 < at <= i < |r| && |r| == at + |fl| - from
    requires forall x, y :: 0 <= x < y < |fl| ==> fl[x].start < fl[y].start
    requires r[at..] == fl[from..] && r[0].start == fl[0].start
    ensures LinkedAt(bptr, bsize, r, i) && fl[before - 1].start < r[i].start
  {
    var k := from + i - at;
    assert LinkedAt(bptr, bsize, fl, k);
    assert r[i] == r[at..][i - at] == fl[k];
    if i + 1 < |r| { assert r[i + 1] == r[at..][i + 1 - at] == fl[k + 1]; }
  }

  /** Block i grown to n units over the blocks up to `from`. */
  function Grown(fl: seq<Block>, i: nat, n: nat, from: nat): seq<Block>
    requires i < from <= |fl|
  {
    fl[..i] + [Block(fl[i].start, n)] + fl[from..]
  }

  lemma GrownParts(fl: seq<Block>, i: nat, n: nat, from: nat)
    requires i < from <= |fl|
    ensures var r := Grown(fl, i, n, from);
            && |r| == i + 1 + |fl| - from && r[i] == Block(fl[i].start, n) && r[i + 1..] == fl[from..] && r[0].start == fl[0].start
            && (forall k :: 0 <= k < i ==> r[k] == fl[k]) && (i + 1 < |r| ==> r[i + 1] == fl[from])
  {
    var r := Grown(fl, i, n, from);
    if i + 1 < |r| { assert r[i + 1] == r[i + 1..][0]; }
  }

  lemma LinkedGrow(bptr: seq<nat>, bsize: seq<nat>, fl: seq<Block>, i: nat, n: nat, from: nat)
    requires Linked(bptr, bsize, fl) && Sorted(fl) && i < from <= |fl|
    ensures var q := fl[i].start;
            q < |bptr| && q < |bsize| &&
            Linked(bptr[q := fl[Next(from - 1, |fl|)].start], bsize[q := n], Grown(fl, i, n, from))
  {
    Ascending(fl);
    hide Sorted; hide Grown; hide LinkedAt;
    var q := fl[i].start;
    LinkedBounds(bptr, bsize, fl, i);
    var r := Grown(fl, i, n, from);
    GrownParts(fl, i, n, from);
    var bptr', bsize' := bptr[q := fl[Next(from - 1, |fl|)].start], bsize[q := n];
    forall k | 0 <= k < |r| ensures LinkedAt(bptr', bsize', r, k) {
      GrowAt(bptr, bsize, fl, i, n, from, r, k);
    }
  }

  lemma LinkedBounds(bptr: seq<nat>, bsize: seq<nat>, fl: seq<Block>, i: nat)
    requires Linked(bptr, bsize, fl) && i < |fl|
    ensures fl[i].start < |bptr| && fl[i].start < |bsize|
    ensures bsize[fl[i].start] == fl[i].size && bptr[fl[i].start] == fl[Next(i, |fl|)].start
  {
    assert LinkedAt(bptr, bsize, fl, i);
  }

  lemma GrowAt(bptr: seq<nat>, bsize: seq<nat>, fl: seq<Block>, i: nat, n: nat, from: nat, r: seq<Block>, k: nat)
    requires Linked(bptr, bsize, fl) && i < from <= |fl| && k < |r|
    requires forall x, y :: 0 <= x < y < |fl| ==> fl[x].start < fl[y].start
    requires |r| == i + 1 + |fl| - from && r[i] == Block(fl[i].start, n) && r[i + 1..] == fl[from..] && r[0].start == fl[0].start
    requires (forall k :: 0 <= k < i ==> r[k] == fl[k]) && (i + 1 < |r| ==> r[i + 1] == fl[from])
    requires fl[i].start < |bptr| && fl[i].start < |bsize|
    ensures var q := fl[i].start;
            LinkedAt(bptr[q := fl[Next(from - 1, |fl|)].start], bsize[q := n], r, k)
  {
    if k < i {
      assert LinkedAt(bptr, bsize, fl, k) && r[k + 1].start == fl[k + 1].start;
    } else if k > i {
      TailLinked(bptr, bsize, fl, i + 1, from, r, i + 1, k);
    }
  }

  lemma LinkedRemove(bptr: seq<nat>, bsize: seq<nat>, fl: seq<Block>, k: nat)
    requires Linked(bptr, bsize, fl) && Sorted(fl) && 0 < k < |fl|
    ensures fl[k - 1].start < |bptr| && fl[k].start < |bptr|
    ensures Linked(bptr[fl[k - 1].start := bptr[fl[k].start]], bsize, Remove(fl, k))
  {
    assert LinkedAt(bptr, bsize, fl, k) && LinkedAt(bptr, bsize, fl, k - 1);
    LinkedGrow(bptr, bsize, fl, k - 1, fl[k - 1].size, k + 1);
    assert bsize[fl[k - 1].start := fl[k - 1].size] == bsize;
    assert Grown(fl, k - 1, fl[k - 1].size, k + 1) == Remove(fl, k);
  }

  lemma LinkedShrink(bptr: seq<nat>, bsize: seq<nat>, fl: seq<Block>, k: nat, n: nat)
    requires Linked(bptr, bsize, fl) && Sorted(fl) && 0 < k < |fl| && n < fl[k].size
    ensures fl[k].start < |bsize|
    ensures Linked(bptr, bsize[fl[k].start := fl[k].size - n], Shrink(fl, k, n))
  {
    assert LinkedAt(bptr, bsize, fl, k);
    LinkedGrow(bptr, bsize, fl, k, fl[k].size - n, k + 1);
    assert bptr[fl[k].start := bptr[fl[k].start]] == bptr;
    assert Grown(fl, k, fl[k].size - n, k + 1) == Shrink(fl, k, n);
  }

  // ---------- where mfree stops ----------

  /** The test of mfree's loop: q is the block to insert p after. */
  predicate StopsAt(p: nat, q: nat, next: nat) {
    (p > q && p < next) || (q >= next && (p > q || p < next))
  }

  lemma StopsOnce(fl: seq<Block>, i: nat, b: Block, k: nat)
    requires Sorted(fl) && Position(fl, i, b) && k < |fl|
    ensures StopsAt(b.start, fl[k].start, fl[Next(k, |fl|)].start) <==> k == i
  {
    assert forall x, y :: 0 <= x < y < |fl| ==> fl[x].start < fl[y].start;
  }

  lemma {:induction false} PositionBelow(fl: seq<Block>, b: Block, n: nat) returns (i: nat)
    requires Sorted(fl) && BASE < b.start && 0 < n <= |fl| && !Starts(fl, b.start)
    requires n < |fl| ==> b.start < fl[n].start
    ensures Position(fl, i, b)
  {
    if fl[n - 1].start < b.start {
      i := n - 1;
    } else {
      assert fl[n - 1].start != b.start;
      assert n > 1;
      i := PositionBelow(fl, b, n - 1);
    }
  }

  // ---------- the state between two calls ----------

  /** The headers agree with the free list and the live blocks, which share out the memory
      obtained so far. */
  ghost predicate Consistent(bptr: seq<nat>, bsize: seq<nat>, fl: seq<Block>, live: map<nat, nat>, own: seq<Block>, allocp: nat, heapp: nat) {
    && |bptr| == |bsize| && BASE < heapp <= |bptr|
    && Partition(fl, live, own)
    && (forall p :: p in live ==> p < heapp && bsize[p] == live[p])
    && (forall u: nat :: Covered(own, u) ==> BASE < u < heapp)
    && if allocp == 0 then fl == [] && live == map[] else Sorted(fl) && Linked(bptr, bsize, fl) && Starts(fl, allocp)
  }

  /** The words of live blocks are the same. */
  ghost predicate SameData(live: map<nat, nat>, bptr: seq<nat>, bsize: seq<nat>, bptr': seq<nat>, bsize': seq<nat>) {
    && |bptr'| == |bptr| && |bsize'| == |bsize|
    && forall u: nat :: LiveUnit(live, u) && u < |bptr| && u < |bsize| ==> bptr'[u] == bptr[u] && bsize'[u] == bsize[u]
  }

  /** All words of the units from..to are zero. */
  ghost predicate Zero(bptr: seq<nat>, bsize: seq<nat>, from: nat, to: nat) {
    to <= |bptr| && to <= |bsize| && forall u :: from <= u < to ==> bptr[u] == 0 && bsize[u] == 0
  }

  lemma LiveIs(fl: seq<Block>, live: map<nat, nat>, own: seq<Block>, p: nat)
    requires Partition(fl, live, own) && p in live
    ensures Block(p, live[p]).Has(p) && LiveUnit(live, p) && Covered(own, p) && !Covered(fl, p)
  {
    assert Block(p, live[p]).Has(p);
  }

  /** Where a live block will go in the free list. */
  lemma Place(bptr: seq<nat>, bsize: seq<nat>, fl: seq<Block>, live: map<nat, nat>, own: seq<Block>, allocp: nat, heapp: nat, p: nat) returns (i: nat)
    requires Consistent(bptr, bsize, fl, live, own, allocp, heapp) && p in live
    ensures Position(fl, i, Block(p, live[p])) && Sorted(fl) && BASE < p < heapp && !Starts(fl, p)
  {
    hide Linked; hide Partition;
    LiveIs(fl, live, own, p);
    NotStart(fl, p);
    i := PositionBelow(fl, Block(p, live[p]), |fl|);
  }

  lemma NotStart(fl: seq<Block>, p: nat)
    requires Sorted(fl) && BASE < p && !Covered(fl, p)
    ensures !Starts(fl, p)
  {
    forall k | 0 <= k < |fl| ensures fl[k].start != p {
      assert k > 0 && fl[k].start == p ==> fl[k].Has(p);
    }
  }

  lemma StartsIn(fl: seq<Block>, k: nat)
    requires Sorted(fl) && 0 < k < |fl|
    ensures Covered(fl, fl[k].start)
  {
    assert fl[k].Has(fl[k].start);
  }

  // ---------- mfree on values ----------

  /** The first half of mfree: join with the block above, or point to it. */
  function JoinUp(bptr: seq<nat>, bsize: seq<nat>, p: nat, q: nat): (seq<nat>, seq<nat>)
    requires |bptr| == |bsize| && p < |bptr| && q < |bptr| && bptr[q] < |bptr|
  {
    var next := bptr[q];
    if p + bsize[p] == next then (bptr[p := bptr[next]], bsize[p := bsize[p] + bsize[next]])
    else (bptr[p := next], bsize)
  }

  /** The second half: join with the block below, or be pointed to by it. */
  function JoinDown(bptr: seq<nat>, bsize: seq<nat>, p: nat, q: nat): (seq<nat>, seq<nat>)
    requires |bptr| == |bsize| && p < |bptr| && q < |bptr|
  {
    if q + bsize[q] == p then (bptr[q := bptr[p]], bsize[q := bsize[q] + bsize[p]])
    else (bptr[q := p], bsize)
  }

  function Past(fl: seq<Block>, i: nat, b: Block): nat { if JoinsNext(fl, i, b) then i + 2 else i + 1 }

  lemma JoinUpLinked(bptr: seq<nat>, bsize: seq<nat>, fl: seq<Block>, i: nat, b: Block)
    requires |bptr| == |bsize| && Sorted(fl) && Linked(bptr, bsize, fl) && Position(fl, i, b) && BASE < b.start < |bptr|
    requires bsize[b.start] == b.size && !Starts(fl, b.start)
    ensures fl[i].start < |bptr| && bptr[fl[i].start] < |bptr|
    ensures var (bptr1, bsize1) := JoinUp(bptr, bsize, b.start, fl[i].start);
            && |bptr1| == |bptr| && |bsize1| == |bsize| && Linked(bptr1, bsize1, fl)
            && bsize1[b.start] == Upper(fl, i, b).size && bptr1[b.start] == fl[Next(Past(fl, i, b) - 1, |fl|)].start
  {
    var q := fl[i].start;
    LinkedBounds(bptr, bsize, fl, i);
    LinkedBounds(bptr, bsize, fl, Next(i, |fl|));
    Ascending(fl);
    assert i + 1 == |fl| ==> bptr[q] == BASE;
    hide Sorted; hide Linked;
    var (bptr1, bsize1) := JoinUp(bptr, bsize, b.start, q);
    LinkedFrame(bptr, bsize, fl, bptr1, bsize1);
  }

  lemma JoinDownLinked(bptr: seq<nat>, bsize: seq<nat>, fl: seq<Block>, i: nat, b: Block)
    requires |bptr| == |bsize| && Sorted(fl) && Linked(bptr, bsize, fl) && Position(fl, i, b) && BASE < b.start < |bptr|
    requires Apart(fl, b) && b.size > 0
    requires bsize[b.start] == Upper(fl, i, b).size && bptr[b.start] == fl[Next(Past(fl, i, b) - 1, |fl|)].start
    ensures fl[i].start < |bptr|
    ensures var (bptr2, bsize2) := JoinDown(bptr, bsize, b.start, fl[i].start);
            |bptr2| == |bptr| && |bsize2| == |bsize| && Linked(bptr2, bsize2, Insert(fl, i, b))
  {
    hide Linked; hide Apart;
    Fits(fl, i, b);
    var c, from := Upper(fl, i, b), Past(fl, i, b);
    UpperFits(fl, i, b, from);
    LinkedBounds(bptr, bsize, fl, i);
    hide Sorted;
    if JoinsPrev(fl, i, b) {
      LinkedGrow(bptr, bsize, fl, i, fl[i].size + c.size, from);
      assert Insert(fl, i, b) == Grown(fl, i, fl[i].size + c.size, from);
    } else {
      LinkedInsert(bptr, bsize, fl, i + 1, c, from);
      assert Insert(fl, i, b) == fl[..i + 1] + [c] + fl[from..];
    }
  }

  /** All of mfree after its loop. */
  lemma FreeStep(bptr: seq<nat>, bsize: seq<nat>, fl: seq<Block>, live: map<nat, nat>, own: seq<Block>, allocp: nat, heapp: nat, p: nat, i: nat)
    requires Consistent(bptr, bsize, fl, live, own, allocp, heapp) && p in live && Position(fl, i, Block(p, live[p]))
    ensures fl[i].start < |bptr| && p < |bptr| && bptr[fl[i].start] < |bptr|
    ensures var (bptr1, bsize1) := JoinUp(bptr, bsize, p, fl[i].start);
            var (bptr2, bsize2) := JoinDown(bptr1, bsize1, p, fl[i].start);
            && Consistent(bptr2, bsize2, Insert(fl, i, Block(p, live[p])), live - {p}, own, fl[i].start, heapp)
            && SameData(live - {p}, bptr, bsize, bptr2, bsize2)
  {
    hide Covered; hide Insert; hide Linked; hide Starts; hide JoinUp; hide JoinDown;
    var b := Block(p, live[p]);
    var k := Place(bptr, bsize, fl, live, own, allocp, heapp, p);
    LiveIs(fl, live, own, p);
    PartitionFree(fl, live, own, p, i);
    InsertSorted(fl, i, b);
    JoinUpLinked(bptr, bsize, fl, i, b);
    var (bptr1, bsize1) := JoinUp(bptr, bsize, p, fl[i].start);
    JoinDownLinked(bptr1, bsize1, fl, i, b);
    JoinsTouch(bptr, bsize, p, fl[i].start);
    StartsInserted(fl, i, b);
    QNotLive(fl, live, own, i, heapp);
    hide Partition; hide Sorted;
    FreeData(bptr, bsize, fl, live, own, heapp, p, i);
  }

  lemma StartsInserted(fl: seq<Block>, i: nat, b: Block)
    requires i < |fl|
    ensures Starts(Insert(fl, i, b), fl[i].start)
  {
    assert Insert(fl, i, b)[i].start == fl[i].start;
  }

  /** mfree writes to two headers. */
  lemma JoinsTouch(bptr: seq<nat>, bsize: seq<nat>, p: nat, q: nat)
    requires |bptr| == |bsize| && p < |bptr| && q < |bptr| && bptr[q] < |bptr|
    ensures var (bptr1, bsize1) := JoinUp(bptr, bsize, p, q);
            var (bptr2, bsize2) := JoinDown(bptr1, bsize1, p, q);
            && |bptr2| == |bptr| && |bsize2| == |bsize|
            && forall u :: 0 <= u < |bptr| && u != p && u != q ==> bptr2[u] == bptr[u] && bsize2[u] == bsize[u]
  {}

  /** A block of the free list does not start in a live block. */
  lemma QNotLive(fl: seq<Block>, live: map<nat, nat>, own: seq<Block>, i: nat, heapp: nat)
    requires Sorted(fl) && Partition(fl, live, own) && i < |fl| && forall u: nat :: Covered(own, u) ==> BASE < u < heapp
    ensures !LiveUnit(live, fl[i].start)
  {
    hide Covered; hide LiveUnit;
    if i > 0 { StartsIn(fl, i); }
  }

  lemma FreeData(bptr: seq<nat>, bsize: seq<nat>, fl: seq<Block>, live: map<nat, nat>, own: seq<Block>, heapp: nat, p: nat, i: nat)
    requires |bptr| == |bsize| && p in live && i < |fl| && fl[i].start < |bptr| && p < |bptr| && bptr[fl[i].start] < |bptr|
    requires Partition(fl, live, own) && !LiveUnit(live, fl[i].start)
    requires forall p :: p in live ==> p < heapp && p < |bsize| && bsize[p] == live[p]
    ensures var (bptr1, bsize1) := JoinUp(bptr, bsize, p, fl[i].start);
            var (bptr2, bsize2) := JoinDown(bptr1, bsize1, p, fl[i].start);
            var live' := live - {p};
            && SameData(live', bptr, bsize, bptr2, bsize2)
            && forall r :: r in live' ==> r < heapp && bsize2[r] == live'[r]
  {
    var q := fl[i].start;
    var live' := live - {p};
    LiveIs(fl, live, own, p);
    forall u: nat | LiveUnit(live', u) ensures u != p && u != q {
      LiveWithout(live, p, u);
      var r :| r in live' && Block(r, live'[r]).Has(u);
      assert Block(r, live[r]).Has(u) && r != p;
    }
    JoinsTouch(bptr, bsize, p, q);
    forall r | r in live' ensures r < heapp && r != p && r != q {
      LiveIs(fl, live, own, r);
    }
  }

  // ---------- malloc on values ----------

  ghost predicate HasRoom(fl: seq<Block>, n: nat) { exists i :: 0 <= i < |fl| && fl[i].size >= n }

  /** No block holds a header and s bytes. */
  ghost predicate TooSmall(fl: seq<Block>, s: nat) { forall i :: 0 <= i < |fl| ==> HEADER * fl[i].size < s + HEADER }

  /** A block that takes in another one is at least as large. */
  lemma InsertRoom(fl: seq<Block>, i: nat, b: Block)
    requires i < |fl|
    ensures HasRoom(Insert(fl, i, b), b.size) && Insert(fl, i, b) != []
  {
    var r := Insert(fl, i, b);
    assert r[if JoinsPrev(fl, i, b) then i else i + 1].size >= b.size;
  }

  /** All of block k is taken: its predecessor q points past it. */
  lemma TakeWhole(bptr: seq<nat>, bsize: seq<nat>, fl: seq<Block>, live: map<nat, nat>, own: seq<Block>, allocp: nat, heapp: nat, k: nat)
    requires Consistent(bptr, bsize, fl, live, own, allocp, heapp) && 0 < k < |fl|
    ensures var p, q, n := fl[k].start, fl[k - 1].start, fl[k].size;
            && p < |bptr| && q < |bptr| && p !in live
            && Consistent(bptr[q := bptr[p]], bsize, Remove(fl, k), live[p := n], own, q, heapp)
            && SameData(live, bptr, bsize, bptr[q := bptr[p]], bsize)
  {
    hide Covered; hide Linked; hide Partition; hide LiveUnit;
    var p, q, n := fl[k].start, fl[k - 1].start, fl[k].size;
    LinkedRemove(bptr, bsize, fl, k);
    RemoveSorted(fl, k);
    StartsIn(fl, k);
    OwnFree(fl, live, own, p);
    forall u: nat ensures Covered(fl, u) <==> Covered(Remove(fl, k), u) || fl[k].Has(u) { RemoveCovers(fl, k, u); }
    forall u: nat | fl[k].Has(u) ensures !Covered(Remove(fl, k), u) { RemoveCovers(fl, k, u); }
    PartitionTake(fl, Remove(fl, k), live, own, fl[k]);
    LinkedBounds(bptr, bsize, fl, k);
    assert Remove(fl, k)[k - 1] == fl[k - 1];
    QNotLive(fl, live, own, k - 1, heapp);
  }

  lemma OwnFree(fl: seq<Block>, live: map<nat, nat>, own: seq<Block>, u: nat)
    requires Partition(fl, live, own) && Covered(fl, u)
    ensures Covered(own, u)
  {}

  /** The upper n units of block k are taken. */
  lemma TakeUpper(bptr: seq<nat>, bsize: seq<nat>, fl: seq<Block>, live: map<nat, nat>, own: seq<Block>, allocp: nat, heapp: nat, k: nat, n: nat, q: nat)
    requires Consistent(bptr, bsize, fl, live, own, allocp, heapp) && 0 < k < |fl| && 0 < n < fl[k].size && Starts(fl, q)
    ensures fl[k].start < |bsize|
    ensures var p := fl[k].start;
            var t := p + (fl[k].size - n);
            var bsize' := bsize[p := fl[k].size - n];
            && t < |bsize| && t !in live
            && Consistent(bptr, bsize'[t := n], Shrink(fl, k, n), live[t := n], own, q, heapp)
            && SameData(live, bptr, bsize, bptr, bsize'[t := n])
  {
    hide Covered; hide Linked; hide Partition; hide LiveUnit; hide Shrink; hide Sorted;
    var p := fl[k].start;
    var b := Block(fl[k].End() - n, n);
    var t := b.start;
    var fl' := Shrink(fl, k, n);
    TakeUpperList(bptr, bsize, fl, k, n);
    StartsAbove(fl, q);
    ShrinkStarts(fl, k, n, q);
    StartsIn(fl, k);
    forall u: nat ensures Covered(fl, u) <==> Covered(fl', u) || b.Has(u) { ShrinkCovers(fl, k, n, u); }
    forall u: nat | b.Has(u) ensures !Covered(fl', u) { ShrinkCovers(fl, k, n, u); }
    PartitionTake(fl, fl', live, own, b);
    assert b.Has(t);
    OwnFree(fl, live, own, p);
    OwnFree(fl, live, own, t);
    NotLive(fl, live, own, p);
    NotLive(fl, live, own, t);
  }

  lemma NotLive(fl: seq<Block>, live: map<nat, nat>, own: seq<Block>, u: nat)
    requires Partition(fl, live, own) && Covered(fl, u)
    ensures u !in live && !LiveUnit(live, u)
  {
    assert u in live ==> Block(u, live[u]).Has(u);
  }

  lemma StartsAbove(fl: seq<Block>, q: nat)
    requires Sorted(fl) && Starts(fl, q)
    ensures BASE <= q
  {
    var i :| 0 <= i < |fl| && fl[i].start == q;
    assert i > 0 ==> fl[0].End() < fl[i].start;
  }

  lemma ShrinkStarts(fl: seq<Block>, k: nat, n: nat, q: nat)
    requires k < |fl| && n < fl[k].size && Starts(fl, q)
    ensures Starts(Shrink(fl, k, n), q)
  {
    var i :| 0 <= i < |fl| && fl[i].start == q;
    assert Shrink(fl, k, n)[i].start == q;
  }

  lemma TakeUpperList(bptr: seq<nat>, bsize: seq<nat>, fl: seq<Block>, k: nat, n: nat)
    requires |bptr| == |bsize| && Linked(bptr, bsize, fl) && Sorted(fl) && 0 < k < |fl| && 0 < n < fl[k].size
    ensures var p := fl[k].start;
            var t := p + (fl[k].size - n);
            && Sorted(Shrink(fl, k, n)) && p < |bsize| && bsize[p] == fl[k].size
            && (t < |bsize| ==> Linked(bptr, bsize[p := fl[k].size - n][t := n], Shrink(fl, k, n)))
  {
    ShrinkSorted(fl, k, n);
    LinkedShrink(bptr, bsize, fl, k, n);
    LinkedBounds(bptr, bsize, fl, k);
    hide Linked;
    var t := fl[k].start + (fl[k].size - n);
    if t < |bsize| {
      var fl' := Shrink(fl, k, n);
      forall j | 0 <= j < |fl'| ensures fl'[j].start != t {
        assert j > k ==> fl[k].End() < fl[j].start;
        assert j < k ==> fl[j].start < fl[k].start;
      }
      var bsize' := bsize[fl[k].start := fl[k].size - n];
      LinkedFrame(bptr, bsize', fl', bptr, bsize'[t := n]);
    }
  }

  /** New memory above everything else, as a live block with its header set. */
  lemma MoreStep(bptr: seq<nat>, bsize: seq<nat>, fl: seq<Block>, live: map<nat, nat>, own: seq<Block>, allocp: nat, heapp: nat, n: nat)
    requires Consistent(bptr, bsize, fl, live, own, allocp, heapp) && allocp != 0 && n > 0 && heapp + n <= |bptr|
    ensures heapp !in live
    ensures Consistent(bptr, bsize[heapp := n], fl, live[heapp := n], own + [Block(heapp, n)], allocp, heapp + n)
    ensures SameData(live, bptr, bsize, bptr, bsize[heapp := n])
  {
    hide Covered; hide Linked; hide LiveUnit;
    var b := Block(heapp, n);
    PartitionMore(fl, live, own, b);
    forall u: nat ensures Covered(own + [b], u) <==> Covered(own, u) || b.Has(u) { CoveredMore(own, b, u); }
    assert b.Has(heapp);
    forall a | Starts(fl, a) ensures a != heapp {
      StartsBelow(fl, live, own, heapp, a);
    }
    hide Sorted; hide Partition;
    LinkedFrame(bptr, bsize, fl, bptr, bsize[heapp := n]);
  }

  lemma StartsBelow(fl: seq<Block>, live: map<nat, nat>, own: seq<Block>, heapp: nat, a: nat)
    requires Sorted(fl) && Partition(fl, live, own) && BASE < heapp && (forall u: nat :: Covered(own, u) ==> BASE < u < heapp) && Starts(fl, a)
    ensures a < heapp
  {
    hide Covered; hide LiveUnit;
    var k :| 0 <= k < |fl| && fl[k].start == a;
    if k > 0 { StartsIn(fl, k); }
  }

  // ---------- malloc's search ----------

  /** The block that the search looks at after t others, when it starts after block a. */
  function Nth(a: nat, t: nat, n: nat): (k: nat)
    ensures a < n && t < n ==> k < n
  {
    if a + 1 + t < n then a + 1 + t else a + 1 + t - n
  }

  /** The first t blocks looked at are too small. */
  ghost predicate Passed(fl: seq<Block>, a: nat, t: nat, n: nat) {
    t <= |fl| && forall i :: 0 <= i < t && Nth(a, i, |fl|) < |fl| ==> fl[Nth(a, i, |fl|)].size < n
  }

  lemma PassedAll(fl: seq<Block>, a: nat, n: nat)
    requires a < |fl| && Passed(fl, a, |fl|, n)
    ensures !HasRoom(fl, n)
  {
    forall i | 0 <= i < |fl| ensures fl[i].size < n {
      var t := if i > a then i - a - 1 else i + |fl| - a - 1;
      assert Nth(a, t, |fl|) == i;
    }
  }

  // ---------- the allocator ----------

  class Heap {
    var bptr: array<nat>
    var bsize: array<nat>
    var allocp: nat
    var heapp: nat
    ghost var fl: seq<Block>
    ghost var live: map<nat, nat>
    ghost var own: seq<Block>

    ghost predicate Valid()
      reads this, bptr, bsize
    {
      bptr != bsize && Consistent(bptr[..], bsize[..], fl, live, own, allocp, heapp)
    }

    /** No memory obtained yet; the units from `heapp` up to `units` can be. */
    constructor (heapp: nat, units: nat)
      requires BASE < heapp <= units
      ensures Valid() && live == map[] && own == [] && this.heapp == heapp && fresh(bptr) && fresh(bsize)
    {
      bptr, bsize := new nat[units](_ => 0), new nat[units](_ => 0);
      allocp, this.heapp := 0, heapp;
      fl, live, own := [], map[], [];
    }

    /** sbrk: n units, unless fewer lie below the stack; `sp` is the stack pointer. */
    method Sbrk(n: nat, sp: nat) returns (cp: nat)
      requires Valid() && heapp <= sp <= bptr.Length
      modifies this`heapp
      ensures Valid() && cp != BASE
      ensures cp == 0 <==> sp - old(heapp) < n
      ensures cp == 0 ==> heapp == old(heapp)
      ensures cp != 0 ==> cp == old(heapp) && heapp == cp + n
    {
      hide Partition; hide Linked; hide Sorted; hide Starts;
      if sp - heapp < n { return 0; }
      cp := heapp;
      heapp := heapp + n;
    }

    /** The loop of mfree: the block to insert p after. */
    method Slot(p: nat, ghost i: nat) returns (q: nat)
      requires Valid() && allocp != 0 && p in live && Position(fl, i, Block(p, live[p]))
      ensures i < |fl| && q == fl[i].start
    {
      hide Consistent; hide Partition;
      ghost var b := Block(p, live[p]);
      ghost var k := IndexOf(bptr[..], bsize[..], fl, live, own, allocp, heapp);
      LinkFacts(bptr[..], bsize[..], fl, live, own, allocp, heapp);
      AllBounds(bptr[..], bsize[..], fl);
      q := allocp;
      while !(p > q && p < bptr[q])
        invariant 0 <= k < |fl| && q == fl[k].start
        decreases if k <= i then i - k else i + |fl| - k
      {
        LinkedBounds(bptr[..], bsize[..], fl, k);
        StopsOnce(fl, i, b, k);
        if q >= bptr[q] && (p > q || p < bptr[q]) { break; }
        q := bptr[q];
        k := Next(k, |fl|);
      }
      LinkedBounds(bptr[..], bsize[..], fl, k);
      StopsOnce(fl, i, b, k);
    }

    /** The rest of mfree: link the block at p in after the one at q. */
    method Join(p: nat, q: nat)
      requires bptr != bsize && bptr.Length == bsize.Length && p < bptr.Length && q < bptr.Length && bptr[q] < bptr.Length && p != q
      modifies bptr, bsize
      ensures var (bptr1, bsize1) := JoinUp(old(bptr[..]), old(bsize[..]), p, q);
              (bptr[..], bsize[..]) == JoinDown(bptr1, bsize1, p, q)
    {
      ghost var P, S := bptr[..], bsize[..];
      if p + bsize[p] == bptr[q] {
        bsize[p] := bsize[p] + bsize[bptr[q]];
        bptr[p] := bptr[bptr[q]];
      } else {
        bptr[p] := bptr[q];
      }
      assert (bptr[..], bsize[..]) == JoinUp(P, S, p, q);
      ghost var P1, S1 := bptr[..], bsize[..];
      if q + bsize[q] == p {
        bsize[q] := bsize[q] + bsize[p];
        bptr[q] := bptr[p];
      } else {
        bptr[q] := p;
      }
      assert (bptr[..], bsize[..]) == JoinDown(P1, S1, p, q);
    }

    method Mfree(ap: nat)
      requires Valid() && ap > 0 && ap - 1 in live
      modifies this`allocp, this`fl, this`live, bptr, bsize
      ensures Valid() && live == old(live) - {ap - 1} && allocp != 0 && own == old(own)
      ensures SameData(live, old(bptr[..]), old(bsize[..]), bptr[..], bsize[..])
      ensures HasRoom(fl, old(live)[ap - 1])
      ensures forall u: nat :: Covered(fl, u) <==> Covered(old(fl), u) || Block(ap - 1, old(live)[ap - 1]).Has(u)
    {
      hide Consistent; hide SameData; hide Partition; hide Covered; hide Insert; hide Linked; hide Sorted; hide HasRoom;
      hide JoinUp; hide JoinDown;
      var p := ap - 1;
      ghost var b := Block(p, live[p]);
      LinkFacts(bptr[..], bsize[..], fl, live, own, allocp, heapp);
      assert live != map[];
      ghost var i := Place(bptr[..], bsize[..], fl, live, own, allocp, heapp, p);
      FreeStep(bptr[..], bsize[..], fl, live, own, allocp, heapp, p, i);
      FreeCovers(bptr[..], bsize[..], fl, live, own, allocp, heapp, p, i);
      InsertRoom(fl, i, b);
      QNotP(fl, i, b);
      var q := Slot(p, i);
      Join(p, q);
      allocp := q;
      fl, live := Insert(fl, i, b), live - {p};
      LinkFacts(bptr[..], bsize[..], fl, live, own, allocp, heapp);
    }

    /** morecore: a multiple of 128 units from sbrk, given to mfree; the result is allocp. */
    method Morecore(nu: nat, sp: nat) returns (r: nat)
      requires Valid() && allocp != 0 && nu > 0 && heapp <= sp <= bptr.Length
      modifies this`allocp, this`heapp, this`fl, this`live, this`own, bptr, bsize
      ensures Valid() && live == old(live) && allocp != 0
      ensures SameData(live, old(bptr[..]), old(bsize[..]), bptr[..], bsize[..])
      ensures r == 0 <==> sp - old(heapp) < Rounded(nu)
      ensures r == 0 <==> forall g: nat :: g % NALLOC == 0 && nu <= g ==> sp - old(heapp) < g
      ensures r != 0 ==> (heapp - old(heapp)) % NALLOC == 0 && nu <= heapp - old(heapp) < nu + NALLOC
      ensures r == 0 ==> heapp == old(heapp) && own == old(own) && fl == old(fl) && allocp == old(allocp) && bptr[..] == old(bptr[..])
      ensures r != 0 ==> r == allocp && HasRoom(fl, nu) && heapp == old(heapp) + Rounded(nu) && own == old(own) + [Block(old(heapp), Rounded(nu))]
    {
      hide Consistent; hide SameData; hide Covered; hide HasRoom; hide Rounded;
      RoundedLeast(nu);
      SameDataRefl(live, bptr[..], bsize[..]);
      var rnu: nat := Rounded(nu);
      ghost var P, S, L := bptr[..], bsize[..], live;
      LinkFacts(P, S, fl, live, own, allocp, heapp);
      if rnu <= sp - heapp { MoreStep(P, S, fl, live, own, allocp, heapp, rnu); }
      var up := Sbrk(rnu, sp);
      if up == 0 { return 0; }
      bsize[up] := rnu;
      assert bsize[..] == S[up := rnu];
      own := own + [Block(up, rnu)];
      live := live[up := rnu];
      Mfree(up + 1);
      assert live == L;
      RoomMore(fl, rnu, nu);
      r := allocp;
      SameDataMore(L, up, rnu, P, S, S[up := rnu], bptr[..], bsize[..]);
    }

    /** clearblock: zero everything in the block at p but its header. */
    method Clear(p: nat)
      requires Valid() && p in live
      modifies bptr, bsize
      ensures Valid() && bptr[p] == old(bptr[p]) && bsize[p] == old(bsize[p])
      ensures forall u :: 0 <= u < bptr.Length && !(p < u < p + live[p]) ==> bptr[u] == old(bptr[u]) && bsize[u] == old(bsize[u])
      ensures Zero(bptr[..], bsize[..], p + 1, p + live[p])
    {
      hide Consistent;
      LinkFacts(bptr[..], bsize[..], fl, live, own, allocp, heapp);
      LiveBelow(bptr[..], bsize[..], fl, live, own, allocp, heapp, p);
      ghost var P, S := bptr[..], bsize[..];
      var s, t := p + 1, p + bsize[p];
      while s < t
        invariant p + 1 <= s <= t == p + live[p]
        invariant forall u :: p < u < s ==> bptr[u] == 0 && bsize[u] == 0
        invariant forall u :: 0 <= u < bptr.Length && !(p < u < s) ==> bptr[u] == P[u] && bsize[u] == S[u]
      {
        bptr[s], bsize[s] := 0, 0;
        s := s + 1;
      }
      ClearStep(P, S, fl, live, own, allocp, heapp, p, bptr[..], bsize[..]);
    }

    /** The part of malloc that takes n units of the block at p, which q points to. */
    method Take(p: nat, q: nat, n: nat, ghost k: nat) returns (r: nat)
      requires Valid() && allocp != 0 && 0 < k < |fl| && p == fl[k].start && q == fl[k - 1].start && 0 < n <= fl[k].size
      modifies this`allocp, this`fl, this`live, bptr, bsize
      ensures Valid() && r !in old(live) && live == old(live)[r := n] && r > 0
      ensures SameData(old(live), old(bptr[..]), old(bsize[..]), bptr[..], bsize[..])
    {
      hide Consistent; hide SameData; hide Sorted; hide Linked; hide Remove; hide Shrink;
      LinkFacts(bptr[..], bsize[..], fl, live, own, allocp, heapp);
      LinkedBounds(bptr[..], bsize[..], fl, k);
      KStarts(fl, k);
      ghost var P, S := bptr[..], bsize[..];
      r := p;
      if bsize[p] == n {
        TakeWhole(P, S, fl, live, own, allocp, heapp, k);
        bptr[q] := bptr[p];
        assert bptr[..] == P[q := P[p]];
        fl := Remove(fl, k);
      } else {
        TakeUpper(P, S, fl, live, own, allocp, heapp, k, n, q);
        bsize[p] := bsize[p] - n;
        r := p + bsize[p];
        bsize[r] := n;
        assert bsize[..] == S[p := S[p] - n][r := n];
        fl := Shrink(fl, k, n);
      }
      allocp := q;
      live := live[r := n];
    }

    /** Take and zero. */
    method Hand(p: nat, q: nat, n: nat, ghost k: nat) returns (r: nat)
      requires Valid() && allocp != 0 && 0 < k < |fl| && p == fl[k].start && q == fl[k - 1].start && 0 < n <= fl[k].size
      modifies this`allocp, this`fl, this`live, bptr, bsize
      ensures Valid() && r > 1 && r - 1 !in old(live) && live == old(live)[r - 1 := n]
      ensures SameData(old(live), old(bptr[..]), old(bsize[..]), bptr[..], bsize[..])
      ensures Zero(bptr[..], bsize[..], r, r - 1 + n)
    {
      hide Consistent; hide SameData;
      var b := Take(p, q, n, k);
      ghost var P, S := bptr[..], bsize[..];
      LinkFacts(P, S, fl, live, own, allocp, heapp);
      Clear(b);
      ClearData(P, S, fl, live, own, allocp, heapp, old(live), b, bptr[..], bsize[..]);
      SameDataTrans(old(live), old(bptr[..]), old(bsize[..]), P, S, bptr[..], bsize[..]);
      r := b + 1;
    }

    /** The first use: the circle of `base` alone. */
    method Start()
      requires Valid() && allocp == 0
      modifies this`allocp, this`fl, bptr, bsize
      ensures Valid() && allocp == BASE && fl == [Block(BASE, 0)]
      ensures SameData(live, old(bptr[..]), old(bsize[..]), bptr[..], bsize[..])
    {
      assert 0 < BASE < bptr.Length;
      StartStep(bptr[..], bsize[..], fl, live, own, heapp);
      hide Consistent; hide SameData;
      ghost var P, S := bptr[..], bsize[..];
      LinkFacts(P, S, fl, live, own, allocp, heapp);
      bptr[BASE], allocp := BASE, BASE;
      bsize[BASE] := 0;
      assert bptr[..] == P[BASE := BASE] && bsize[..] == S[BASE := 0];
      fl := [Block(BASE, 0)];
    }

    /** The loop of malloc, for nunits with the header. */
    method Search(nunits: nat, sp: nat) returns (r: nat)
      requires Valid() && nunits > 0 && heapp <= sp <= bptr.Length
      modifies this`allocp, this`heapp, this`fl, this`live, this`own, bptr, bsize
      ensures Valid() && heapp <= sp
      ensures SameData(old(live), old(bptr[..]), old(bsize[..]), bptr[..], bsize[..])
      ensures r == 0 ==> live == old(live) && own == old(own) && !HasRoom(fl, nunits) && sp - heapp < Rounded(nunits)
      ensures r != 0 ==> r - 1 !in old(live) && live == old(live)[r - 1 := nunits] && Zero(bptr[..], bsize[..], r, r - 1 + nunits)
      ensures own == old(own) ==> heapp == old(heapp)
      ensures own == old(own) || (own == old(own) + [Block(old(heapp), Rounded(nunits))] && heapp == old(heapp) + Rounded(nunits) && !HasRoom(old(fl), nunits))
    {
      hide Consistent; hide SameData; hide Sorted; hide Linked; hide HasRoom; hide Passed; hide Rounded; hide Zero;
      hide Nth; hide Next;
      ghost var P, S := bptr[..], bsize[..];
      SameDataRefl(live, P, S);
      var q := allocp;
      if q == 0 {
        NoRoomFirst(P, S, fl, live, own, allocp, heapp, nunits);
        Start();
        q := allocp;
      } else {
        LinkFacts(P, S, fl, live, own, allocp, heapp);
      }
      ghost var first := fl;
      ghost var a: nat := IndexOf(bptr[..], bsize[..], fl, live, own, allocp, heapp);
      ghost var t: nat := 0;
      ghost var more := false;
      LinkFacts(bptr[..], bsize[..], fl, live, own, allocp, heapp);
      LinkedBounds(bptr[..], bsize[..], fl, a);
      PassedNone(fl, a, nunits);
      var p := bptr[q];
      while true
        invariant Valid() && allocp != 0 && heapp <= sp
        invariant live == old(live) && SameData(live, P, S, bptr[..], bsize[..])
        invariant a < |fl| && fl[a].start == allocp && t < |fl| && Passed(fl, a, t, nunits)
        invariant p == fl[Nth(a, t, |fl|)].start && q == fl[if t == 0 then a else Nth(a, t - 1, |fl|)].start
        invariant more ==> HasRoom(fl, nunits)
        invariant if more then own == old(own) + [Block(old(heapp), Rounded(nunits))] && heapp == old(heapp) + Rounded(nunits) && !HasRoom(old(fl), nunits)
                  else own == old(own) && heapp == old(heapp) && fl == first
        decreases !more, |fl| - t
      {
        ghost var k := Nth(a, t, |fl|);
        LinkFacts(bptr[..], bsize[..], fl, live, own, allocp, heapp);
        LinkedBounds(bptr[..], bsize[..], fl, k);
        if bsize[p] >= nunits {
          FitsNotBase(fl, a, t, nunits);
          ghost var P1, S1 := bptr[..], bsize[..];
          r := Hand(p, q, nunits, k);
          SameDataTrans(old(live), P, S, P1, S1, bptr[..], bsize[..]);
          return;
        }
        StepSearch(fl, a, t, nunits);
        ghost var P1, S1 := bptr[..], bsize[..];
        if p == allocp {
          PassedAll(fl, a, nunits);
          p := Morecore(nunits, sp);
          SameDataTrans(live, P, S, P1, S1, bptr[..], bsize[..]);
          if p == 0 { return 0; }
          a := IndexOf(bptr[..], bsize[..], fl, live, own, allocp, heapp);
          t, more := 0, true;
          PassedNone(fl, a, nunits);
          LinkFacts(bptr[..], bsize[..], fl, live, own, allocp, heapp);
          LinkedBounds(bptr[..], bsize[..], fl, a);
        } else {
          t := t + 1;
        }
        q, p := p, bptr[p];
      }
    }

    /** The result is a new block of the least number of units that hold a header and s bytes,
        all its data zero, or null when no free block is large enough and sbrk fails. */
    method Malloc(s: nat, sp: nat) returns (r: nat)
      requires Valid() && heapp <= sp <= bptr.Length
      modifies this`allocp, this`heapp, this`fl, this`live, this`own, bptr, bsize
      ensures Valid() && heapp <= sp
      ensures forall p, u: nat :: p in old(live) && p <= u < p + old(live)[p] && u < bptr.Length && u < bsize.Length ==>
                bptr[u] == old(bptr[u]) && bsize[u] == old(bsize[u])
      ensures r == 0 ==> live == old(live) && own == old(own) && TooSmall(fl, s)
      ensures r == 0 ==> forall g: nat :: g % NALLOC == 0 && s + HEADER <= HEADER * g ==> sp - heapp < g
      ensures r != 0 ==> r - 1 !in old(live) && r - 1 in live && live == old(live)[r - 1 := live[r - 1]]
      ensures r != 0 ==> s <= HEADER * (live[r - 1] - 1) < s + HEADER
      ensures r != 0 ==> r - 1 + live[r - 1] <= bptr.Length && r - 1 + live[r - 1] <= bsize.Length
      ensures r != 0 ==> forall u :: r <= u < r - 1 + live[r - 1] ==> bptr[u] == 0 && bsize[u] == 0
      ensures own == old(own) ==> heapp == old(heapp)
      ensures own != old(own) ==>
                var g := heapp - old(heapp);
                && g > 0 && own == old(own) + [Block(old(heapp), g)] && TooSmall(old(fl), s)
                && g % NALLOC == 0 && s + HEADER <= HEADER * g < s + HEADER * (2 + NALLOC)
    {
      hide Consistent; hide SameData; hide HasRoom; hide Nunits; hide Rounded; hide TooSmall;
      var nunits := Nunits(s);
      NunitsLeast(s);
      RoundedLeast(nunits);
      RoundedHolds(s, nunits);
      SmallIs(fl, s);
      r := Search(nunits, sp);
      SmallIs(fl, s);
      DataIs(old(live), old(bptr[..]), old(bsize[..]), bptr[..], bsize[..]);
    }
  }

  lemma SmallIs(fl: seq<Block>, s: nat)
    ensures !HasRoom(fl, Nunits(s)) <==> TooSmall(fl, s)
  {
    NunitsLeast(s);
  }

  lemma DataIs(live: map<nat, nat>, bptr: seq<nat>, bsize: seq<nat>, bptr': seq<nat>, bsize': seq<nat>)
    requires SameData(live, bptr, bsize, bptr', bsize')
    ensures |bptr'| == |bptr| && |bsize'| == |bsize|
    ensures forall p, u: nat :: p in live && p <= u < p + live[p] && u < |bptr| && u < |bsize| ==> bptr'[u] == bptr[u] && bsize'[u] == bsize[u]
  {
    forall p, u: nat | p in live && p <= u < p + live[p] && u < |bptr| && u < |bsize|
      ensures bptr'[u] == bptr[u] && bsize'[u] == bsize[u]
    {
      assert Block(p, live[p]).Has(u);
      assert LiveUnit(live, u);
    }
  }

  lemma RoundedHolds(s: nat, n: nat)
    requires s <= HEADER * (n - 1) < s + HEADER
    ensures forall g: nat :: n <= g <==> s + HEADER <= HEADER * g
  {}

  lemma KStarts(fl: seq<Block>, k: nat)
    requires Sorted(fl) && 0 < k < |fl|
    ensures Starts(fl, fl[k - 1].start) && fl[k].start > 0
  {
    Ascending(fl);
  }

  lemma StartStep(bptr: seq<nat>, bsize: seq<nat>, fl: seq<Block>, live: map<nat, nat>, own: seq<Block>, heapp: nat)
    requires Consistent(bptr, bsize, fl, live, own, 0, heapp)
    ensures Consistent(bptr[BASE := BASE], bsize[BASE := 0], [Block(BASE, 0)], live, own, BASE, heapp)
    ensures SameData(live, bptr, bsize, bptr[BASE := BASE], bsize[BASE := 0])
  {
    var one := [Block(BASE, 0)];
    forall u: nat ensures !Covered(one, u) && !Covered(fl, u) {}
    assert one[0].start == BASE;
    assert Starts(one, BASE);
  }

  lemma NoRoomFirst(bptr: seq<nat>, bsize: seq<nat>, fl: seq<Block>, live: map<nat, nat>, own: seq<Block>, allocp: nat, heapp: nat, n: nat)
    requires Consistent(bptr, bsize, fl, live, own, allocp, heapp) && allocp == 0
    ensures !HasRoom(fl, n)
  {}

  lemma PassedNone(fl: seq<Block>, a: nat, n: nat)
    requires a < |fl|
    ensures Passed(fl, a, 0, n) && Nth(a, 0, |fl|) == Next(a, |fl|)
  {}

  /** A block that fits is not `base`, so the block before it in the circle is the one before
      it in the list. */
  lemma FitsNotBase(fl: seq<Block>, a: nat, t: nat, n: nat)
    requires Sorted(fl) && a < |fl| && t < |fl| && n > 0 && fl[Nth(a, t, |fl|)].size >= n
    ensures var k := Nth(a, t, |fl|); 0 < k && k - 1 == if t == 0 then a else Nth(a, t - 1, |fl|)
  {}

  /** One more block that is too small; the search is back where it began after the last. */
  lemma StepSearch(fl: seq<Block>, a: nat, t: nat, n: nat)
    requires Sorted(fl) && a < |fl| && t < |fl| && Passed(fl, a, t, n) && fl[Nth(a, t, |fl|)].size < n
    ensures Passed(fl, a, t + 1, n)
    ensures fl[Nth(a, t, |fl|)].start == fl[a].start <==> t == |fl| - 1
    ensures t < |fl| - 1 ==> Next(Nth(a, t, |fl|), |fl|) == Nth(a, t + 1, |fl|)
  {
    Ascending(fl);
    hide Sorted;
    var k := Nth(a, t, |fl|);
    assert k < a ==> fl[k].start < fl[a].start;
    assert a < k ==> fl[a].start < fl[k].start;
  }

  lemma ClearData(bptr: seq<nat>, bsize: seq<nat>, fl: seq<Block>, live: map<nat, nat>, own: seq<Block>, allocp: nat, heapp: nat,
                  old': map<nat, nat>, p: nat, bptr': seq<nat>, bsize': seq<nat>)
    requires Consistent(bptr, bsize, fl, live, own, allocp, heapp) && p !in old' && p in live && live == old'[p := live[p]]
    requires |bptr'| == |bptr| && |bsize'| == |bsize|
    requires forall u :: 0 <= u < |bptr| && !(p < u < p + live[p]) ==> bptr'[u] == bptr[u] && bsize'[u] == bsize[u]
    ensures SameData(old', bptr, bsize, bptr', bsize')
  {
    hide Linked; hide Sorted; hide Covered;
    forall u: nat | LiveUnit(old', u) ensures !(p < u < p + live[p]) {
      var r :| r in old' && Block(r, old'[r]).Has(u);
      assert r in live && live[r] == old'[r];
      assert !Block(p, live[p]).Has(u);
    }
  }

  lemma SameDataRefl(live: map<nat, nat>, bptr: seq<nat>, bsize: seq<nat>)
    ensures SameData(live, bptr, bsize, bptr, bsize)
  {}

  lemma SameDataTrans(live: map<nat, nat>, P: seq<nat>, S: seq<nat>, P1: seq<nat>, S1: seq<nat>, P2: seq<nat>, S2: seq<nat>)
    requires SameData(live, P, S, P1, S1) && SameData(live, P1, S1, P2, S2)
    ensures SameData(live, P, S, P2, S2)
  {}

  lemma SameDataMore(live: map<nat, nat>, up: nat, n: nat, P: seq<nat>, S: seq<nat>, S1: seq<nat>, P2: seq<nat>, S2: seq<nat>)
    requires up !in live && SameData(live, P, S, P, S1) && SameData(live[up := n] - {up}, P, S1, P2, S2)
    ensures live[up := n] - {up} == live && SameData(live, P, S, P2, S2)
  {
    assert live[up := n] - {up} == live;
  }

  lemma RoomMore(fl: seq<Block>, n: nat, m: nat)
    requires HasRoom(fl, n) && m <= n
    ensures HasRoom(fl, m)
  {}

  lemma LiveBelow(bptr: seq<nat>, bsize: seq<nat>, fl: seq<Block>, live: map<nat, nat>, own: seq<Block>, allocp: nat, heapp: nat, p: nat)
    requires Consistent(bptr, bsize, fl, live, own, allocp, heapp) && p in live
    ensures p + live[p] <= |bptr|
  {
    hide Covered; hide Linked; hide Sorted; hide Starts;
    var u := p + live[p] - 1;
    assert Block(p, live[p]).Has(u);
    assert LiveUnit(live, u);
  }

  lemma ClearStep(bptr: seq<nat>, bsize: seq<nat>, fl: seq<Block>, live: map<nat, nat>, own: seq<Block>, allocp: nat, heapp: nat, p: nat,
                  bptr': seq<nat>, bsize': seq<nat>)
    requires Consistent(bptr, bsize, fl, live, own, allocp, heapp) && p in live && |bptr'| == |bptr| && |bsize'| == |bsize|
    requires forall u :: 0 <= u < |bptr| && !(p < u < p + live[p]) ==> bptr'[u] == bptr[u] && bsize'[u] == bsize[u]
    ensures Consistent(bptr', bsize', fl, live, own, allocp, heapp)
  {
    hide Covered; hide Linked;
    forall r | r in live ensures !(p < r < p + live[p]) {
      LiveIs(fl, live, own, r);
      assert r != p ==> !Block(p, live[p]).Has(r);
    }
    if allocp != 0 {
      forall a: nat | Starts(fl, a) ensures !(p < a < p + live[p]) {
        var k :| 0 <= k < |fl| && fl[k].start == a;
        QNotLive(fl, live, own, k, heapp);
        assert !Block(p, live[p]).Has(a);
      }
      hide Sorted; hide Partition;
      LinkedFrame(bptr, bsize, fl, bptr', bsize');
    }
  }

  lemma QNotP(fl: seq<Block>, i: nat, b: Block)
    requires Position(fl, i, b)
    ensures fl[i].start != b.start
  {}

  lemma AllBounds(bptr: seq<nat>, bsize: seq<nat>, fl: seq<Block>)
    requires Linked(bptr, bsize, fl)
    ensures forall i :: 0 <= i < |fl| ==> fl[i].start < |bptr| && fl[i].start < |bsize|
  {
    forall i | 0 <= i < |fl| ensures fl[i].start < |bptr| && fl[i].start < |bsize| { assert LinkedAt(bptr, bsize, fl, i); }
  }

  /** Facts that mfree uses about the list. */
  lemma LinkFacts(bptr: seq<nat>, bsize: seq<nat>, fl: seq<Block>, live: map<nat, nat>, own: seq<Block>, allocp: nat, heapp: nat)
    requires Consistent(bptr, bsize, fl, live, own, allocp, heapp)
    ensures |bptr| == |bsize| && heapp <= |bptr|
    ensures forall p :: p in live ==> p < heapp && bsize[p] == live[p] && live[p] > 0
    ensures allocp != 0 ==> Sorted(fl) && Linked(bptr, bsize, fl)
    ensures live != map[] || fl != [] ==> allocp != 0
  {}

  lemma IndexOf(bptr: seq<nat>, bsize: seq<nat>, fl: seq<Block>, live: map<nat, nat>, own: seq<Block>, allocp: nat, heapp: nat) returns (k: nat)
    requires Consistent(bptr, bsize, fl, live, own, allocp, heapp) && allocp != 0
    ensures k < |fl| && fl[k].start == allocp && allocp < |bptr|
  {
    k :| 0 <= k < |fl| && fl[k].start == allocp;
    LinkedBounds(bptr, bsize, fl, k);
  }

  lemma FreeCovers(bptr: seq<nat>, bsize: seq<nat>, fl: seq<Block>, live: map<nat, nat>, own: seq<Block>, allocp: nat, heapp: nat, p: nat, i: nat)
    requires Consistent(bptr, bsize, fl, live, own, allocp, heapp) && p in live && Position(fl, i, Block(p, live[p]))
    ensures forall u: nat :: Covered(Insert(fl, i, Block(p, live[p])), u) <==> Covered(fl, u) || Block(p, live[p]).Has(u)
  {
    hide Covered; hide Linked; hide Insert;
    PartitionFree(fl, live, own, p, i);
    InsertCovers(fl, i, Block(p, live[p]));
  }
}
