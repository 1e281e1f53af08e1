/**
 The block list of LwIP/src/core/mem.c as a map from the offset of each `struct mem` (relative to
 `ram`) to its fields. A block runs from its header to the header its `next` names; the last header,
 at `size`, is the end marker.
 */
module BlockList {

  /** SIZEOF_STRUCT_MEM: two 16-bit links and a flag, rounded up to MEM_ALIGNMENT. */
  const HDR: nat := 8
  const MEM_ALIGNMENT: nat := 4
  /** MIN_SIZE_ALIGNED. */
  const MIN_SIZE: nat := 12

  datatype Header = Header(next: nat, prev: nat, used: bool)

  type Links = map<nat, Header>

  /** A live allocation: header at `at`, data up to `end`. */
  datatype Block = Block(at: nat, end: nat) {
    /** Bytes available behind the header. */
    function Data(): int { end - at - HDR }
  }

  // ----- well-formedness

  /** Block p is aligned, holds at least MIN_SIZE bytes, and its `next` is a header. */
  ghost predicate BlockOk(hs: Links, size: nat, p: nat)
    requires p in hs
  {
    && p + HDR + MIN_SIZE <= hs[p].next <= size
    && hs[p].next in hs
    && p % MEM_ALIGNMENT == 0
  }

  /** `prev` undoes `next`. */
  ghost predicate BackOk(hs: Links, p: nat)
    requires p in hs
  {
    hs[p].prev in hs && hs[p].prev < p && hs[hs[p].prev].next == p
  }

  /** A free block is not followed by a free block. */
  ghost predicate MeetsUsed(hs: Links, p: nat)
    requires p in hs
  {
    !hs[p].used && hs[p].next in hs ==> hs[hs[p].next].used
  }

  ghost predicate Anchored(hs: Links, size: nat) {
    && 0 < size && size % MEM_ALIGNMENT == 0
    && 0 in hs && hs[0].prev == 0
    && size in hs && hs[size].next == size && hs[size].used
    && forall p :: p in hs ==> p <= size
  }

  ghost predicate BlocksOk(hs: Links, size: nat) {
    forall p {:trigger BlockOk(hs, size, p)} :: p in hs && p < size ==> BlockOk(hs, size, p)
  }

  ghost predicate BacksOk(hs: Links, size: nat) {
    forall p {:trigger BackOk(hs, p)} :: p in hs && 0 < p < size ==> BackOk(hs, p)
  }

  ghost predicate Disjoint(hs: Links) {
    forall p, q :: p in hs && q in hs && p < q ==> hs[p].next <= q
  }

  /**
   The blocks lie end to end from 0 to the end marker and are linked
   both ways. Nothing depends on the `prev` of the end marker.
   */
  ghost predicate Tiles(hs: Links, size: nat) {
    Anchored(hs, size) && BlocksOk(hs, size) && BacksOk(hs, size) && Disjoint(hs)
  }

  /** No free block is followed by a free block, except possibly those of `but`. */
  ghost predicate NoHoles(hs: Links, size: nat, but: set<nat> := {}) {
    forall p {:trigger MeetsUsed(hs, p)} :: p in hs && p < size && p !in but ==> MeetsUsed(hs, p)
  }

  ghost predicate WellFormed(hs: Links, size: nat) {
    Tiles(hs, size) && NoHoles(hs, size)
  }

  /** The live allocations. */
  ghost function Used(hs: Links, size: nat): set<Block> {
    set p | p in hs && p < size && hs[p].used :: Block(p, hs[p].next)
  }

  ghost predicate FreeAt(hs: Links, p: nat) {
    p in hs && !hs[p].used
  }

  /** p is a block boundary no free block lies below. */
  ghost predicate LowerBound(hs: Links, p: nat) {
    p in hs && forall q :: FreeAt(hs, q) ==> p <= q
  }

  /** p is where the lowest free block starts, or the end of the heap. */
  ghost predicate Lowest(hs: Links, size: nat, p: nat) {
    LowerBound(hs, p) && (p == size || FreeAt(hs, p))
  }

  // ----- allocation policy

  /** Block p is free and has room for n bytes. */
  ghost predicate Fits(hs: Links, p: nat, n: nat) {
    FreeAt(hs, p) && p + HDR + n <= hs[p].next
  }

  ghost predicate FirstFit(hs: Links, p: nat, n: nat) {
    Fits(hs, p, n) && forall q: nat :: q < p ==> !Fits(hs, q, n)
  }

  ghost predicate NoFit(hs: Links, n: nat) {
    forall q: nat :: !Fits(hs, q, n)
  }

  /** What allocating n bytes from [p, next) makes live: a remainder too small for a block of its own stays attached. */
  ghost function Carved(p: nat, next: nat, n: nat): Block {
    if p + HDR + n + HDR + MIN_SIZE <= next then Block(p, p + HDR + n) else Block(p, next)
  }

  // ----- tiling

  /** Distinct live allocations never share a byte. */
  lemma LiveDisjoint(hs: Links, size: nat, a: Block, b: Block)
    requires Tiles(hs, size)
    requires a in Used(hs, size) && b in Used(hs, size) && a != b
    ensures a.end <= b.at || b.end <= a.at
  {
  }

  /** Every offset below `size` lies in a block. */
  lemma {:induction false} Covered(hs: Links, size: nat, from: nat, x: nat) returns (p: nat)
    requires Tiles(hs, size) && from in hs && from <= x < size
    ensures p in hs && p <= x < hs[p].next
    decreases size - from
  {
    assert BlockOk(hs, size, from);
    if x < hs[from].next {
      p := from;
    } else {
      p := Covered(hs, size, hs[from].next, x);
    }
  }

  // ----- canonicity

  /** The list apart from the end marker, whose `prev` is unused. */
  ghost function Body(hs: Links, size: nat): Links {
    hs - {size}
  }

  /** Heaps with the same live allocations agree on where a common block ends. */
  lemma NextAgrees(hs: Links, ks: Links, size: nat, p: nat)
    requires WellFormed(hs, size) && WellFormed(ks, size) && Used(hs, size) == Used(ks, size)
    requires p in hs && p in ks && p < size
    ensures hs[p].used == ks[p].used && hs[p].next == ks[p].next
  {
    assert BlockOk(hs, size, p) && BlockOk(ks, size, p);
    assert hs[p].used ==> Block(p, hs[p].next) in Used(ks, size);
    assert ks[p].used ==> Block(p, ks[p].next) in Used(hs, size);
    if !hs[p].used {
      assert MeetsUsed(hs, p) && MeetsUsed(ks, p);
      var m, n := hs[p].next, ks[p].next;
      assert m < size ==> Block(m, hs[m].next) in Used(ks, size);
      assert n < size ==> Block(n, ks[n].next) in Used(hs, size);
    }
  }

  lemma {:induction false} HeaderAgrees(hs: Links, ks: Links, size: nat, p: nat)
    requires WellFormed(hs, size) && WellFormed(ks, size) && Used(hs, size) == Used(ks, size)
    requires p in hs
    ensures p in ks && (p < size ==> hs[p] == ks[p])
  {
    if 0 < p < size {
      var q := hs[p].prev;
      assert BackOk(hs, p);
      HeaderAgrees(hs, ks, size, q);
      NextAgrees(hs, ks, size, q);
      assert BlockOk(ks, size, q);
      assert BackOk(ks, p);
    }
    if p < size {
      NextAgrees(hs, ks, size, p);
    }
  }

  /** Canonicity: the live allocations alone determine the whole block list. */
  lemma Canonical(hs: Links, ks: Links, size: nat)
    requires WellFormed(hs, size) && WellFormed(ks, size) && Used(hs, size) == Used(ks, size)
    ensures Body(hs, size) == Body(ks, size)
  {
    forall p | p in hs ensures p in ks && (p < size ==> hs[p] == ks[p]) {
      HeaderAgrees(hs, ks, size, p);
    }
    forall p | p in ks ensures p in hs {
      HeaderAgrees(ks, hs, size, p);
    }
  }

  /** With nothing allocated the heap is one free block, however it got there. */
  lemma AllFree(hs: Links, size: nat)
    requires WellFormed(hs, size) && Used(hs, size) == {}
    ensures Body(hs, size) == map[0 := Header(size, 0, false)]
  {
    assert BlockOk(hs, size, 0) && MeetsUsed(hs, 0);
    forall p | p in hs && p < size ensures !hs[p].used {
      assert Block(p, hs[p].next) !in Used(hs, size);
    }
  }

  /** The lowest free block is unique, so `lfree` is determined by the list too. */
  lemma LowestUnique(hs: Links, ks: Links, size: nat, p: nat, q: nat)
    requires Tiles(hs, size) && Tiles(ks, size) && Body(hs, size) == Body(ks, size)
    requires Lowest(hs, size, p) && Lowest(ks, size, q)
    ensures p == q
  {
    forall x: nat | x < size ensures FreeAt(hs, x) == FreeAt(ks, x) {
      assert x in hs <==> x in Body(hs, size);
      assert x in ks <==> x in Body(ks, size);
      assert x in hs ==> Body(hs, size)[x] == hs[x];
      assert x in ks ==> Body(ks, size)[x] == ks[x];
    }
  }

  // ----- edits of the list

  ghost function Mark(hs: Links, p: nat, used: bool): Links
    requires p in hs
  {
    hs[p := hs[p].(used := used)]
  }

  /** Block p absorbs the block `gone` behind it, which ends at `end`. */
  ghost function Merge(hs: Links, p: nat, gone: nat, end: nat): Links
    requires p in hs && end in hs && p != end
  {
    hs[p := hs[p].(next := end)][end := hs[end].(prev := p)] - {gone}
  }

  /** Block p, which ends at `end`, is cut at m; the upper part is free. */
  ghost function Split(hs: Links, size: nat, p: nat, m: nat, end: nat): Links
    requires p in hs && end in hs
  {
    var cut := hs[m := Header(end, p, false)][p := hs[p].(next := m)];
    if end == size then cut else cut[end := hs[end].(prev := m)]
  }

  lemma MarkOk(hs: Links, size: nat, p: nat, used: bool)
    requires Tiles(hs, size) && p in hs && p < size
    ensures Tiles(Mark(hs, p, used), size)
  {
    var ks := Mark(hs, p, used);
    assert BlocksOk(ks, size) by {
      forall q | q in ks && q < size ensures BlockOk(ks, size, q) { assert BlockOk(hs, size, q); }
    }
    assert BacksOk(ks, size) by {
      forall q | q in ks && 0 < q < size ensures BackOk(ks, q) { assert BackOk(hs, q); }
    }
  }

  /** The situation in which `plug_holes` merges: block `gone` follows block p and ends at `end`. */
  ghost predicate Adjacent(hs: Links, size: nat, p: nat, gone: nat, end: nat) {
    && p in hs && gone in hs && end in hs
    && p < gone < end <= size && hs[p].next == gone && hs[gone].next == end
  }

  lemma MergeBlocks(hs: Links, size: nat, p: nat, gone: nat, end: nat)
    requires BlocksOk(hs, size) && Disjoint(hs) && Adjacent(hs, size, p, gone, end)
    ensures BlocksOk(Merge(hs, p, gone, end), size)
  {
    var ks := Merge(hs, p, gone, end);
    forall q | q in ks && q < size ensures BlockOk(ks, size, q) {
      assert BlockOk(hs, size, q) && BlockOk(hs, size, gone);
    }
  }

  lemma MergeDisjoint(hs: Links, size: nat, p: nat, gone: nat, end: nat)
    requires Disjoint(hs) && Adjacent(hs, size, p, gone, end)
    ensures Disjoint(Merge(hs, p, gone, end))
  {
  }

  lemma MergeBacks(hs: Links, size: nat, p: nat, gone: nat, end: nat)
    requires BacksOk(hs, size) && Disjoint(hs) && Adjacent(hs, size, p, gone, end)
    ensures BacksOk(Merge(hs, p, gone, end), size)
  {
    var ks := Merge(hs, p, gone, end);
    forall q | q in ks && 0 < q < size ensures BackOk(ks, q) {
      assert BackOk(hs, q);
    }
  }

  lemma MergeOk(hs: Links, size: nat, p: nat, gone: nat, end: nat)
    requires Tiles(hs, size) && Adjacent(hs, size, p, gone, end)
    ensures Tiles(Merge(hs, p, gone, end), size)
  {
    MergeBlocks(hs, size, p, gone, end);
    MergeDisjoint(hs, size, p, gone, end);
    MergeBacks(hs, size, p, gone, end);
  }

  lemma SplitBlocks(hs: Links, size: nat, p: nat, m: nat, end: nat)
    requires BlocksOk(hs, size) && Disjoint(hs) && p in hs && p < size && hs[p].next == end && end in hs && end <= size
    requires p + HDR + MIN_SIZE <= m && m + HDR + MIN_SIZE <= end && m % MEM_ALIGNMENT == 0
    ensures BlocksOk(Split(hs, size, p, m, end), size)
  {
    var ks := Split(hs, size, p, m, end);
    forall q | q in ks && q < size ensures BlockOk(ks, size, q) {
      assert q in hs ==> BlockOk(hs, size, q);
    }
  }

  lemma SplitDisjoint(hs: Links, size: nat, p: nat, m: nat, end: nat)
    requires Disjoint(hs) && p in hs && hs[p].next == end && end in hs && p < m < end
    ensures Disjoint(Split(hs, size, p, m, end))
  {
  }

  lemma SplitBacks(hs: Links, size: nat, p: nat, m: nat, end: nat)
    requires BacksOk(hs, size) && Disjoint(hs) && p in hs && hs[p].next == end && end in hs && end <= size
        && p < m < end
    ensures BacksOk(Split(hs, size, p, m, end), size)
  {
    var ks := Split(hs, size, p, m, end);
    forall q | q in ks && 0 < q < size ensures BackOk(ks, q) {
      assert q in hs ==> BackOk(hs, q);
    }
  }

  lemma SplitOk(hs: Links, size: nat, p: nat, m: nat, end: nat)
    requires Tiles(hs, size) && p in hs && p < size && hs[p].next == end && end in hs
    requires p + HDR + MIN_SIZE <= m && m + HDR + MIN_SIZE <= end && m % MEM_ALIGNMENT == 0
    ensures Tiles(Split(hs, size, p, m, end), size)
  {
    SplitBlocks(hs, size, p, m, end);
    SplitDisjoint(hs, size, p, m, end);
    SplitBacks(hs, size, p, m, end);
  }

  /** Moving the header between blocks p and mid down to m is a merge followed by a split. */
  lemma ShiftOk(hs: Links, size: nat, p: nat, m: nat, mid: nat, end: nat)
    requires Tiles(hs, size) && Adjacent(hs, size, p, mid, end)
    requires p + HDR + MIN_SIZE <= m <= mid && m % MEM_ALIGNMENT == 0
    ensures Tiles(Split(hs - {mid}, size, p, m, end), size)
  {
    hide Disjoint, BlocksOk, BacksOk;
    var merged := Merge(hs, p, mid, end);
    MergeOk(hs, size, p, mid, end);
    BlockFits(hs, size, mid);
    SplitOk(merged, size, p, m, end);
    EndPrev(Split(merged, size, p, m, end), size, hs[size].prev);
    hide Tiles;
    assert Split(hs - {mid}, size, p, m, end)
        == if end == size then Split(merged, size, p, m, end)[size := hs[size]] else Split(merged, size, p, m, end);
  }

  lemma BlockFits(hs: Links, size: nat, p: nat)
    requires Tiles(hs, size) && p in hs && p < size
    ensures BlockOk(hs, size, p) && size in hs
  {
  }

  lemma SameDisjoint(hs: Links, ks: Links)
    requires Disjoint(hs) && ks.Keys == hs.Keys && forall q :: q in hs ==> ks[q].next == hs[q].next
    ensures Disjoint(ks)
  {
  }

  lemma EndBlocks(hs: Links, size: nat, prev: nat)
    requires size in hs && BlocksOk(hs, size)
    ensures BlocksOk(hs[size := hs[size].(prev := prev)], size)
  {
    var ks := hs[size := hs[size].(prev := prev)];
    forall q | q in ks && q < size ensures BlockOk(ks, size, q) {
      assert BlockOk(hs, size, q);
    }
  }

  lemma EndBacks(hs: Links, size: nat, prev: nat)
    requires size in hs && hs[size].next == size && BacksOk(hs, size)
    ensures BacksOk(hs[size := hs[size].(prev := prev)], size)
  {
    var ks := hs[size := hs[size].(prev := prev)];
    forall q | q in ks && 0 < q < size ensures BackOk(ks, q) {
      assert BackOk(hs, q);
    }
  }

  lemma EndPrev(hs: Links, size: nat, prev: nat)
    requires Tiles(hs, size)
    ensures Tiles(hs[size := hs[size].(prev := prev)], size)
  {
    hide Disjoint, BlocksOk, BacksOk;
    SameDisjoint(hs, hs[size := hs[size].(prev := prev)]);
    EndBlocks(hs, size, prev);
    EndBacks(hs, size, prev);
  }

  // ----- the edits and the live allocations

  ghost predicate Live(hs: Links, size: nat, b: Block) {
    b.at in hs && b.at < size && hs[b.at].used && hs[b.at].next == b.end
  }

  lemma UsedIsLive(hs: Links, size: nat)
    ensures forall b :: b in Used(hs, size) <==> Live(hs, size, b)
  {
  }

  lemma MarkUsed(hs: Links, size: nat, p: nat, used: bool)
    requires p in hs && p < size && hs[p].used != used
    ensures var b := Block(p, hs[p].next);
      Used(Mark(hs, p, used), size) == if used then Used(hs, size) + {b} else Used(hs, size) - {b}
  {
    UsedIsLive(hs, size);
    UsedIsLive(Mark(hs, p, used), size);
  }

  lemma MergeUsed(hs: Links, size: nat, p: nat, gone: nat, end: nat)
    requires Adjacent(hs, size, p, gone, end) && !hs[gone].used
    ensures Used(Merge(hs, p, gone, end), size)
         == if hs[p].used then Used(hs, size) - {Block(p, gone)} + {Block(p, end)} else Used(hs, size)
  {
    UsedIsLive(hs, size);
    UsedIsLive(Merge(hs, p, gone, end), size);
  }

  lemma SplitUsed(hs: Links, size: nat, p: nat, m: nat, end: nat)
    requires p in hs && end in hs && p < m < end <= size && (m in hs ==> !hs[m].used)
    ensures Used(Split(hs, size, p, m, end), size)
         == if hs[p].used then Used(hs, size) - {Block(p, hs[p].next)} + {Block(p, m)} else Used(hs, size)
  {
    UsedIsLive(hs, size);
    UsedIsLive(Split(hs, size, p, m, end), size);
  }

  // ----- the edits and the holes

  lemma MarkHoles(hs: Links, size: nat, p: nat, used: bool)
    requires Tiles(hs, size) && NoHoles(hs, size) && p in hs && p < size
    ensures NoHoles(Mark(hs, p, used), size, if used then {} else {p, hs[p].prev})
  {
    var ks := Mark(hs, p, used);
    forall q | q in ks && q < size && (used || (q != p && q != hs[p].prev)) ensures MeetsUsed(ks, q) {
      assert MeetsUsed(hs, q);
      assert BackOk(hs, p) || p == 0;
      assert BlockOk(hs, size, q);
    }
  }

  lemma UseHoles(hs: Links, size: nat, p: nat)
    requires NoHoles(hs, size, {p}) && p in hs
    ensures NoHoles(Mark(hs, p, true), size)
  {
    forall q | q in hs && q < size ensures MeetsUsed(Mark(hs, p, true), q) {
      assert q != p ==> MeetsUsed(hs, q);
    }
  }

  /** Joining two free blocks mends the hole between them. */
  lemma MergeHoles(hs: Links, size: nat, p: nat, gone: nat, end: nat, but: set<nat>)
    requires Adjacent(hs, size, p, gone, end) && !hs[p].used && !hs[gone].used
    requires NoHoles(hs, size, but) && gone !in but
    ensures NoHoles(Merge(hs, p, gone, end), size, but - {p})
  {
    var ks := Merge(hs, p, gone, end);
    forall q | q in ks && q < size && q !in but - {p} ensures MeetsUsed(ks, q) {
      assert q != p ==> MeetsUsed(hs, q);
      assert MeetsUsed(hs, gone);
    }
  }

  /** `mem_free` lowers the cache to the block it frees. */
  lemma FreeBound(hs: Links, size: nat, p: nat, low: nat)
    requires Tiles(hs, size) && p in hs && p < size && hs[p].used && LowerBound(hs, low)
    ensures LowerBound(Mark(hs, p, false), if p < low then p else low)
    ensures (p < low || low == size || FreeAt(hs, low)) ==>
              (!(p < low) && low == size) || FreeAt(Mark(hs, p, false), if p < low then p else low)
  {
    forall q | FreeAt(Mark(hs, p, false), q) ensures (if p < low then p else low) <= q {
      assert q != p ==> FreeAt(hs, q);
    }
  }

  /** The list `mem_init` sets up. */
  lemma FreshOk(size: nat)
    requires HDR + MIN_SIZE <= size && size % MEM_ALIGNMENT == 0
    ensures var hs := map[0 := Header(size, 0, false), size := Header(size, size, true)];
      WellFormed(hs, size) && Lowest(hs, size, 0)
  {
    var hs := map[0 := Header(size, 0, false), size := Header(size, size, true)];
    assert BlockOk(hs, size, 0);
    assert FreeAt(hs, 0);
  }

  /** No cache value needs to change when two free blocks are joined. */
  lemma MergeBound(hs: Links, size: nat, p: nat, gone: nat, end: nat, low: nat)
    requires Adjacent(hs, size, p, gone, end) && !hs[p].used && LowerBound(hs, low)
    ensures low <= p && LowerBound(Merge(hs, p, gone, end), low)
    ensures FreeAt(hs, low) <==> FreeAt(Merge(hs, p, gone, end), low)
  {
    assert FreeAt(hs, p);
    forall q | FreeAt(Merge(hs, p, gone, end), q) ensures low <= q {
      assert FreeAt(hs, q);
    }
  }

  /** No other block ends at m. */
  ghost predicate Skipped(hs: Links, p: nat, m: nat) {
    forall q :: q in hs && q != p ==> hs[q].next != m
  }

  /** No header lies strictly inside a block. */
  lemma InsideNew(hs: Links, size: nat, p: nat, m: nat)
    requires Tiles(hs, size) && p in hs && p < m < hs[p].next
    ensures m !in hs && hs[p].next <= size
  {
    assert p < size ==> BlockOk(hs, size, p);
  }

  lemma InsideSkipped(hs: Links, size: nat, p: nat, m: nat)
    requires Tiles(hs, size) && p in hs && p < m <= hs[p].next && m < size
    ensures Skipped(hs, p, m)
  {
    forall q | q in hs && q != p ensures hs[q].next != m {
      assert q < size ==> BlockOk(hs, size, q);
    }
  }

  lemma SplitHoles(hs: Links, size: nat, p: nat, m: nat, end: nat)
    requires NoHoles(hs, size) && p in hs && end in hs && p < m < end && hs[end].used && m !in hs
    requires Skipped(hs, p, m)
    ensures NoHoles(Split(hs, size, p, m, end), size, if hs[p].used then {} else {p})
  {
    var ks := Split(hs, size, p, m, end);
    forall q | q in ks && q < size && (q != p || hs[p].used) ensures MeetsUsed(ks, q) {
      assert q in hs ==> MeetsUsed(hs, q);
    }
  }

  lemma BoundFits(hs: Links, p: nat, n: nat)
    requires LowerBound(hs, p)
    ensures p in hs && forall q: nat :: q < p ==> !Fits(hs, q, n)
  {
  }

  /** Where a request fits in the block at p, and that nothing begins inside it. */
  lemma FitsHere(hs: Links, size: nat, p: nat, n: nat)
    requires Tiles(hs, size) && p in hs && p < size
    ensures Fits(hs, p, n) <==> !hs[p].used && n <= hs[p].next as int - (p + HDR)
    ensures forall q: nat :: p < q < hs[p].next ==> !Fits(hs, q, n)
  {
  }

  /** No free block lies below the successor of a used block that is a lower bound. */
  lemma NextBound(hs: Links, size: nat, p: nat)
    requires Tiles(hs, size) && LowerBound(hs, p) && p < size && hs[p].used
    ensures LowerBound(hs, hs[p].next) && p < hs[p].next <= size
  {
    assert BlockOk(hs, size, p);
  }

  lemma EndLowest(hs: Links, size: nat)
    requires LowerBound(hs, size)
    ensures Lowest(hs, size, size)
  {
  }

  /** Beyond the scan bound of `mem_malloc` nothing fits. */
  lemma BeyondBound(hs: Links, size: nat, n: nat, ptr: nat)
    requires Tiles(hs, size) && n <= size && size - n <= ptr
    requires forall q: nat :: q < ptr ==> !Fits(hs, q, n)
    ensures NoFit(hs, n)
  {
    forall q: nat | ptr <= q && FreeAt(hs, q) ensures !Fits(hs, q, n) {
      assert q < size ==> BlockOk(hs, size, q);
    }
  }

  // ----- the list `mem_malloc` leaves

  /** The list after taking n bytes from free block p. */
  ghost function Alloc(hs: Links, size: nat, p: nat, n: nat): Links
    requires p in hs && hs[p].next in hs
  {
    Mark(Parted(hs, size, p, n), p, true)
  }

  ghost function Parted(hs: Links, size: nat, p: nat, n: nat): Links
    requires p in hs && hs[p].next in hs
    ensures p in Parted(hs, size, p, n)
  {
    if p + HDR + n + HDR + MIN_SIZE <= hs[p].next then Split(hs, size, p, p + HDR + n, hs[p].next) else hs
  }

  /** What is known about a free block that is large enough. */
  lemma FitsFacts(hs: Links, size: nat, p: nat, n: nat)
    requires WellFormed(hs, size) && Fits(hs, p, n)
    ensures p in hs && p < size && !hs[p].used && hs[p].next in hs && p + HDR + n <= hs[p].next <= size
        && p % MEM_ALIGNMENT == 0
    ensures hs[hs[p].next].used && forall m :: p < m < hs[p].next ==> m !in hs
  {
    assert BlockOk(hs, size, p) && MeetsUsed(hs, p);
  }

  lemma HolesBut(hs: Links, size: nat, but: set<nat>)
    requires NoHoles(hs, size)
    ensures NoHoles(hs, size, but)
  {
    forall p | p in hs && p < size && p !in but ensures MeetsUsed(hs, p) {
    }
  }

  lemma PartedOk(hs: Links, size: nat, p: nat, n: nat)
    requires WellFormed(hs, size) && Fits(hs, p, n) && MIN_SIZE <= n && n % MEM_ALIGNMENT == 0
    ensures hs[p].next in hs && p < size
    ensures Tiles(Parted(hs, size, p, n), size) && NoHoles(Parted(hs, size, p, n), size, {p})
    ensures Used(Parted(hs, size, p, n), size) == Used(hs, size)
    ensures !Parted(hs, size, p, n)[p].used && Parted(hs, size, p, n)[p].next == Carved(p, hs[p].next, n).end
  {
    hide Tiles, NoHoles, Used, Skipped;
    FitsFacts(hs, size, p, n);
    if hs[p].next < p + HDR + n + HDR + MIN_SIZE {
      HolesBut(hs, size, {p});
    }
    if p + HDR + n + HDR + MIN_SIZE <= hs[p].next {
      var m, end := p + HDR + n, hs[p].next;
      SplitOk(hs, size, p, m, end);
      InsideSkipped(hs, size, p, m);
      SplitHoles(hs, size, p, m, end);
      SplitUsed(hs, size, p, m, end);
    }
  }

  lemma AllocOk(hs: Links, size: nat, p: nat, n: nat)
    requires WellFormed(hs, size) && Fits(hs, p, n) && MIN_SIZE <= n && n % MEM_ALIGNMENT == 0
    ensures hs[p].next in hs && WellFormed(Alloc(hs, size, p, n), size)
    ensures Used(Alloc(hs, size, p, n), size) == Used(hs, size) + {Carved(p, hs[p].next, n)}
  {
    PartedOk(hs, size, p, n);
    MarkOk(Parted(hs, size, p, n), size, p, true);
    UseHoles(Parted(hs, size, p, n), size, p);
    MarkUsed(Parted(hs, size, p, n), size, p, true);
  }

  /** The block is split exactly if behind it there is room for another one, which is then free. */
  lemma AllocSplits(hs: Links, size: nat, p: nat, n: nat)
    requires Fits(hs, p, n) && hs[p].next in hs && MIN_SIZE <= n
    ensures var ks, end := Alloc(hs, size, p, n), hs[p].next;
      && p in ks && ks[p].used && n <= ks[p].next as int - (p + HDR) < n + HDR + MIN_SIZE
      && if p + HDR + n + HDR + MIN_SIZE <= end then
           ks[p].next == p + HDR + n && FreeAt(ks, p + HDR + n) && ks[p + HDR + n].next == end
         else
           ks[p].next == end
  {
  }

  /** Allocating leaves every header in place and frees nothing at or below p. */
  lemma AllocFree(hs: Links, size: nat, p: nat, n: nat)
    requires Fits(hs, p, n) && hs[p].next in hs
    ensures hs.Keys <= Alloc(hs, size, p, n).Keys
    ensures forall q :: FreeAt(Alloc(hs, size, p, n), q) ==> q != p && (FreeAt(hs, q) || p < q)
    ensures forall q :: FreeAt(hs, q) && q != p ==> FreeAt(Alloc(hs, size, p, n), q)
  {
  }

  // ----- the list `mem_trim` leaves

  /** A free block starts at e, as the live blocks tell. */
  ghost predicate Open(live: set<Block>, size: nat, e: nat) {
    e != size && forall b :: b in live ==> b.at != e
  }

  /** What is left live of block b when its data is to be cut down to n bytes. */
  ghost function Trimmed(live: set<Block>, size: nat, b: Block, n: nat): Block {
    var end := b.at + HDR + n;
    if end < b.end && (Open(live, size, b.end) || end + HDR + MIN_SIZE <= b.end) then Block(b.at, end) else b
  }

  lemma OpenIs(hs: Links, size: nat, p: nat)
    requires Tiles(hs, size) && p in hs && p < size
    ensures hs[p].next in hs && (Open(Used(hs, size), size, hs[p].next) <==> !hs[hs[p].next].used)
  {
    assert BlockOk(hs, size, p);
    var e := hs[p].next;
    if e < size && hs[e].used {
      assert Block(e, hs[e].next) in Used(hs, size);
    }
  }

  /** A used block p whose data is larger than n. */
  ghost predicate Trimmable(hs: Links, size: nat, p: nat, n: nat) {
    && WellFormed(hs, size) && p in hs && p < size && hs[p].used
    && MIN_SIZE <= n && n % MEM_ALIGNMENT == 0 && p + HDR + n < hs[p].next
  }

  /** A free block follows: its header moves down. */
  lemma TrimIntoFree(hs: Links, size: nat, p: nat, n: nat, next: nat, end: nat)
    requires Trimmable(hs, size, p, n) && hs[p].next == next && next in hs && !hs[next].used && hs[next].next == end
    ensures end in hs && next < end <= size
    ensures Tiles(Split(hs - {next}, size, p, p + HDR + n, end), size)
  {
    assert BlockOk(hs, size, p) && BlockOk(hs, size, next);
    ShiftOk(hs, size, p, p + HDR + n, next, end);
  }

  lemma TrimIntoFreeLive(hs: Links, size: nat, p: nat, n: nat, next: nat, end: nat)
    requires Trimmable(hs, size, p, n) && hs[p].next == next && next in hs && !hs[next].used && hs[next].next == end
    requires end in hs && next < end <= size
    ensures var ks := Split(hs - {next}, size, p, p + HDR + n, end);
      NoHoles(ks, size) && Used(ks, size) == Used(hs, size) - {Block(p, next)} + {Block(p, p + HDR + n)}
  {
    hide Used, Split, BacksOk;
    assert BlockOk(hs, size, p) && MeetsUsed(hs, next);
    InsideSkipped(hs, size, p, p + HDR + n);
    assert p + HDR + n !in hs;
    hide NoHoles, Trimmable, BlocksOk, Disjoint;
    DropFree(hs, size, next);
    SplitHoles(hs - {next}, size, p, p + HDR + n, end);
    SplitUsed(hs - {next}, size, p, p + HDR + n, end);
  }

  lemma DropFree(hs: Links, size: nat, gone: nat)
    requires NoHoles(hs, size) && gone in hs && !hs[gone].used
    ensures NoHoles(hs - {gone}, size) && Used(hs - {gone}, size) == Used(hs, size)
  {
    var rest := hs - {gone};
    forall q | q in rest && q < size ensures MeetsUsed(rest, q) { assert MeetsUsed(hs, q); }
    UsedIsLive(hs, size);
    UsedIsLive(rest, size);
  }

  /** A used block follows and the tail can hold a block of its own. */
  lemma TrimIntoNew(hs: Links, size: nat, p: nat, n: nat, next: nat)
    requires Trimmable(hs, size, p, n) && hs[p].next == next && next in hs && hs[next].used
    requires p + HDR + n + HDR + MIN_SIZE <= next
    ensures var ks := Split(hs, size, p, p + HDR + n, next);
      && WellFormed(ks, size)
      && Used(ks, size) == Used(hs, size) - {Block(p, next)} + {Block(p, p + HDR + n)}
  {
    hide Used, Split, BacksOk, NoHoles;
    var m := p + HDR + n;
    assert BlockOk(hs, size, p);
    SplitOk(hs, size, p, m, next);
    InsideNew(hs, size, p, m);
    InsideSkipped(hs, size, p, m);
    hide BlocksOk, Disjoint, Tiles;
    SplitHoles(hs, size, p, m, next);
    SplitUsed(hs, size, p, m, next);
  }

  /** How `mem_trim` keeps the cache right when the free block behind starts lower. */
  lemma TrimDownBound(hs: Links, size: nat, p: nat, m: nat, mid: nat, end: nat, low: nat)
    requires Tiles(hs, size) && Adjacent(hs, size, p, mid, end) && p < m <= mid && hs[p].used && !hs[mid].used
    requires LowerBound(hs, low)
    ensures var ks, low' := Split(hs - {mid}, size, p, m, end), if low == mid then m else low;
      LowerBound(ks, low') && (low' != low || Lowest(hs, size, low) ==> Lowest(ks, size, low'))
  {
    var ks, low' := Split(hs - {mid}, size, p, m, end), if low == mid then m else low;
    assert FreeAt(hs, mid) && FreeAt(ks, m);
    forall q: nat | FreeAt(ks, q) ensures low' <= q {
      assert q == m || FreeAt(hs, q);
    }
  }

  /** And when the tail becomes a new free block. */
  lemma TrimOffBound(hs: Links, size: nat, p: nat, m: nat, end: nat, low: nat)
    requires p in hs && p < m < end && end in hs && end <= size && hs[p].used && m !in hs
    requires LowerBound(hs, low)
    ensures var ks, low' := Split(hs, size, p, m, end), if m < low then m else low;
      LowerBound(ks, low') && (low' != low || Lowest(hs, size, low) ==> Lowest(ks, size, low'))
  {
    var ks, low' := Split(hs, size, p, m, end), if m < low then m else low;
    assert FreeAt(ks, m);
    forall q: nat | FreeAt(ks, q) ensures low' <= q {
      assert q == m || FreeAt(hs, q);
    }
  }
}
