/**
 LwIP/src/core/mem.c: the first-fit heap. The block list is threaded through the bytes of `ram`
 by the `next` and `prev` offsets of each header; `lfree` caches the lowest free block.
 */
module Mem {
  import opened Bytes
  import opened BlockList

  /** A `void *` handed across the heap interface, as an offset from `ram`. */
  datatype Ptr = Null | At(offset: int)

  // ----- headers inside the heap bytes

  function U16(r: seq<byte>, p: nat): u16
    requires p + 2 <= |r|
  {
    r[p] as int + 256 * r[p + 1] as int
  }

  /** The `struct mem` at offset p. */
  function HeaderAt(r: seq<byte>, p: nat): Header
    requires p + HDR <= |r|
  {
    Header(U16(r, p), U16(r, p + 2), r[p + 4] != 0)
  }

  /** r' is r with the header at p replaced by h; padding inside the header may change. */
  ghost predicate Wrote(r: seq<byte>, r': seq<byte>, p: nat, h: Header) {
    && |r| == |r'| && p + HDR <= |r|
    && (forall k :: 0 <= k < |r| && !(p <= k < p + HDR) ==> r[k] == r'[k])
    && HeaderAt(r', p) == h
  }

  /** The bytes hold these headers. */
  ghost predicate Holds(r: seq<byte>, hs: Links) {
    forall p :: p in hs ==> p + HDR <= |r| && HeaderAt(r, p) == hs[p]
  }

  /** The header at p overlaps no other header. */
  ghost predicate Apart(hs: Links, p: nat) {
    forall q :: q in hs && q != p ==> q + HDR <= p || p + HDR <= q
  }

  lemma HeaderHeld(r: seq<byte>, hs: Links, size: nat, p: nat)
    requires Holds(r, hs) && Tiles(hs, size) && LowerBound(hs, p)
    ensures p in hs && p <= size && p + HDR <= |r| && HeaderAt(r, p) == hs[p]
  {
  }

  lemma HoldsLess(r: seq<byte>, hs: Links, gone: nat)
    requires Holds(r, hs)
    ensures Holds(r, hs - {gone})
  {
  }

  lemma WroteHolds(r: seq<byte>, r': seq<byte>, hs: Links, p: nat, h: Header)
    requires Wrote(r, r', p, h) && Apart(hs, p) && Holds(r, hs - {p})
    ensures Holds(r', hs[p := h])
  {
    forall q | q in hs && q != p ensures q + HDR <= |r| && HeaderAt(r', q) == hs[q] {
      assert q in hs - {p};
    }
  }

  // ----- contents of the live allocations

  ghost predicate InHeap(r: seq<byte>, b: Block) {
    b.at + HDR <= b.end <= |r|
  }

  /** The data bytes of block b. */
  ghost function DataOf(r: seq<byte>, b: Block): seq<byte>
    requires InHeap(r, b)
  {
    r[b.at + HDR..b.end]
  }

  /** Every allocation in `live` has the same data bytes in r and r'. */
  ghost predicate Keeps(r: seq<byte>, r': seq<byte>, live: set<Block>) {
    forall b :: b in live ==> InHeap(r, b) && InHeap(r', b) && DataOf(r, b) == DataOf(r', b)
  }

  /** A header at p does not reach into the data of any block of `live`. */
  ghost predicate Clear(live: set<Block>, p: nat) {
    forall b :: b in live ==> b.end <= p || p <= b.at
  }

  lemma WroteKeeps(r: seq<byte>, r': seq<byte>, p: nat, h: Header, live: set<Block>)
    requires Wrote(r, r', p, h) && Clear(live, p)
    requires forall b :: b in live ==> InHeap(r, b)
    ensures Keeps(r, r', live)
  {
  }

  lemma KeepsSelf(r: seq<byte>, live: set<Block>)
    requires forall b :: b in live ==> InHeap(r, b)
    ensures Keeps(r, r, live)
  {
  }

  lemma KeepsFewer(r: seq<byte>, r': seq<byte>, live: set<Block>, fewer: set<Block>)
    requires Keeps(r, r', live) && fewer <= live
    ensures Keeps(r, r', fewer)
  {
  }

  lemma KeepsTrans(r: seq<byte>, r': seq<byte>, r'': seq<byte>, live: set<Block>)
    requires Keeps(r, r', live) && Keeps(r', r'', live)
    ensures Keeps(r, r'', live)
  {
  }

  lemma HeaderApart(hs: Links, size: nat, p: nat)
    requires Tiles(hs, size) && p in hs
    ensures Apart(hs, p) && Clear(Used(hs, size), p)
  {
    forall q | q in hs && q != p ensures q + HDR <= p || p + HDR <= q {
      assert q < size ==> BlockOk(hs, size, q);
      assert p < size ==> BlockOk(hs, size, p);
    }
  }

  lemma AllInHeap(r: seq<byte>, hs: Links, size: nat)
    requires Tiles(hs, size) && |r| == size + 2 * HDR
    ensures forall b :: b in Used(hs, size) ==> InHeap(r, b)
  {
    forall b | b in Used(hs, size) ensures InHeap(r, b) {
      assert BlockOk(hs, size, b.at);
    }
  }

  // ----- the byte-level effect of inserting a header

  lemma SplitApart(hs: Links, size: nat, p: nat, m: nat, end: nat)
    requires p in hs && p < m < end && end in hs && Tiles(Split(hs, size, p, m, end), size)
    ensures Apart(hs, m) && Apart(hs[m := Header(end, p, false)], p) && Apart(hs[m := Header(end, p, false)], end)
    ensures var live := Used(Split(hs, size, p, m, end), size); Clear(live, m) && Clear(live, p) && Clear(live, end)
  {
    var ks := Split(hs, size, p, m, end);
    assert ks.Keys == hs.Keys + {m};
    HeaderApart(ks, size, m);
    HeaderApart(ks, size, p);
    HeaderApart(ks, size, end);
  }

  lemma CutHolds(r0: seq<byte>, r1: seq<byte>, r2: seq<byte>, r3: seq<byte>,
                 hs: Links, size: nat, p: nat, m: nat, end: nat)
    requires p in hs && p < m < end && end in hs && Tiles(Split(hs, size, p, m, end), size)
    requires |r0| == size + 2 * HDR && Holds(r0, hs)
    requires Wrote(r0, r1, m, Header(end, p, false))
    requires Wrote(r1, r2, p, HeaderAt(r1, p).(next := m))
    requires if end == size then r3 == r2 else end < size && Wrote(r2, r3, end, HeaderAt(r2, end).(prev := m))
    ensures var ks := Split(hs, size, p, m, end); Holds(r3, ks) && Keeps(r0, r3, Used(ks, size))
  {
    var ks, hs1 := Split(hs, size, p, m, end), hs[m := Header(end, p, false)];
    SplitApart(hs, size, p, m, end);
    WroteHolds(r0, r1, hs, m, hs1[m]);
    var hs2 := hs1[p := hs1[p].(next := m)];
    WroteHolds(r1, r2, hs1, p, hs2[p]);
    AllInHeap(r0, ks, size);
    WroteKeeps(r0, r1, m, hs1[m], Used(ks, size));
    WroteKeeps(r1, r2, p, hs2[p], Used(ks, size));
    KeepsTrans(r0, r1, r2, Used(ks, size));
    if end != size {
      WroteHolds(r2, r3, hs2, end, hs2[end].(prev := m));
      WroteKeeps(r2, r3, end, hs2[end].(prev := m), Used(ks, size));
      KeepsTrans(r0, r2, r3, Used(ks, size));
    }
  }

  // ----- bytes stored by the owner of a block

  lemma DataOutside(hs: Links, size: nat, b: Block, x: nat, p: nat)
    requires Tiles(hs, size) && b in Used(hs, size) && b.at + HDR <= x < b.end && p in hs
    ensures x < p || p + HDR <= x
  {
    assert BlockOk(hs, size, b.at);
    assert p < size ==> BlockOk(hs, size, p);
  }

  /** A byte of one live block is in no header and in no other live block. */
  lemma ByteStored(r: seq<byte>, hs: Links, size: nat, b: Block, x: nat, v: byte)
    requires |r| == size + 2 * HDR && Tiles(hs, size) && Holds(r, hs) && b in Used(hs, size) && b.at + HDR <= x < b.end
    ensures x < |r| && InHeap(r, b) && Holds(r[x := v], hs) && Keeps(r, r[x := v], Used(hs, size) - {b})
    ensures InHeap(r[x := v], b) && DataOf(r[x := v], b) == DataOf(r, b)[x - b.at - HDR := v]
  {
    AllInHeap(r, hs, size);
    forall p | p in hs ensures p + HDR <= |r| && HeaderAt(r[x := v], p) == hs[p] {
      DataOutside(hs, size, b, x, p);
    }
    forall o | o in Used(hs, size) - {b} ensures DataOf(r[x := v], o) == DataOf(r, o) {
      LiveDisjoint(hs, size, b, o);
    }
  }

  // ----- blocks owned by other contexts

  /** What another context does with a block it owns. */
  datatype Change = Free(r: Ptr) | Trim(r: Ptr, newsize: u16)

  ghost predicate AllocatedIn(hs: Links, size: nat, r: Ptr) {
    r.At? && HDR <= r.offset && (r.offset - HDR) in hs && r.offset - HDR < size && hs[r.offset - HDR].used
  }

  /** Changes to live blocks, each of which is not freed before its last change. */
  ghost predicate OwnedIn(hs: Links, size: nat, changes: seq<Change>) {
    && (forall i :: 0 <= i < |changes| ==> AllocatedIn(hs, size, changes[i].r))
    && (forall i, j :: 0 <= i < j < |changes| && changes[i].r == changes[j].r ==> changes[i].Trim?)
  }

  /** No change is about block b. */
  ghost predicate Spares(changes: seq<Change>, b: Block) {
    forall i :: 0 <= i < |changes| ==> changes[i].r != At(b.at + HDR)
  }

  /** The live blocks after a change. */
  ghost function Made(live: set<Block>, size: nat, c: Change): set<Block> {
    (set b | b in live && At(b.at + HDR) != c.r)
    + if c.Free? then {} else set b | b in live && At(b.at + HDR) == c.r :: Trimmed(live, size, b, Request(c.newsize))
  }

  ghost function After(live: set<Block>, size: nat, changes: seq<Change>): set<Block>
    decreases |changes|
  {
    if changes == [] then live else After(Made(live, size, changes[0]), size, changes[1..])
  }

  lemma {:induction false} AfterAppend(live: set<Block>, size: nat, a: seq<Change>, b: seq<Change>)
    ensures After(live, size, a + b) == After(After(live, size, a), size, b)
    decreases |a|
  {
    if a == [] {
      assert a + b == b;
    } else {
      assert (a + b)[1..] == a[1..] + b;
      AfterAppend(Made(live, size, a[0]), size, a[1..], b);
    }
  }

  lemma AfterNone(live: set<Block>, size: nat)
    ensures After(live, size, []) == live
  {
  }

  lemma AfterTrans(live: set<Block>, size: nat, changes: seq<Change>, j: nat, k: nat)
    requires j + k <= |changes|
    ensures After(After(live, size, changes[..j]), size, changes[j..][..k]) == After(live, size, changes[..j + k])
    ensures changes[j..][k..] == changes[j + k..]
  {
    assert changes[..j + k] == changes[..j] + changes[j..][..k];
    AfterAppend(live, size, changes[..j], changes[j..][..k]);
  }

  lemma {:induction false} AfterSpares(live: set<Block>, size: nat, changes: seq<Change>, b: Block)
    requires b in live && Spares(changes, b)
    ensures b in After(live, size, changes)
    decreases |changes|
  {
    if changes != [] {
      AfterSpares(Made(live, size, changes[0]), size, changes[1..], b);
    }
  }

  /** Block b is a, or a cut short. */
  ghost predicate Covers(a: Block, b: Block) {
    a.at == b.at && (b == a || a.at + HDR <= b.end <= a.end)
  }

  /** Every block of `small` is one of `live`, or one cut short. */
  ghost predicate Within(small: set<Block>, live: set<Block>) {
    forall b :: b in small ==> exists a :: a in live && Covers(a, b)
  }

  lemma TrimmedCovers(live: set<Block>, size: nat, a: Block, n: nat)
    ensures Covers(a, Trimmed(live, size, a, n))
  {
  }

  lemma TrimmedSame(live: set<Block>, size: nat, a: Block, n: nat)
    requires a in live && a.Data() <= n
    ensures live - {a} + {Trimmed(live, size, a, n)} == live
  {
  }

  lemma MadeWithin(live: set<Block>, size: nat, c: Change)
    ensures Within(Made(live, size, c), live)
  {
    forall b | b in Made(live, size, c) ensures exists a :: a in live && Covers(a, b) {
      if b in live {
        assert Covers(b, b);
      } else {
        var a :| a in live && b == Trimmed(live, size, a, Request(c.newsize));
        TrimmedCovers(live, size, a, Request(c.newsize));
      }
    }
  }

  lemma WithinTrans(x: set<Block>, y: set<Block>, z: set<Block>)
    requires Within(x, y) && Within(y, z)
    ensures Within(x, z)
  {
    forall b | b in x ensures exists a :: a in z && Covers(a, b) {
      var c :| c in y && Covers(c, b);
      var a :| a in z && Covers(a, c);
      assert Covers(a, b);
    }
  }

  lemma {:induction false} AfterWithin(live: set<Block>, size: nat, changes: seq<Change>)
    ensures Within(After(live, size, changes), live)
    decreases |changes|
  {
    if changes == [] {
      forall b | b in live ensures exists a :: a in live && Covers(a, b) {
        assert Covers(b, b);
      }
    } else {
      hide Within, Made;
      AfterWithin(Made(live, size, changes[0]), size, changes[1..]);
      MadeWithin(live, size, changes[0]);
      WithinTrans(After(live, size, changes), Made(live, size, changes[0]), live);
    }
  }

  /** A block cut short holds the first bytes of the block. */
  lemma CoveredData(r: seq<byte>, a: Block, b: Block)
    requires InHeap(r, a) && Covers(a, b)
    ensures InHeap(r, b) && 0 <= b.Data() <= a.Data() && DataOf(r, b) == DataOf(r, a)[..b.Data()]
  {
    var x, n := a.at + HDR, b.end - b.at - HDR;
    assert r[x..a.end][..n] == r[x..x + n];
  }

  lemma KeepsWithin(r: seq<byte>, r': seq<byte>, live: set<Block>, small: set<Block>)
    requires Keeps(r, r', live) && Within(small, live)
    ensures Keeps(r, r', small)
  {
    hide Covers, DataOf;
    forall b | b in small ensures InHeap(r, b) && InHeap(r', b) && DataOf(r, b) == DataOf(r', b) {
      var a :| a in live && Covers(a, b);
      CoveredData(r, a, b);
      CoveredData(r', a, b);
    }
  }

  /** Contents survive changes made between two points. */
  lemma KeepsAfter(r: seq<byte>, r': seq<byte>, r'': seq<byte>, live: set<Block>, size: nat, changes: seq<Change>)
    requires Keeps(r, r', live) && Keeps(r', r'', After(live, size, changes))
    ensures Keeps(r, r'', After(live, size, changes))
  {
    AfterWithin(live, size, changes);
    hide Keeps, Within;
    KeepsWithin(r, r', live, After(live, size, changes));
    KeepsTrans(r, r', r'', After(live, size, changes));
  }

  lemma RestWithin(hs: Links, size: nat, live: set<Block>, b: Block, changes: seq<Change>)
    requires b in Used(hs, size) && Used(hs, size) == After(live + {b}, size, changes)
    ensures Within(Used(hs, size) - {b}, live)
  {
    UsedIsLive(hs, size);
    AfterWithin(live + {b}, size, changes);
    forall x | x in Used(hs, size) - {b} ensures exists a :: a in live && Covers(a, x) {
      var a :| a in live + {b} && Covers(a, x);
    }
  }

  /** The same with contents kept up to the allocation. */
  lemma KeepsTwice(r: seq<byte>, r': seq<byte>, r'': seq<byte>, hs: Links, size: nat, live: set<Block>, b: Block,
          changes: seq<Change>)
    requires Keeps(r, r', live) && b in Used(hs, size) && Used(hs, size) == After(live + {b}, size, changes)
    requires Keeps(r', r'', Used(hs, size) - {b})
    ensures Keeps(r, r'', Used(hs, size) - {b})
  {
    RestWithin(hs, size, live, b, changes);
    hide Within, Used, After, Keeps;
    KeepsWithin(r, r', live, Used(hs, size) - {b});
    KeepsTrans(r, r', r'', Used(hs, size) - {b});
  }

  /** A block allocated in between is the only one whose contents are not those of before. */
  lemma KeepsTaken(r: seq<byte>, r': seq<byte>, r'': seq<byte>, hs: Links, size: nat, live: set<Block>, b: Block,
          changes: seq<Change>)
    requires Keeps(r, r', live) && b in Used(hs, size) && Used(hs, size) == After(live + {b}, size, changes)
    requires Keeps(r', r'', Used(hs, size))
    ensures Keeps(r, r'', Used(hs, size) - {b})
  {
    RestWithin(hs, size, live, b, changes);
    var rest := Used(hs, size) - {b};
    hide Within, Used, After;
    KeepsWithin(r, r', live, rest);
    KeepsFewer(r', r'', Used(hs, size), rest);
    KeepsTrans(r, r', r'', rest);
  }

  lemma TargetSize(hs: Links, size: nat, p: nat)
    requires Tiles(hs, size) && p in hs && p < size
    ensures var d := hs[p].next - p - HDR; MIN_SIZE <= d < size && d % MEM_ALIGNMENT == 0
  {
    hide Disjoint, BacksOk;
    assert BlockOk(hs, size, p);
    var q := hs[p].next;
    assert q % MEM_ALIGNMENT == 0 by {
      assert q < size ==> BlockOk(hs, size, q);
    }
    hide BlocksOk, BlockOk;
    AlignedGap(p, q);
  }

  lemma AlignedGap(p: nat, q: nat)
    requires p % MEM_ALIGNMENT == 0 && q % MEM_ALIGNMENT == 0
    ensures (q - p - HDR) % MEM_ALIGNMENT == 0
  {
  }

  /** A live block is inside the heap. */
  lemma TargetLegal(hs: Links, size: nat, r: Ptr)
    requires Tiles(hs, size) && AllocatedIn(hs, size, r)
    ensures 0 <= r.offset < size && Block(r.offset - HDR, hs[r.offset - HDR].next) in Used(hs, size)
  {
    assert BlockOk(hs, size, r.offset - HDR);
  }

  /** The live blocks are what the change makes of them. */
  lemma ChangeMade(hs: Links, live: set<Block>, size: nat, c: Change)
    requires AllocatedIn(hs, size, c.r)
    requires var used, b := Used(hs, size), Block(c.r.offset - HDR, hs[c.r.offset - HDR].next);
      live == if c.Free? then used - {b} else used - {b} + {Trimmed(used, size, b, Request(c.newsize))}
    ensures live == Made(Used(hs, size), size, c)
  {
    hide Trimmed;
    var used, b := Used(hs, size), Block(c.r.offset - HDR, hs[c.r.offset - HDR].next);
    UsedIsLive(hs, size);
    assert forall x :: x in used && At(x.at + HDR) == c.r ==> x == b;
    assert (set x | x in used && At(x.at + HDR) != c.r) == used - {b};
    if c.Trim? {
      var n := Request(c.newsize);
      assert (set x | x in used && At(x.at + HDR) == c.r :: Trimmed(used, size, x, n)) == {Trimmed(used, size, b, n)};
    }
  }

  /** The first change leaves the blocks of the others live. */
  lemma OwnedRest(hs: Links, ks: Links, size: nat, changes: seq<Change>)
    requires OwnedIn(hs, size, changes) && changes != []
    requires Used(ks, size) == Made(Used(hs, size), size, changes[0])
    ensures OwnedIn(ks, size, changes[1..])
  {
    UsedIsLive(ks, size);
    forall i | 1 <= i < |changes| ensures AllocatedIn(ks, size, changes[i].r) {
      var p := changes[i].r.offset - HDR;
      var b := Block(p, hs[p].next);
      assert b in Used(hs, size);
      if changes[i].r == changes[0].r {
        assert Trimmed(Used(hs, size), size, b, Request(changes[0].newsize)) in Used(ks, size);
      } else {
        assert b in Used(ks, size);
      }
    }
  }

  /** Allocating the free block p leaves owned blocks owned; none of them is the new one. */
  lemma OwnedGrows(hs: Links, ks: Links, size: nat, changes: seq<Change>, p: nat)
    requires OwnedIn(hs, size, changes) && FreeAt(hs, p) && Used(hs, size) <= Used(ks, size)
    ensures OwnedIn(ks, size, changes) && forall end :: Spares(changes, Block(p, end))
  {
    forall i | 0 <= i < |changes| ensures AllocatedIn(ks, size, changes[i].r) {
      var q := changes[i].r.offset - HDR;
      assert Block(q, hs[q].next) in Used(ks, size);
    }
  }

  /** A block taken from a free one is new, and the list records where it ends. */
  lemma FreshTarget(mid: Links, ks: Links, size: nat, p: nat, n: nat)
    requires Tiles(mid, size) && Tiles(ks, size) && Fits(mid, p, n)
    requires Used(ks, size) == Used(mid, size) + {Carved(p, mid[p].next, n)}
    ensures Carved(p, mid[p].next, n) !in Used(mid, size)
    ensures AllocatedIn(ks, size, At(p + HDR)) && p + HDR < size && ks[p].next == Carved(p, mid[p].next, n).end
  {
    UsedIsLive(mid, size);
    UsedIsLive(ks, size);
    assert BlockOk(ks, size, p);
  }

  lemma PlugMended(hs: Links, size: nat, p: nat)
    requires p in hs && NoHoles(hs, size, {p, hs[p].prev}) && MeetsUsed(hs, p)
    ensures NoHoles(hs, size, {hs[p].prev} - {p})
  {
  }

  lemma PrevMended(hs: Links, size: nat, p: nat)
    requires p in hs && NoHoles(hs, size, {hs[p].prev} - {p}) && Tiles(hs, size) && p < size
    requires hs[p].prev == p || hs[p].prev !in hs || hs[hs[p].prev].used
    ensures NoHoles(hs, size)
  {
    forall q | q in hs && q < size ensures MeetsUsed(hs, q) {
      assert q != hs[p].prev ==> MeetsUsed(hs, q);
    }
  }

  // ----- request sizes

  /** LWIP_MEM_ALIGN_SIZE stored back into the 16-bit `mem_size_t`. */
  function AlignSize(n: u16): u16 {
    (n + MEM_ALIGNMENT - 1) / MEM_ALIGNMENT * MEM_ALIGNMENT % 0x1_0000
  }

  /** The data size a request for n bytes is served with. */
  function Request(n: u16): (s: u16)
    ensures MIN_SIZE <= s && s % MEM_ALIGNMENT == 0
  {
    if AlignSize(n) < MIN_SIZE then MIN_SIZE else AlignSize(n)
  }

  /** Rounding up covers the request exactly as long as it does not wrap around. */
  lemma RequestCovers(n: u16)
    ensures n <= Request(n) <==> n <= 0xffff - (MEM_ALIGNMENT - 1)
    ensures n <= Request(n) && MIN_SIZE < n ==> Request(n) < n + MEM_ALIGNMENT
    ensures n <= MIN_SIZE || 0xffff - (MEM_ALIGNMENT - 1) < n ==> Request(n) == MIN_SIZE
  {
  }

  lemma RequestAligned(n: u16)
    requires n % MEM_ALIGNMENT == 0
    ensures Request(n) == if n < MIN_SIZE then MIN_SIZE else n
  {
  }

  /** A block taken for n bytes holds them exactly as long as rounding up does not wrap around. */
  lemma CarvedCovers(hs: Links, p: nat, n: u16)
    requires Fits(hs, p, Request(n)) && 0 < n
    ensures n <= Carved(p, hs[p].next, Request(n)).Data() <==> n <= 0xffff - (MEM_ALIGNMENT - 1)
  {
    RequestCovers(n);
  }

  /** The list records where a block that has been taken ends. */
  lemma TakenTarget(mid: Links, hs: Links, size: nat, p: nat, n: nat)
    requires Fits(mid, p, n) && Carved(p, mid[p].next, n) in Used(hs, size)
    ensures AllocatedIn(hs, size, At(p + HDR)) && Block(p, hs[p].next) == Carved(p, mid[p].next, n)
  {
    UsedIsLive(hs, size);
  }

  /**
   A live block cut down to n bytes ends where asked, with
   a free block behind, if that can be; otherwise it stays.
   */
  lemma CutTarget(hs: Links, ks: Links, size: nat, p: nat, n: nat)
    requires Tiles(hs, size) && Tiles(ks, size) && p in hs && p < size && hs[p].used && p + HDR + n < hs[p].next
    requires var b := Block(p, hs[p].next);
      Used(ks, size) == Used(hs, size) - {b} + {Trimmed(Used(hs, size), size, b, n)}
    ensures hs[p].next in hs && AllocatedIn(ks, size, At(p + HDR))
    ensures if !hs[hs[p].next].used || p + HDR + n + HDR + MIN_SIZE <= hs[p].next then
        ks[p].next == p + HDR + n && FreeAt(ks, p + HDR + n)
      else
        ks[p].next == hs[p].next
  {
    OpenIs(hs, size, p);
    var b, e := Block(p, hs[p].next), p + HDR + n;
    assert Trimmed(Used(hs, size), size, b, n) in Used(ks, size);
    UsedIsLive(ks, size);
    UsedIsLive(hs, size);
    assert BlockOk(ks, size, p) && BlockOk(hs, size, p);
    if ks[p].next == e {
      var behind := Block(e, ks[e].next);
      assert behind in Used(ks, size) <==> ks[e].used;
      assert behind !in Used(hs, size);
    }
  }

  /** A block lies inside the heap. */
  lemma FitsWhole(hs: Links, size: nat, p: nat)
    requires Tiles(hs, size) && FreeAt(hs, p)
    ensures p + HDR <= hs[p].next <= size
  {
    assert p < size ==> BlockOk(hs, size, p);
  }

  /**
   NULL says that a block of d bytes is too small for n, as long
   as rounding up does not wrap around; then it never does.
   */
  lemma TrimCovers(d: nat, size: nat, n: u16)
    requires MIN_SIZE <= d < size <= 64000 && d % MEM_ALIGNMENT == 0
    ensures ((size < Request(n) || d < Request(n)) <==> d < n) <==> n <= 0xffff - (MEM_ALIGNMENT - 1)
  {
    var k := (n + MEM_ALIGNMENT - 1) / MEM_ALIGNMENT;
    assert d == d / MEM_ALIGNMENT * MEM_ALIGNMENT;
    assert n <= k * MEM_ALIGNMENT < n + MEM_ALIGNMENT;
  }

  class Heap {
    /** MEM_SIZE_ALIGNED. */
    const size: nat
    const ram: array<byte>
    /** LWIP_ALLOW_MEM_FREE_FROM_OTHER_CONTEXT. */
    const otherContext: bool
    var lfree: nat
    var memFreeCount: bool
    /** The headers the bytes of `ram` currently hold. */
    ghost var links: Links

    ghost predicate Framed()
      reads this, ram
    {
      && ram.Length == size + 2 * HDR && size <= 64000
      && Tiles(links, size) && Holds(ram[..], links)
    }

    /** What holds whenever the heap is unlocked, even in the middle of `mem_malloc`. */
    ghost predicate Sound()
      reads this, ram
    {
      Framed() && NoHoles(links, size) && LowerBound(links, lfree)
    }

    ghost predicate Exact()
      reads this
    {
      lfree == size || FreeAt(links, lfree)
    }

    ghost predicate Valid()
      reads this, ram
    {
      Sound() && Exact()
    }

    ghost function Live(): set<Block>
      reads this
    {
      Used(links, size)
    }

    // ----- header access

    /** The fields of the `struct mem` at p. */
    method Get(p: nat) returns (h: Header)
      requires Framed() && p in links
      ensures h == links[p] && p <= size && (p == size ==> h.used)
      ensures p < size ==>
          BlockOk(links, size, p) && h.prev in links && if p == 0 then h.prev == 0 else BackOk(links, p)
      ensures forall b :: b in Live() ==> InHeap(ram[..], b)
    {
      AllInHeap(ram[..], links, size);
      assert p < size ==> BlockOk(links, size, p);
      assert 0 < p < size ==> BackOk(links, p);
      h := HeaderAt(ram[..], p);
    }

    method SetNext(p: nat, v: u16)
      requires p + HDR <= ram.Length
      modifies ram
      ensures Wrote(old(ram[..]), ram[..], p, HeaderAt(old(ram[..]), p).(next := v))
    {
      ram[p], ram[p + 1] := v % 256, v / 256;
    }

    method SetPrev(p: nat, v: u16)
      requires p + HDR <= ram.Length
      modifies ram
      ensures Wrote(old(ram[..]), ram[..], p, HeaderAt(old(ram[..]), p).(prev := v))
    {
      ram[p + 2], ram[p + 3] := v % 256, v / 256;
    }

    method SetUsed(p: nat, used: bool)
      requires p + HDR <= ram.Length
      modifies ram
      ensures Wrote(old(ram[..]), ram[..], p, HeaderAt(old(ram[..]), p).(used := used))
    {
      ram[p + 4] := if used then 1 else 0;
    }

    method SetHeader(p: nat, next: u16, prev: u16, used: bool)
      requires p + HDR <= ram.Length
      modifies ram
      ensures Wrote(old(ram[..]), ram[..], p, Header(next, prev, used))
    {
      SetUsed(p, used);
      SetNext(p, next);
      SetPrev(p, prev);
    }

    /** One of the two merges of `plug_holes`: block p absorbs the free block behind it. */
    method Join(p: nat, gone: nat, ghost but: set<nat>)
      requires Framed() && p in links && gone in links && Adjacent(links, size, p, gone, links[gone].next)
      requires !links[p].used && !links[gone].used
      requires NoHoles(links, size, but) && gone !in but && LowerBound(links, lfree)
      modifies ram, `links, `lfree
      ensures Framed() && NoHoles(links, size, but - {p}) && LowerBound(links, lfree)
      ensures old(Exact()) || lfree != old(lfree) ==> Exact()
      ensures links == Merge(old(links), p, gone, old(links)[gone].next)
      ensures Live() == old(Live()) && Keeps(old(ram[..]), ram[..], Live())
    {
      if lfree == gone {
        lfree := p;
      }
      MergeBound(links, size, p, gone, links[gone].next, old(lfree));
      MergeHoles(links, size, p, gone, links[gone].next, but);
      Unlink(p, gone);
    }

    method Unlink(p: nat, gone: nat)
      requires Framed() && p in links && gone in links && Adjacent(links, size, p, gone, links[gone].next)
      requires !links[p].used && !links[gone].used
      modifies ram, `links
      ensures Framed()
      ensures links == Merge(old(links), p, gone, old(links)[gone].next)
      ensures Live() == old(Live()) && Keeps(old(ram[..]), ram[..], Live())
    {
      ghost var r0, end0 := ram[..], links[gone].next;
      HeaderApart(links, size, p);
      HeaderApart(links, size, end0);
      AllInHeap(r0, links, size);
      MergeOk(links, size, p, gone, end0);
      MergeUsed(links, size, p, gone, end0);

      SetNext(p, HeaderAt(ram[..], gone).next);
      WroteHolds(r0, ram[..], links, p, links[p].(next := end0));
      WroteKeeps(r0, ram[..], p, links[p].(next := end0), Live());
      ghost var r1, links1 := ram[..], links[p := links[p].(next := end0)];
      SetPrev(HeaderAt(ram[..], gone).next, p);
      WroteHolds(r1, ram[..], links1, end0, links1[end0].(prev := p));
      WroteKeeps(r1, ram[..], end0, links1[end0].(prev := p), Live());
      links := Merge(links, p, gone, end0);
    }

    method PlugHoles(mem: nat)
      requires Framed() && mem in links && mem < size && !links[mem].used
      requires NoHoles(links, size, {mem, links[mem].prev}) && LowerBound(links, lfree)
      modifies ram, `links, `lfree
      ensures Sound()
      ensures old(Exact()) || lfree != old(lfree) ==> Exact()
      ensures Live() == old(Live()) && Keeps(old(ram[..]), ram[..], Live())
    {
      hide Tiles, NoHoles, Holds, Keeps, LowerBound, FreeAt, Used;
      var m := Get(mem);
      var n := Get(m.next);
      if mem != m.next && !n.used && m.next != size {
        Join(mem, m.next, {mem, m.prev});
        assert {mem, m.prev} - {mem} == {m.prev} - {mem};
      } else {
        assert m.next == size ==> links[m.next].used;
        PlugMended(links, size, mem);
      }
      ghost var r1 := ram[..];
      m := Get(mem);
      var p := Get(m.prev);
      if m.prev != mem && !p.used {
        assert {m.prev} - {mem} == {m.prev} && {m.prev} - {m.prev} == {};
        Join(m.prev, mem, {m.prev});
      } else {
        PrevMended(links, size, mem);
      }
      KeepsTrans(old(ram[..]), r1, ram[..], Live());
    }

    /** `mem_init`: the whole heap is one free block. */
    constructor (size: nat, otherContext: bool)
      requires HDR + MIN_SIZE <= size <= 64000 && size % MEM_ALIGNMENT == 0
      ensures Valid() && this.size == size && this.otherContext == otherContext
      ensures links == map[0 := Header(size, 0, false), size := Header(size, size, true)] && lfree == 0
      ensures fresh(ram)
    {
      this.size := size;
      this.otherContext := otherContext;
      this.memFreeCount := false;
      this.lfree := 0;
      ram := new byte[size + 2 * HDR](_ => 0);
      links := map[0 := Header(size, 0, false), size := Header(size, size, true)];
      new;
      SetHeader(0, size, 0, false);
      ghost var r0 := ram[..];
      SetHeader(size, size, size, true);
      WroteHolds(r0, ram[..], map[0 := Header(size, 0, false)], size, Header(size, size, true));
      FreshOk(size);
    }

    /** r points at the data of a live allocation. */
    ghost predicate Allocated(r: Ptr)
      reads this
    {
      AllocatedIn(links, size, r)
    }

    /** NULL and pointers outside the heap are turned away before anything is touched. */
    predicate Illegal(r: Ptr) {
      r.Null? || r.offset < 0 || size <= r.offset
    }

    /** The allocation r points at. */
    ghost function Target(r: Ptr): Block
      requires Allocated(r)
      reads this
    {
      Block(r.offset - HDR, links[r.offset - HDR].next)
    }

    method MemFree(rmem: Ptr)
      requires Sound() && (Illegal(rmem) || Allocated(rmem))
      modifies this, ram
      ensures Sound()
      ensures old(Exact()) || lfree != old(lfree) ==> Exact()
      ensures Illegal(rmem) ==> links == old(links) && lfree == old(lfree) && ram[..] == old(ram[..])
      ensures !Illegal(rmem) ==> Live() == old(Live()) - {old(Target(rmem))} && Keeps(old(ram[..]), ram[..], Live())
      ensures memFreeCount == (old(memFreeCount) || (otherContext && !Illegal(rmem)))
    {
      hide Tiles, Holds, NoHoles, LowerBound, FreeAt, Used, Keeps;
      if Illegal(rmem) {
        return;
      }
      FreeBlock(rmem.offset - HDR);
      if otherContext {
        memFreeCount := true;
      }
    }

    /** The protected part of `mem_free`. */
    method FreeBlock(mem: nat)
      requires Sound() && mem in links && mem < size && links[mem].used
      modifies ram, `links, `lfree
      ensures Sound()
      ensures old(Exact()) || lfree != old(lfree) ==> Exact()
      ensures Live() == old(Live()) - {Block(mem, old(links)[mem].next)} && Keeps(old(ram[..]), ram[..], Live())
    {
      FreeBound(links, size, mem, lfree);
      MarkFree(mem);
      ghost var r1 := ram[..];
      if mem < lfree {
        lfree := mem;
      }
      PlugHoles(mem);
      KeepsTrans(old(ram[..]), r1, ram[..], Live());
    }

    method MarkFree(mem: nat)
      requires Framed() && NoHoles(links, size) && mem in links && mem < size && links[mem].used
      modifies ram, `links
      ensures Framed() && links == Mark(old(links), mem, false)
      ensures NoHoles(links, size, {mem, links[mem].prev})
      ensures Live() == old(Live()) - {Block(mem, links[mem].next)} && Keeps(old(ram[..]), ram[..], Live())
    {
      HeaderApart(links, size, mem);
      AllInHeap(ram[..], links, size);
      MarkHoles(links, size, mem, false);
      MarkOk(links, size, mem, false);
      MarkUsed(links, size, mem, false);
      SetUsed(mem, false);
      WroteHolds(old(ram[..]), ram[..], links, mem, links[mem].(used := false));
      WroteKeeps(old(ram[..]), ram[..], mem, links[mem].(used := false), Live());
      links := Mark(links, mem, false);
    }

    /**
     A new header at ptr2 inside block mem, whose upper part up
     to `end` becomes a free block; hs are the headers that stay.
     */
    method Cut(mem: nat, ptr2: nat, end: nat, ghost hs: Links)
      requires Framed() && Holds(ram[..], hs)
      requires mem in hs && mem < ptr2 < end <= size && end in hs && Tiles(Split(hs, size, mem, ptr2, end), size)
      modifies ram, `links
      ensures Framed() && links == Split(hs, size, mem, ptr2, end)
      ensures Keeps(old(ram[..]), ram[..], Live())
    {
      hide Tiles, Holds, Keeps, Wrote, HeaderAt, Split, Used;
      SetHeader(ptr2, end, mem, false);
      ghost var r1 := ram[..];
      SetNext(mem, ptr2);
      ghost var r2 := ram[..];
      if end != size {
        SetPrev(end, ptr2);
      }
      CutHolds(old(ram[..]), r1, r2, ram[..], hs, size, mem, ptr2, end);
      links := Split(hs, size, mem, ptr2, end);
    }

    // ----- mem_trim

    /** The block behind is free: its header moves down to where the trimmed block now ends. */
    method TrimDown(mem: nat, newsize: nat, mem2: nat, next: nat)
      requires Sound() && Trimmable(links, size, mem, newsize)
      requires Adjacent(links, size, mem, mem2, next) && !links[mem2].used && Holds(ram[..], links - {mem2})
      modifies ram, `links, `lfree
      ensures Sound() && Keeps(old(ram[..]), ram[..], Live())
      ensures old(Exact()) || lfree != old(lfree) ==> Exact()
      ensures Live() == old(Live()) - {Block(mem, mem2)} + {Block(mem, mem + HDR + newsize)}
    {
      hide Tiles, NoHoles, Holds, Keeps, LowerBound, FreeAt, Used, Split;
      var ptr2 := mem + HDR + newsize;
      TrimIntoFree(links, size, mem, newsize, mem2, next);
      TrimIntoFreeLive(links, size, mem, newsize, mem2, next);
      TrimDownBound(links, size, mem, ptr2, mem2, next, lfree);
      Cut(mem, ptr2, next, links - {mem2});
      if lfree == mem2 {
        lfree := ptr2;
      }
    }

    /** The block behind is used: the tail becomes a free block of its own. */
    method TrimOff(mem: nat, newsize: nat, mem2: nat)
      requires Sound() && Trimmable(links, size, mem, newsize)
      requires links[mem].next == mem2 && mem2 in links && links[mem2].used
          && mem + HDR + newsize + HDR + MIN_SIZE <= mem2 <= size
      requires mem + HDR + newsize !in links
      modifies ram, `links, `lfree
      ensures Sound() && Keeps(old(ram[..]), ram[..], Live())
      ensures old(Exact()) || lfree != old(lfree) ==> Exact()
      ensures Live() == old(Live()) - {Block(mem, mem2)} + {Block(mem, mem + HDR + newsize)}
    {
      hide Tiles, NoHoles, Holds, Keeps, LowerBound, FreeAt, Used, Split;
      var ptr2 := mem + HDR + newsize;
      TrimIntoNew(links, size, mem, newsize, mem2);
      TrimOffBound(links, size, mem, ptr2, mem2, lfree);
      Cut(mem, ptr2, mem2, links);
      if ptr2 < lfree {
        lfree := ptr2;
      }
    }

    /** The locked part of `mem_trim`. */
    method TrimBlock(mem: nat, newsize: nat)
      requires Sound() && Trimmable(links, size, mem, newsize)
      modifies ram, `links, `lfree
      ensures Sound() && Keeps(old(ram[..]), ram[..], Live())
      ensures old(Exact()) || lfree != old(lfree) ==> Exact()
      ensures var b := Block(mem, old(links)[mem].next);
        Live() == old(Live()) - {b} + {Trimmed(old(Live()), size, b, newsize)}
    {
      hide Tiles, NoHoles, Holds, Keeps, LowerBound, FreeAt, Used, Open;
      OpenIs(links, size, mem);
      var m := Get(mem);
      var m2 := Get(m.next);
      if !m2.used {
        HoldsLess(ram[..], links, m.next);
        TrimDown(mem, newsize, m.next, m2.next);
      } else if mem + HDR + newsize + HDR + MIN_SIZE <= m.next {
        InsideNew(links, size, mem, mem + HDR + newsize);
        TrimOff(mem, newsize, m.next);
      } else {
        TargetLegal(links, size, At(mem + HDR));
        KeepsSelf(ram[..], Live());
      }
    }

    /** `mem_trim`: cuts an allocation down to newsize bytes, keeping its first bytes; it never grows one. */
    method MemTrim(rmem: Ptr, newsize: u16) returns (r: Ptr)
      requires Sound() && (Illegal(rmem) || Allocated(rmem))
      modifies this, ram
      ensures Sound() && Keeps(old(ram[..]), ram[..], Live())
      ensures old(Exact()) || lfree != old(lfree) ==> Exact()
      ensures r == if size < Request(newsize) || (!Illegal(rmem) && old(Target(rmem)).Data() < Request(newsize)) then
          Null else rmem
      ensures !Illegal(rmem) ==> ((r.Null? <==> old(Target(rmem)).Data() < newsize) <==> newsize <= 0xfffc)
      ensures Illegal(rmem) || old(Target(rmem)).Data() <= Request(newsize) ==>
          links == old(links) && lfree == old(lfree) && ram[..] == old(ram[..]) && memFreeCount == old(memFreeCount)
      ensures !Illegal(rmem) && Request(newsize) < old(Target(rmem)).Data() ==>
          memFreeCount == (old(memFreeCount) || otherContext)
      ensures !Illegal(rmem) ==>
          Live() == old(Live()) - {old(Target(rmem))}
          + {Trimmed(old(Live()), size, old(Target(rmem)), Request(newsize))}
      ensures !Illegal(rmem) && Request(newsize) < old(Target(rmem)).Data() ==>
          var end := old(Target(rmem)).end;
          end in old(links) && Allocated(rmem)
          && if !old(links)[end].used || rmem.offset + Request(newsize) + HDR + MIN_SIZE <= end then
               Target(rmem).Data() == Request(newsize) && FreeAt(links, Target(rmem).end)
             else
               Target(rmem).end == end
    {
      hide Tiles, NoHoles, Holds, Keeps, LowerBound, FreeAt, Used;
      AllInHeap(ram[..], links, size);
      KeepsSelf(ram[..], Live());
      if !Illegal(rmem) {
        TargetLegal(links, size, rmem);
        TargetSize(links, size, rmem.offset - HDR);
        TrimCovers(Target(rmem).Data(), size, newsize);
      }
      if size < Request(newsize) {
        if !Illegal(rmem) {
          TrimmedSame(Live(), size, Target(rmem), Request(newsize));
        }
        return Null;
      }
      if Illegal(rmem) {
        return rmem;
      }
      ghost var hs := links;
      r := TrimLegal(rmem, Request(newsize));
      if Request(newsize) < old(Target(rmem)).Data() {
        CutTarget(hs, links, size, rmem.offset - HDR, Request(newsize));
      }
    }

    /** `mem_trim` on a live block. */
    method TrimLegal(rmem: Ptr, newsize: nat) returns (r: Ptr)
      requires Sound() && Allocated(rmem) && MIN_SIZE <= newsize <= size && newsize % MEM_ALIGNMENT == 0
      modifies this, ram
      ensures Sound() && Keeps(old(ram[..]), ram[..], Live())
      ensures old(Exact()) || lfree != old(lfree) ==> Exact()
      ensures r == if old(Target(rmem)).Data() < newsize then Null else rmem
      ensures old(Target(rmem)).Data() <= newsize ==>
          links == old(links) && lfree == old(lfree) && ram[..] == old(ram[..]) && memFreeCount == old(memFreeCount)
      ensures newsize < old(Target(rmem)).Data() ==> memFreeCount == (old(memFreeCount) || otherContext)
      ensures Live() == old(Live()) - {old(Target(rmem))} + {Trimmed(old(Live()), size, old(Target(rmem)), newsize)}
    {
      hide Tiles, NoHoles, Holds, Keeps, LowerBound, FreeAt;
      var mem := rmem.offset - HDR;
      var m := Get(mem);
      var data := m.next - mem - HDR;
      if newsize <= data {
        if newsize < data {
          TrimBlock(mem, newsize);
          if otherContext {
            memFreeCount := true;
          }
        } else {
          UsedIsLive(links, size);
        }
      }
      KeepsSelf(ram[..], Live());
      return if newsize <= data then rmem else Null;
    }

    // ----- mem_malloc

    method MarkUse(mem: nat)
      requires Framed() && NoHoles(links, size, {mem}) && mem in links && mem < size && !links[mem].used
      modifies ram, `links
      ensures Framed() && links == Mark(old(links), mem, true) && NoHoles(links, size)
      ensures Live() == old(Live()) + {Block(mem, links[mem].next)} && Keeps(old(ram[..]), ram[..], old(Live()))
    {
      HeaderApart(links, size, mem);
      AllInHeap(ram[..], links, size);
      UseHoles(links, size, mem);
      MarkOk(links, size, mem, true);
      MarkUsed(links, size, mem, true);
      SetUsed(mem, true);
      WroteHolds(old(ram[..]), ram[..], links, mem, links[mem].(used := true));
      WroteKeeps(old(ram[..]), ram[..], mem, links[mem].(used := true), Live());
      links := Mark(links, mem, true);
    }

    /** Another context makes the first of its changes. */
    method ChangeFirst(pending: seq<Change>)
      requires Sound() && Owned(pending) && pending != []
      modifies this, ram
      ensures Sound() && Owned(pending[1..])
      ensures old(Exact()) || lfree != old(lfree) ==> Exact()
      ensures Live() == Made(old(Live()), size, pending[0]) && Keeps(old(ram[..]), ram[..], Live())
      ensures old(memFreeCount) ==> memFreeCount
      ensures otherContext && !memFreeCount ==>
          links == old(links) && lfree == old(lfree) && ram[..] == old(ram[..])
    {
      hide Tiles, NoHoles, Holds, Keeps, LowerBound, FreeAt, Used, Trimmed, Made;
      ghost var hs, b := links, Block(pending[0].r.offset - HDR, links[pending[0].r.offset - HDR].next);
      assert AllocatedIn(links, size, pending[0].r);
      TargetLegal(links, size, pending[0].r);
      match pending[0] {
        case Free(r) => MemFree(r);
        case Trim(r, newsize) => var t := MemTrim(r, newsize);
      }
      ChangeMade(hs, Live(), size, pending[0]);
      OwnedRest(hs, links, size, pending);
    }

    /** One unprotected window of `mem_malloc`: other contexts make some of their changes. */
    method Window(pending: seq<Change>) returns (left: seq<Change>, ghost k: nat)
      requires Sound() && Owned(pending)
      modifies this, ram
      ensures Sound() && k <= |pending| && left == pending[k..] && Owned(left)
      ensures old(Exact()) || lfree != old(lfree) ==> Exact()
      ensures Live() == After(old(Live()), size, pending[..k]) && Keeps(old(ram[..]), ram[..], Live())
      ensures k == 0 ==> memFreeCount == old(memFreeCount)
      ensures old(memFreeCount) ==> memFreeCount
      ensures otherContext && !memFreeCount ==>
          links == old(links) && lfree == old(lfree) && ram[..] == old(ram[..])
      decreases |pending|
    {
      hide Tiles, NoHoles, Holds, Keeps, LowerBound, FreeAt, Used, OwnedIn, Made;
      AllInHeap(ram[..], links, size);
      if * {
        left, k := pending, 0;
        KeepsSelf(ram[..], Live());
      } else if pending == [] {
        left, k := [], 0;
        KeepsSelf(ram[..], Live());
      } else {
        ChangeFirst(pending);
        ghost var r1, live1 := ram[..], Live();
        left, k := Window(pending[1..]);
        KeepsAfter(old(ram[..]), r1, ram[..], live1, size, pending[1..][..k]);
        k := k + 1;
        assert pending[..k][0] == pending[0] && pending[..k][1..] == pending[1..][..k - 1];
      }
    }

    /**
     The commit step of `mem_malloc`: takes n bytes from free
     block mem, splitting it if the rest can hold a block.
     */
    method Commit(mem: nat, n: nat)
      requires Framed() && NoHoles(links, size) && Fits(links, mem, n) && MIN_SIZE <= n && n % MEM_ALIGNMENT == 0
      modifies ram, `links
      ensures old(links)[mem].next in old(links) && links == Alloc(old(links), size, mem, n)
      ensures mem in links && links[mem].used && n <= links[mem].next as int - (mem + HDR) < n + HDR + MIN_SIZE
      ensures var end := old(links)[mem].next;
        if mem + HDR + n + HDR + MIN_SIZE <= end then
          links[mem].next == mem + HDR + n && FreeAt(links, mem + HDR + n) && links[mem + HDR + n].next == end
        else
          links[mem].next == end
      ensures Framed() && NoHoles(links, size)
      ensures Keeps(old(ram[..]), ram[..], old(Live()))
    {
      hide Tiles, NoHoles, Holds, Keeps, LowerBound, Used, Split, BlockOk, BackOk;
      FitsFacts(links, size, mem, n);
      PartedOk(links, size, mem, n);
      AllocSplits(links, size, mem, n);
      var m := Get(mem);
      KeepsSelf(ram[..], Live());
      if n + HDR + MIN_SIZE <= m.next - (mem + HDR) {
        Cut(mem, mem + HDR + n, m.next, links);
      }
      ghost var r1 := ram[..];
      MarkUse(mem);
      KeepsTrans(old(ram[..]), r1, ram[..], old(Live()));
    }

    /**
     `LWIP_MEM_ALLOC_UNPROTECT` followed by `LWIP_MEM_ALLOC_PROTECT`:
     empty unless frees and trims from other contexts are allowed.
     */
    method Pause(pending: seq<Change>) returns (left: seq<Change>, disturbed: bool, ghost k: nat)
      requires Sound() && Owned(pending)
      modifies this, ram
      ensures Sound() && k <= |pending| && left == pending[k..] && Owned(left)
      ensures (disturbed ==> 0 < k) && (!otherContext ==> k == 0)
      ensures old(Exact()) || lfree != old(lfree) ==> Exact()
      ensures Live() == After(old(Live()), size, pending[..k]) && Keeps(old(ram[..]), ram[..], Live())
      ensures !disturbed ==> links == old(links) && lfree == old(lfree) && ram[..] == old(ram[..])
    {
      hide Tiles, NoHoles, Holds, Keeps, LowerBound, FreeAt, Used, OwnedIn, After;
      left, disturbed, k := pending, false, 0;
      AllInHeap(ram[..], links, size);
      KeepsSelf(ram[..], Live());
      AfterNone(Live(), size);
      assert pending[..0] == [];
      if otherContext {
        memFreeCount := false;
        left, k := Window(pending);
        disturbed := memFreeCount;
      }
    }

    /** One walk along the list from a used block to the next free one, abandoned as soon as a change interferes. */
    method NextFree(from: nat, pending: seq<Change>)
      returns (cur: nat, left: seq<Change>, disturbed: bool, ghost k: nat)
      requires Sound() && Owned(pending) && LowerBound(links, from)
      modifies this, ram
      ensures Sound() && k <= |pending| && left == pending[k..] && Owned(left)
      ensures (disturbed ==> 0 < k) && (!otherContext ==> k == 0)
      ensures old(Exact()) || lfree != old(lfree) ==> Exact()
      ensures Live() == After(old(Live()), size, pending[..k]) && Keeps(old(ram[..]), ram[..], Live())
      ensures !disturbed ==>
          links == old(links) && lfree == old(lfree) && ram[..] == old(ram[..]) && Lowest(links, size, cur)
    {
      hide Tiles, NoHoles, Holds, LowerBound, Keeps, Used, Made, After, OwnedIn;
      cur, left, disturbed, k := from, pending, false, 0;
      AllInHeap(ram[..], links, size);
      KeepsSelf(ram[..], Live());
      AfterNone(Live(), size);
      assert pending[..0] == [];
      HeaderHeld(ram[..], links, size, cur);
      while HeaderAt(ram[..], cur).used && cur != size
        invariant cur <= size && cur + HDR <= ram.Length && cur in links && HeaderAt(ram[..], cur) == links[cur]
        invariant links == old(links) && lfree == old(lfree) && ram[..] == old(ram[..])
        invariant k <= |pending| && left == pending[k..] && (!otherContext ==> k == 0) && !disturbed
        invariant Live() == After(old(Live()), size, pending[..k])
        invariant LowerBound(links, cur) && Sound() && Owned(left)
        decreases size - cur
      {
        NextBound(links, size, cur);
        ghost var k1 := k;
        left, disturbed, k := Pause(left);
        AfterTrans(old(Live()), size, pending, k1, k);
        k := k1 + k;
        if disturbed {
          return;
        }
        cur := HeaderAt(ram[..], cur).next;
        HeaderHeld(ram[..], links, size, cur);
      }
      if cur == size {
        EndLowest(links, size);
      }
    }

    /**
     The tail of `mem_malloc`: if mem was the lowest free block,
     look for the next one, restarting whenever a change interferes.
     */
    method AdjustLfree(mem: nat, ghost end: nat, pending: seq<Change>) returns (left: seq<Change>, ghost k: nat)
      requires Sound() && Owned(pending) && (lfree == mem || Exact())
      requires Block(mem, end) in Live() && Spares(pending, Block(mem, end))
      modifies this, ram
      ensures Valid() && k <= |pending| && left == pending[k..] && Owned(left) && (!otherContext ==> k == 0)
      ensures Live() == After(old(Live()), size, pending[..k]) && Keeps(old(ram[..]), ram[..], Live())
      decreases |pending|
    {
      hide Tiles, NoHoles, Holds, LowerBound, FreeAt, Keeps, Used, After, OwnedIn;
      left, k := pending, 0;
      AllInHeap(ram[..], links, size);
      KeepsSelf(ram[..], Live());
      AfterNone(Live(), size);
      assert pending[..0] == [];
      if mem == lfree {
        var cur, disturbed;
        cur, left, disturbed, k := NextFree(mem, pending);
        AfterSpares(old(Live()), size, pending[..k], Block(mem, end));
        if disturbed {
          ghost var r1, live1, k1 := ram[..], Live(), k;
          left, k := AdjustLfree(mem, end, left);
          KeepsAfter(old(ram[..]), r1, ram[..], live1, size, pending[k1..][..k]);
          AfterTrans(old(Live()), size, pending, k1, k);
          k := k1 + k;
        } else {
          lfree := cur;
        }
      }
    }

    /** One pass of the first-fit search, abandoned as soon as a change interferes. */
    method Scan(n: nat, pending: seq<Change>)
      returns (ptr: nat, found: bool, left: seq<Change>, disturbed: bool, ghost k: nat)
      requires Valid() && Owned(pending) && n <= size
      modifies this, ram
      ensures Valid() && k <= |pending| && left == pending[k..] && Owned(left)
      ensures (disturbed ==> 0 < k) && (!otherContext ==> k == 0)
      ensures Live() == After(old(Live()), size, pending[..k]) && Keeps(old(ram[..]), ram[..], Live())
      ensures !disturbed ==> links == old(links)
      ensures !disturbed ==> if found then FirstFit(links, ptr, n) else NoFit(links, n)
    {
      hide Tiles, NoHoles, Holds, LowerBound, FreeAt, Fits, Keeps, Used, Made, After, OwnedIn;
      ptr, found, left, disturbed, k := lfree, false, pending, false, 0;
      AllInHeap(ram[..], links, size);
      KeepsSelf(ram[..], Live());
      BoundFits(links, lfree, n);
      AfterNone(Live(), size);
      assert pending[..0] == [];
      while ptr < size - n
        invariant links == old(links) && lfree == old(lfree) && ram[..] == old(ram[..])
        invariant k <= |pending| && left == pending[k..] && (!otherContext ==> k == 0) && !disturbed && !found
        invariant Live() == After(old(Live()), size, pending[..k])
        invariant ptr in links && forall q: nat :: q < ptr ==> !Fits(links, q, n)
        invariant Valid() && Owned(left)
        decreases size - ptr
      {
        ghost var k1 := k;
        left, disturbed, k := Pause(left);
        AfterTrans(old(Live()), size, pending, k1, k);
        k := k1 + k;
        if disturbed {
          return;
        }
        var mem := Get(ptr);
        FitsHere(links, size, ptr, n);
        if !mem.used && n <= mem.next - (ptr + HDR) {
          found := true;
          return;
        }
        ptr := mem.next;
      }
      BeyondBound(links, size, n, ptr);
    }

    /** The search of `mem_malloc`: scan again until a pass has not been disturbed. */
    method Search(n: nat, pending: seq<Change>) returns (ptr: nat, found: bool, left: seq<Change>, ghost k: nat)
      requires Valid() && Owned(pending) && n <= size
      modifies this, ram
      ensures Valid() && k <= |pending| && left == pending[k..] && Owned(left) && (!otherContext ==> k == 0)
      ensures Live() == After(old(Live()), size, pending[..k]) && Keeps(old(ram[..]), ram[..], Live())
      ensures if found then FirstFit(links, ptr, n) else NoFit(links, n)
    {
      hide Tiles, NoHoles, Holds, Keeps, LowerBound, FreeAt, Used, OwnedIn, After;
      ptr, found, left, k := 0, false, pending, 0;
      AllInHeap(ram[..], links, size);
      KeepsSelf(ram[..], Live());
      AfterNone(Live(), size);
      assert pending[..0] == [];
      var disturbed := true;
      while disturbed
        invariant Valid() && k <= |pending| && left == pending[k..] && Owned(left) && (!otherContext ==> k == 0)
        invariant Live() == After(old(Live()), size, pending[..k]) && Keeps(old(ram[..]), ram[..], Live())
        invariant !disturbed ==> if found then FirstFit(links, ptr, n) else NoFit(links, n)
        decreases |left|, disturbed
      {
        ghost var r1, live1, k1 := ram[..], Live(), k;
        ptr, found, left, disturbed, k := Scan(n, left);
        KeepsAfter(old(ram[..]), r1, ram[..], live1, size, pending[k1..][..k]);
        AfterTrans(old(Live()), size, pending, k1, k);
        k := k1 + k;
      }
    }

    /** The successful end of `mem_malloc`: commit to block mem, then repair the cache. */
    method Take(mem: nat, n: nat, pending: seq<Change>) returns (left: seq<Change>, ghost k: nat)
      requires Valid() && Owned(pending) && Fits(links, mem, n) && MIN_SIZE <= n && n % MEM_ALIGNMENT == 0
      modifies this, ram
      ensures Valid() && k <= |pending| && left == pending[k..] && Owned(left) && (!otherContext ==> k == 0)
      ensures var b := Carved(mem, old(links)[mem].next, n);
                b !in old(Live()) && b in Live() && Live() == After(old(Live()) + {b}, size, pending[..k])
                && Keeps(old(ram[..]), ram[..], Live() - {b})
    {
      hide Tiles, NoHoles, Holds, Keeps, After;
      ghost var hs, b := links, Carved(mem, links[mem].next, n);
      AllocOk(links, size, mem, n);
      AllocFree(links, size, mem, n);
      Commit(mem, n);
      OwnedGrows(hs, links, size, pending, mem);
      ghost var r1 := ram[..];
      left, k := AdjustLfree(mem, b.end, pending);
      AfterSpares(old(Live()) + {b}, size, pending[..k], b);
      KeepsTaken(old(ram[..]), r1, ram[..], links, size, old(Live()), b, pending[..k]);
    }

    /** The locked part of `mem_malloc`, for an adjusted size. */
    method Allocate(n: nat, pending: seq<Change>)
      returns (r: Ptr, left: seq<Change>, ghost mid: Links, ghost k0: nat, ghost k: nat)
      requires Valid() && Owned(pending) && MIN_SIZE <= n <= size && n % MEM_ALIGNMENT == 0
      modifies this, ram
      ensures Valid() && k0 <= k <= |pending| && left == pending[k..] && Owned(left) && (!otherContext ==> k == 0)
      ensures WellFormed(mid, size) && Used(mid, size) == After(old(Live()), size, pending[..k0])
      ensures r.Null? ==> k0 == k && NoFit(mid, n) && Live() == Used(mid, size)
      ensures r.Null? ==> Keeps(old(ram[..]), ram[..], Live())
      ensures r.At? ==> HDR <= r.offset && FirstFit(mid, r.offset - HDR, n)
      ensures r.At? ==> var b := Carved(r.offset - HDR, mid[r.offset - HDR].next, n);
        b !in Used(mid, size) && b in Live() && Live() == After(Used(mid, size) + {b}, size, pending[k0..k])
        && Keeps(old(ram[..]), ram[..], Live() - {b})
    {
      hide Tiles, NoHoles, Holds, LowerBound, OwnedIn, After, Keeps, Used;
      var ptr, found;
      ptr, found, left, k := Search(n, pending);
      r, mid, k0 := Null, links, k;
      if found {
        ghost var r1, b := ram[..], Carved(ptr, links[ptr].next, n);
        left, k := Take(ptr, n, left);
        KeepsTwice(old(ram[..]), r1, ram[..], links, size, Used(mid, size), b, pending[k0..][..k]);
        AfterTrans({}, size, pending, k0, k);
        k := k0 + k;
        assert pending[k0..][..k - k0] == pending[k0..k];
        r := At(ptr + HDR);
      }
    }

    /**
     `mem_malloc`. `pending` are the changes other contexts may make while it runs; `mid` is the list at
     the moment of the decision, when the first k0 of them had been made.
     */
    method MemMalloc(n: u16, pending: seq<Change>)
      returns (r: Ptr, left: seq<Change>, ghost mid: Links, ghost k0: nat, ghost k: nat)
      requires Valid() && Owned(pending)
      modifies this, ram
      ensures Valid() && k0 <= k <= |pending| && left == pending[k..] && Owned(left) && (!otherContext ==> k == 0)
      ensures WellFormed(mid, size) && Used(mid, size) == After(old(Live()), size, pending[..k0])
      ensures r.Null? <==> n == 0 || size < Request(n) || NoFit(mid, Request(n))
      ensures r.Null? ==> k0 == k && Live() == Used(mid, size) && Keeps(old(ram[..]), ram[..], Live())
      ensures r.At? ==> HDR <= r.offset && FirstFit(mid, r.offset - HDR, Request(n))
      ensures r.At? ==> var b := Carved(r.offset - HDR, mid[r.offset - HDR].next, Request(n));
        b !in Used(mid, size) && b in Live() && Live() == After(Used(mid, size) + {b}, size, pending[k0..k])
        && Keeps(old(ram[..]), ram[..], Live() - {b})
      ensures r.At? ==> Allocated(r) && Request(n) <= Target(r).Data() < Request(n) + HDR + MIN_SIZE
      ensures r.At? && r.offset + Request(n) + HDR + MIN_SIZE <= mid[r.offset - HDR].next ==>
          Target(r).Data() == Request(n)
      ensures r.At? && mid[r.offset - HDR].next < r.offset + Request(n) + HDR + MIN_SIZE ==>
          Target(r).end == mid[r.offset - HDR].next
      ensures r.At? ==> (n <= Target(r).Data() <==> n <= 0xfffc)
    {
      hide Tiles, NoHoles, Holds, Keeps, LowerBound, FreeAt, OwnedIn, Used, After, Request;
      if n == 0 || size < Request(n) {
        r, left, mid, k0, k := Null, pending, links, 0, 0;
        AllInHeap(ram[..], links, size);
        KeepsSelf(ram[..], Live());
        AfterNone(Live(), size);
        assert pending[..0] == [];
      } else {
        r, left, mid, k0, k := Allocate(Request(n), pending);
        if r.At? {
          CarvedCovers(mid, r.offset - HDR, n);
          TakenTarget(mid, links, size, r.offset - HDR, Request(n));
        }
      }
    }

    // ----- the owner of a block

    /** The owner of a live block stores a byte in it: neither the heap nor any other block is harmed. */
    method Store(r: Ptr, i: nat, v: byte)
      requires Valid() && Allocated(r) && i < Target(r).Data()
      modifies ram
      ensures Valid() && Keeps(old(ram[..]), ram[..], Live() - {Target(r)})
      ensures InHeap(old(ram[..]), Target(r)) && InHeap(ram[..], Target(r))
      ensures DataOf(ram[..], Target(r)) == DataOf(old(ram[..]), Target(r))[i := v]
    {
      hide Tiles, NoHoles, Holds, Keeps, LowerBound;
      ByteStored(ram[..], links, size, Target(r), r.offset + i, v);
      ram[r.offset + i] := v;
    }

    // ----- consequences over several calls

    /** Freeing what `mem_malloc` returned restores the block list and the cache exactly. */
    method MallocThenFree(n: u16)
      requires Valid()
      modifies this, ram
      ensures Valid() && Body(links, size) == old(Body(links, size)) && lfree == old(lfree)
      ensures Keeps(old(ram[..]), ram[..], Live())
    {
      hide Tiles, NoHoles, Holds, Keeps, LowerBound, FreeAt, Used, Body;
      ghost var hs, low, r0 := links, lfree, ram[..];
      var r, left;
      ghost var mid, k0, k;
      r, left, mid, k0, k := MemMalloc(n, []);
      AfterNone(old(Live()), size);
      ghost var r1 := ram[..];
      if r.At? {
        FreshTarget(mid, links, size, r.offset - HDR, Request(n));
        MemFree(r);
        KeepsTrans(r0, r1, ram[..], Live());
      }
      Canonical(hs, links, size);
      LowestUnique(hs, links, size, low, lfree);
    }

    /**
     What is left of a block behind a request is there for the next one: if the block the first
     request is served from has room for another block of the second size, both are served from it.
     */
    method MallocTwice(n: u16, m: u16, ghost p: nat) returns (r: Ptr, t: Ptr)
      requires Valid() && 0 < n && 0 < m && FirstFit(links, p, Request(n))
      requires p + HDR + Request(n) + HDR + Request(m) <= links[p].next
      modifies this, ram
      ensures Valid() && r == At(p + HDR) && t.At? && t != r && Allocated(r) && Allocated(t)
      ensures Live() == old(Live()) + {Target(r), Target(t)} && Target(r).Data() == Request(n)
    {
      hide Tiles, NoHoles, Holds, Keeps, LowerBound, FreeAt, Used, After, Request;
      ghost var hs, live := links, Live();
      FitsRoom(links, size, p, Request(n));
      var left;
      ghost var mid, k0, k;
      r, left, mid, k0, k := MemMalloc(n, []);
      AfterNone(live, size);
      SameFirst(hs, mid, size, p, Request(n));
      assert FirstFit(mid, p, Request(n));
      ghost var b := Block(p, p + HDR + Request(n));
      AfterNone(live + {b}, size);
      t, left, mid, k0, k := MemMalloc(m, []);
      AfterNone(live + {b}, size);
      RestFits(hs, mid, size, p, Request(n), Request(m));
      AfterNone(live + {b} + {Target(t)}, size);
      UsedIsLive(links, size);
    }

    /** Changes that leave nothing live, in any order, leave one free block. */
    method FreeAll(changes: seq<Change>)
      requires Valid() && Owned(changes) && After(Live(), size, changes) == {}
      modifies this, ram
      ensures Valid() && Body(links, size) == map[0 := Header(size, 0, false)] && lfree == 0
    {
      var i := 0;
      while i < |changes|
        invariant i <= |changes| && Valid() && Owned(changes[i..]) && After(Live(), size, changes[i..]) == {}
      {
        assert changes[i..][1..] == changes[i + 1..];
        ChangeFirst(changes[i..]);
        i := i + 1;
      }
      AllFree(links, size);
      assert FreeAt(links, 0) by { assert Body(links, size)[0] == links[0]; }
    }

    /** Changes to live blocks owned by other contexts, which those may make at any time. */
    ghost predicate Owned(changes: seq<Change>)
      reads this
    {
      OwnedIn(links, size, changes)
    }
  }

  lemma NoneLive(hs: Links, size: nat)
    requires hs == map[0 := Header(size, 0, false), size := Header(size, size, true)]
    ensures Used(hs, size) == {}
  {
  }

  /** A block that fits lies in the heap. */
  lemma FitsRoom(hs: Links, size: nat, p: nat, n: nat)
    requires Tiles(hs, size) && Fits(hs, p, n)
    ensures n <= size && hs[p].next <= size
  {
    assert p < size ==> BlockOk(hs, size, p);
  }

  /** Lists with the same live blocks serve a request from the same block. */
  lemma SameFirst(hs: Links, ks: Links, size: nat, p: nat, n: nat)
    requires WellFormed(hs, size) && WellFormed(ks, size) && Used(hs, size) == Used(ks, size)
    requires FirstFit(hs, p, n)
    ensures p in ks && ks[p] == hs[p] && forall q: nat :: FirstFit(ks, q, n) <==> q == p
  {
    Canonical(hs, ks, size);
    assert forall q: nat :: q < size && q in hs ==> q in Body(hs, size) && Body(hs, size)[q] == hs[q];
    assert forall q: nat :: q < size && q in ks ==> q in Body(ks, size) && Body(ks, size)[q] == ks[q];
    assert forall q: nat :: Fits(hs, q, n) <==> Fits(ks, q, n);
  }

  /** Behind n bytes taken from a larger block the rest is free. */
  lemma RestFits(hs: Links, ks: Links, size: nat, p: nat, n: nat, m: nat)
    requires WellFormed(hs, size) && WellFormed(ks, size) && Fits(hs, p, n + HDR + m)
    requires MIN_SIZE <= m && Used(ks, size) == Used(hs, size) + {Block(p, p + HDR + n)}
    ensures Fits(ks, p + HDR + n, m)
  {
    var q := p + HDR + n;
    UsedIsLive(ks, size);
    UsedIsLive(hs, size);
    FitsFacts(hs, size, p, n);
    assert Block(p, q) in Used(ks, size) && BlockOk(ks, size, p);
    assert q in ks && q < size;
    assert BlockOk(ks, size, q) && MeetsUsed(ks, q);
    var e := ks[q].next;
    var rest, behind := Block(q, e), Block(e, ks[e].next);
    assert rest in Used(ks, size) <==> ks[q].used;
    assert rest !in Used(hs, size);
    assert behind in Used(ks, size) <==> e < size && ks[e].used;
    assert behind in Used(hs, size) ==> hs[p].next <= e;
  }

  /** Without live blocks every request that fits the heap fits at 0, and only there. */
  lemma OnlyStart(hs: Links, size: nat)
    requires WellFormed(hs, size) && Used(hs, size) == {}
    ensures FreeAt(hs, 0) && hs[0].next == size && forall p :: FreeAt(hs, p) ==> p == 0
  {
    AllFree(hs, size);
    assert 0 in Body(hs, size) && Body(hs, size)[0] == hs[0];
    forall p: nat | FreeAt(hs, p) ensures p == 0 {
      assert p < size ==> p in Body(hs, size);
    }
  }

  /** A heap of 64 bytes serves a request for 0xfffd bytes, with 12 of them. */
  method MallocMisleads() returns (r: Ptr, data: nat)
    ensures r == At(HDR) && data == MIN_SIZE
  {
    hide Tiles, NoHoles, Holds, Keeps, LowerBound, Used, After;
    var heap := new Heap(64, false);
    ghost var live := heap.Live();
    NoneLive(heap.links, 64);
    var left;
    ghost var mid, k0, k;
    r, left, mid, k0, k := heap.MemMalloc(0xfffd, []);
    AfterNone(live, 64);
    AfterNone(Used(mid, 64) + {Carved(0, 64, 12)}, 64);
    OnlyStart(mid, 64);
    assert Request(0xfffd) == 12 && Fits(mid, 0, 12);
    FreshTarget(mid, heap.links, 64, r.offset - HDR, Request(0xfffd));
    var m := heap.Get(r.offset - HDR);
    data := m.next - r.offset;
  }
}
