/**
 LwIP/src/core/pbuf.c: allocating, sharing, joining, cutting and releasing pbufs. Every operation keeps
 `Valid`: counts equal references, `tot_len` fields add up, and pool elements are free or live.
 */
module PbufOwner {
  import opened Bytes
  import opened PbufChain
  import opened PbufBook
  import opened PbufLink
  import opened PbufGrow
  import L = BlockList
  import M = Mem

  /** The elements `all` of a pool are either on its free list or live pbufs of the pool's kinds. */
  ghost predicate Home(m: Memory, free: seq<nat>, all: set<nat>, kinds: set<Kind>) {
    && NULL !in all && (forall i, j :: 0 <= i < j < |free| ==> free[i] != free[j])
    && (forall x :: x in free <==> x in all && x !in m)
    && (forall x :: x in m ==> (x in all <==> m[x].kind in kinds))
  }

  lemma HomeSame(m: Memory, m': Memory, free: seq<nat>, all: set<nat>, kinds: set<Kind>)
    requires Home(m, free, all, kinds) && m'.Keys == m.Keys && forall x :: x in m ==> m'[x].kind == m[x].kind
    ensures Home(m', free, all, kinds)
  {
  }

  lemma HomeBack(m: Memory, p: nat, free: seq<nat>, all: set<nat>, kinds: set<Kind>)
    requires Home(m, free, all, kinds) && p in m
    ensures m[p].kind in kinds ==> Home(m - {p}, [p] + free, all, kinds)
    ensures m[p].kind !in kinds ==> Home(m - {p}, free, all, kinds)
  {
    var f, m' := [p] + free, m - {p};
    assert forall x :: x in f <==> x == p || x in free;
  }

  class Owner {
    const bufSize: nat
    ghost const poolAll: set<nat>
    ghost const refAll: set<nat>
    var mem: Memory
    var pool: seq<nat>
    var refs: seq<nat>
    ghost var book: Book

    ghost predicate Homes()
      reads this
    {
      poolAll !! refAll && Home(mem, pool, poolAll, {Pool}) && Home(mem, refs, refAll, {Rom, Ref})
    }

    /** Links and counts agree with the book, and no pool element is lost. */
    ghost predicate Linked()
      reads this
    {
      Links(mem, book) && Homes()
    }

    /** The invariant: what `Linked` says, and all `tot_len` fields add up. */
    ghost predicate Valid()
      reads this
    {
      Linked() && Totals(mem)
    }

    /** `pbuf_init`: everything is free. */
    constructor (bufSize: nat, pool: seq<nat>, refs: seq<nat>)
      requires NULL !in pool && forall i, j :: 0 <= i < j < |pool| ==> pool[i] != pool[j]
      requires NULL !in refs && forall i, j :: 0 <= i < j < |refs| ==> refs[i] != refs[j]
      requires 0 < bufSize && forall x :: x in pool ==> x !in refs
      ensures Valid() && this.bufSize == bufSize && mem == map[] && this.pool == pool && this.refs == refs
    {
      this.bufSize, this.pool, this.refs, mem, book := bufSize, pool, refs, map[], Book(map[], map[], map[]);
      this.poolAll, this.refAll := Elems(pool), Elems(refs);
    }

    /** Gives one pbuf back to where its memory came from. */
    method Release(p: nat)
      requires Homes() && p in mem
      modifies `mem, `pool, `refs
      ensures Homes() && mem == old(mem) - {p}
    {
      hide Home;
      HomeBack(mem, p, pool, poolAll, {Pool});
      HomeBack(mem, p, refs, refAll, {Rom, Ref});
      var kind := mem[p].kind;
      mem := mem - {p};
      match kind {
        case Pool => pool := [p] + pool;
        case Rom | Ref => refs := [p] + refs;
        case Ram =>
      }
    }

    method Decrement(p: nat)
      requires Homes() && p in mem && 0 < mem[p].ref
      modifies `mem
      ensures Homes() && mem == Unref(old(mem), p)
    {
      HomeSame(mem, Unref(mem, p), pool, poolAll, {Pool});
      HomeSame(mem, Unref(mem, p), refs, refAll, {Rom, Ref});
      mem := mem[p := mem[p].(ref := mem[p].ref - 1)];
    }

    /**
     `pbuf_free`: drops one of the caller's references. It releases the k pbufs at the head of the
     chain whose count is one, and takes one reference off the pbuf behind them. The result counts
     the released pbufs in 8 bits.
     */
    method Free(p: nat, ghost c: seq<nat>) returns (count: nat, ghost k: nat)
      requires Linked() && IsChain(mem, p, c) && AllIn(mem, c) && (p != NULL ==> p in mem && 0 < book.handles[p])
      modifies `mem, `pool, `refs, `book
      ensures Linked() && (old(Valid()) ==> Valid())
      ensures p == NULL ==> count == 0 && mem == old(mem) && book == old(book)
      ensures p != NULL ==> k == HeadRun(old(mem), c) && count == k % 0x100
      ensures p != NULL ==>
          mem == FreeMem(old(mem), c, k) && mem.Keys <= old(mem).Keys && book == Restrict(old(book), mem.Keys, p, -1)
    {
      hide Links, IsChain, AllIn, Home, Unref, HeadRun, Totals;
      if p == NULL {
        return 0, 0;
      }
      ghost var m0 := mem;
      count, k := FreeLoop(p, c);
      if Totals(m0) {
        FreeTotals(m0, c, k, book);
      }
    }

    /** One round of `pbuf_free`: takes a reference off pbuf c[k], and releases it if that was the last one. */
    method FreeRound(q: nat, ghost m0: Memory, ghost b0: Book, ghost c: seq<nat>, ghost k: nat)
      returns (next: nat, released: bool)
      requires Homes() && q != NULL && k < |c| && q == At(c, k) && Freeing(m0, b0, c, k, mem, book)
      modifies `mem, `pool, `refs, `book
      ensures Homes() && (next != NULL ==> released)
      ensures released && next != NULL ==> k + 1 < |c| && next == At(c, k + 1) && Freeing(m0, b0, c, k + 1, mem, book)
      ensures released && next == NULL ==> Freed(m0, b0, c, k + 1, mem, book)
      ensures !released ==> Freed(m0, b0, c, k, mem, book)
    {
      FreeingAt(m0, b0, c, k, mem, book);
      if mem[q].ref == 1 {
        released := true;
        next := FreeLast(q, m0, b0, c, k);
      } else {
        next, released := NULL, false;
        FreeShared(q, m0, b0, c, k);
      }
    }

    /** The pbuf loses its last reference. */
    method FreeLast(q: nat, ghost m0: Memory, ghost b0: Book, ghost c: seq<nat>, ghost k: nat) returns (next: nat)
      requires Homes() && q in mem && mem[q].ref == 1 && k < |c| && q == c[k] && Freeing(m0, b0, c, k, mem, book)
      modifies `mem, `pool, `refs, `book
      ensures Homes()
      ensures next != NULL ==> k + 1 < |c| && next == At(c, k + 1) && Freeing(m0, b0, c, k + 1, mem, book)
      ensures next == NULL ==> Freed(m0, b0, c, k + 1, mem, book)
    {
      hide Links, Freeing, Freed, Restrict, Home, IsChain, AllIn, FreeMem, HeadRun;
      FreeingAt(m0, b0, c, k, mem, book);
      FreeStep(m0, b0, c, k, mem, book);
      next := mem[q].next;
      Release(q);
      book := Restrict(book, mem.Keys, next, 1);
      if k + 1 == |c| {
        FreeEnd(m0, b0, c, mem, book);
      } else {
        FreeingAt(m0, b0, c, k + 1, mem, book);
      }
    }

    /** The pbuf keeps other references. */
    method FreeShared(q: nat, ghost m0: Memory, ghost b0: Book, ghost c: seq<nat>, ghost k: nat)
      requires Homes() && q in mem && 1 < mem[q].ref && k < |c| && q == c[k] && Freeing(m0, b0, c, k, mem, book)
      modifies `mem, `book
      ensures Homes() && Freed(m0, b0, c, k, mem, book)
    {
      hide Links, Freeing, Freed, Restrict, Home, Unref, IsChain;
      FreeingAt(m0, b0, c, k, mem, book);
      FreeStop(m0, b0, c, k, mem, book);
      book := DropHandle(book, q);
      Decrement(q);
    }

    /** The loop of `pbuf_free`. */
    method FreeLoop(p: nat, ghost c: seq<nat>) returns (count: nat, ghost k: nat)
      requires Linked() && IsChain(mem, p, c) && AllIn(mem, c) && p != NULL && p in mem && 0 < book.handles[p]
      modifies `mem, `pool, `refs, `book
      ensures Linked() && k == HeadRun(old(mem), c) && count == k % 0x100
      ensures mem == FreeMem(old(mem), c, k) && mem.Keys <= old(mem).Keys
          && book == Restrict(old(book), mem.Keys, p, -1)
    {
      hide Links, Freeing, Freed, Restrict, Home, IsChain, AllIn, FreeMem, HeadRun, Totals;
      ghost var m0, b0 := mem, book;
      var q: nat := p;
      count, k := 0, 0;
      FreeStart(mem, book, p, c);
      while q != NULL
        invariant k <= |c| && count == k % 0x100 && Homes()
        invariant q != NULL ==> q == At(c, k) && Freeing(m0, b0, c, k, mem, book)
        invariant q == NULL ==> Freed(m0, b0, c, k, mem, book)
        decreases |c| - k, if q == NULL then 0 else 1
      {
        var released;
        q, released := FreeRound(q, m0, b0, c, k);
        if released {
          count, k := (count + 1) % 0x100, k + 1;
        }
      }
      FreedIs(m0, b0, c, k, mem, book);
    }

    /** `pbuf_ref`: one more reference held by a caller. The count has 16 bits and is not guarded. */
    method AddRef(p: nat)
      requires Valid() && (p != NULL ==> p in mem)
      modifies `mem, `book
      ensures Homes() && (Valid() <==> p == NULL || old(mem)[p].ref < 0xffff)
      ensures p == NULL ==> mem == old(mem) && book == old(book)
      ensures p != NULL ==> p in old(book).handles && mem == Refd(old(mem), p) && book == Held(old(book), p)
    {
      hide Links, Totals, Home;
      if p != NULL {
        RefLinks(mem, book, p);
        RefTotals(mem, p);
        HomeSame(mem, Refd(mem, p), pool, poolAll, {Pool});
        HomeSame(mem, Refd(mem, p), refs, refAll, {Rom, Ref});
        book := Held(book, p);
        mem := mem[p := mem[p].(ref := (mem[p].ref + 1) % 0x1_0000)];
      }
    }

    /** Adds `a` to the `tot_len` of every pbuf of a chain that `next` leads through. */
    method Bump(h: nat, a: int, ghost c: seq<nat>) returns (last: nat)
      requires Homes() && IsChain(mem, h, c) && AllIn(mem, c) && h != NULL
      modifies `mem
      ensures Homes() && c != [] && last == c[|c| - 1] && mem == Bumped(old(mem), c, a)
    {
      hide Home, IsChain;
      ghost var m0, i: nat := mem, 0;
      ChainStep(mem, h, c);
      ChainDistinct(mem, h, c);
      BumpNone(mem, a);
      assert c[..0] == [];
      last := h;
      var p: nat := h;
      BumpAt(m0, h, c, 0, a);
      while mem[p].next != NULL
        invariant i < |c| && p == c[i] && p in m0 && mem == Bumped(m0, c[..i], a) && mem[p] == m0[p]
        invariant m0[p].next == if i + 1 < |c| then c[i + 1] else NULL
        decreases |c| - i
      {
        BumpAt(m0, h, c, i, a);
        BumpAt(m0, h, c, i + 1, a);
        mem := mem[p := mem[p].(totLen := Add16(mem[p].totLen, a))];
        p, i := mem[p].next, i + 1;
      }
      BumpAt(m0, h, c, i, a);
      assert c[..i + 1] == c;
      last := p;
      mem := mem[p := mem[p].(totLen := Add16(mem[p].totLen, a))];
      HomeSame(m0, mem, pool, poolAll, {Pool});
      HomeSame(m0, mem, refs, refAll, {Rom, Ref});
    }

    // ----- joining and cutting

    /** `pbuf_cat`: joins two chains; the caller's reference to t becomes the pointer in front of it. */
    method Cat(h: nat, t: nat, ghost c: seq<nat>, ghost d: seq<nat>)
      requires Valid() && (h != NULL && t != NULL ==> Joinable(mem, book, h, c, t, d))
      modifies `mem, `book
      ensures Valid() && (h == NULL || t == NULL ==> mem == old(mem) && book == old(book))
      ensures h != NULL && t != NULL ==> t in old(mem) && mem == CatMem(old(mem), c, t)
      ensures h != NULL && t != NULL ==> Kept(old(mem), old(book)) && book == CatBook(old(book), c[|c| - 1], t, d)
      ensures h != NULL && t != NULL ==>
          IsChain(mem, h, c + d) && AllIn(mem, c + d) && Flat(mem, c + d) == Flat(old(mem), c) + Flat(old(mem), d)
    {
      hide Links, Totals, Home, Joinable, IsChain, Flat, Bumped, AllIn;
      if h == NULL || t == NULL {
        return;
      }
      JoinFacts(mem, book, h, c, t, d);
      ghost var m0 := mem;
      CatLinks(m0, book, h, c, t, d);
      CatTotals(m0, book, h, c, t, d);
      CatFlat(m0, book, h, c, t, d);
      var last := Bump(h, mem[t].totLen, c);
      mem := mem[last := mem[last].(next := t)];
      book := CatBook(book, last, t, d);
      CatKinds(m0, c, t);
      HomeSame(m0, mem, pool, poolAll, {Pool});
      HomeSame(m0, mem, refs, refAll, {Rom, Ref});
    }

    /**
     `pbuf_chain`: joins two chains and leaves the caller its reference to t, which gets one more even
     if there is nothing to join.
     */
    method Chain(h: nat, t: nat, ghost c: seq<nat>, ghost d: seq<nat>)
      requires Valid() && (h != NULL && t != NULL ==> Joinable(mem, book, h, c, t, d)) && (t != NULL ==> t in mem)
      modifies `mem, `book
      ensures Homes() && (Valid() <==> t == NULL || old(mem)[t].ref < 0xffff)
      ensures t == NULL ==> mem == old(mem) && book == old(book)
      ensures h == NULL && t != NULL ==>
          t in old(book).handles && mem == Refd(old(mem), t) && book == Held(old(book), t)
      ensures h != NULL && t != NULL ==> t in CatMem(old(mem), c, t) && mem == Refd(CatMem(old(mem), c, t), t)
      ensures h != NULL && t != NULL ==>
          IsChain(mem, h, c + d) && AllIn(mem, c + d) && book.handles == old(book).handles
      ensures h != NULL && t != NULL ==> Flat(mem, c + d) == Flat(old(mem), c) + Flat(old(mem), d)
    {
      hide Valid, Joinable, Flat, IsChain, AllIn, Refd, Held, CatMem;
      if h != NULL && t != NULL {
        ChainRef(mem, book, h, c, t, d);
      }
      Cat(h, t, c, d);
      ghost var m1 := mem;
      AddRef(t);
      if h != NULL && t != NULL {
        RefKeeps(m1, t, h, c + d);
      }
    }

    /**
     `pbuf_dechain`: cuts p off and drops the pointer to what followed. The result is that pbuf, or
     NULL if there was none or the 8-bit number of pbufs released is not 0.
     */
    method Dechain(p: nat, ghost c: seq<nat>) returns (r: nat, ghost k: nat)
      requires Valid() && Headed(mem, book, p, c)
      modifies `mem, `pool, `refs, `book
      ensures Valid() && AllIn(old(mem), c) && Kept(old(mem), old(book))
      ensures |c| == 1 ==> r == NULL && mem == old(mem) && book == old(book)
      ensures 1 < |c| ==> k == HeadRun(old(mem), c[1..]) && r == if 0 < k % 0x100 then NULL else c[1]
      ensures 1 < |c| && r != NULL ==> (r in mem <==> k == 0)
      ensures 1 < |c| ==>
          AllIn(Dechained(old(mem), p), c[1..]) && mem == FreeMem(Dechained(old(mem), p), c[1..], k)
          && mem.Keys <= old(mem).Keys
      ensures 1 < |c| ==> book == Restrict(UnlinkBook(old(book), c[1]), mem.Keys, c[1], -1)
    {
      hide Links, Totals, Home, IsChain, AllIn, FreeMem, Restrict, Headed;
      FrontSum(mem, book, p, c, 1);
      k := 0;
      ghost var m0 := mem;
      var q := mem[p].next;
      var gone := 1;
      if q != NULL {
        DechainOk(mem, book, p, c);
        mem := mem[q := mem[q].(totLen := Add16(mem[p].totLen, 0 - mem[p].Len() as int))];
        assert mem == m0;
        HomeSame(mem, Dechained(mem, p), pool, poolAll, {Pool});
        HomeSame(mem, Dechained(mem, p), refs, refAll, {Rom, Ref});
        mem := Dechained(mem, p);
        book := UnlinkBook(book, q);
        RefCount(mem, book, q);
        HeadRunSame(m0, mem, c[1..]);
        ghost var m1 := mem;
        gone, k := Free(q, c[1..]);
        TailGone(m1, c, k);
      }
      r := if 0 < gone then NULL else q;
    }

    /** The walk of `pbuf_realloc` to the pbuf that becomes the last one. */
    method ReallocWalk(p: nat, newLen: u16, ghost c: seq<nat>) returns (q: nat, rem: nat, ghost i: nat)
      requires Homes() && Headed(mem, book, p, c) && newLen < mem[p].totLen
      modifies `mem
      ensures Homes() && Shrinking(old(mem), book, p, c, i, rem, newLen) && q == c[i] && q in old(mem)
          && rem <= old(mem)[q].Len()
      ensures mem == Bumped(old(mem), c[..i], newLen - old(mem)[p].totLen)
    {
      hide Home, Headed, Flat, Bumped, AllIn, Shrinking, IsChain;
      ghost var m0 := mem;
      ShrinkStart(m0, book, p, c, newLen);
      var grow := newLen - mem[p].totLen;
      q, rem, i := p, newLen, 0;
      BumpHead(m0, book, p, c, 0, grow);
      while mem[q].Len() < rem
        invariant i < |c| && q == c[i] && q in m0 && q in mem && mem == Bumped(m0, c[..i], grow) && mem[q] == m0[q]
        invariant Shrinking(m0, book, p, c, i, rem, newLen)
        decreases |c| - i
      {
        ShrinkNext(m0, book, p, c, i, rem, newLen);
        ShrinkFacts(m0, book, p, c, i + 1, rem - mem[q].Len(), newLen);
        BumpHead(m0, book, p, c, i, grow);
        BumpHead(m0, book, p, c, i + 1, grow);
        rem := rem - mem[q].Len();
        mem := mem[q := mem[q].(totLen := Add16(mem[q].totLen, grow))];
        q, i := mem[q].next, i + 1;
      }
      BumpKinds(m0, c[..i], grow);
      HomeSame(m0, mem, pool, poolAll, {Pool});
      HomeSame(m0, mem, refs, refAll, {Rom, Ref});
    }

    /**
     `pbuf_realloc`: shortens a chain to newLen bytes; pbufs behind the new last one are released like
     by `pbuf_free`. Nothing happens if the chain is not longer than that.
     */
    method Realloc(p: nat, newLen: u16, ghost c: seq<nat>) returns (ghost i: nat, ghost rem: nat, ghost k: nat)
      requires Valid() && Headed(mem, book, p, c)
      modifies `mem, `pool, `refs, `book
      ensures Valid() && p in old(mem) && AllIn(old(mem), c) && Kept(old(mem), old(book))
      ensures old(mem)[p].totLen <= newLen ==> mem == old(mem) && book == old(book)
      ensures newLen < old(mem)[p].totLen ==> i < |c| && IsChain(mem, p, c[..i + 1]) && AllIn(mem, c[..i + 1])
      ensures newLen < old(mem)[p].totLen ==>
          newLen <= |Flat(old(mem), c)| && Flat(mem, c[..i + 1]) == Flat(old(mem), c)[..newLen]
      ensures newLen < old(mem)[p].totLen ==> Reallocated(old(mem), old(book), p, c, i, rem, newLen, k, mem, book)
    {
      HeadedAt(mem, book, p, c, 0);
      i, rem, k := 0, 0, 0;
      hide Links, Totals, Home, IsChain, AllIn, FreeMem, Restrict, Headed, Flat, Bumped, Relabelled, Front, Shrinking,
          Shrunk;
      if newLen < mem[p].totLen {
        ghost var m0, b0 := mem, book;
        var q, r;
        q, r, i := ReallocWalk(p, newLen, c);
        ShrinkFacts(m0, b0, p, c, i, r, newLen);
        k := ReallocCut(q, r, m0, p, newLen, c, i);
        rem := r;
      }
    }

    /** Shortens the new last pbuf and releases what follows. */
    method ReallocCut(q: nat, rem: nat, ghost m0: Memory, ghost p: nat, newLen: u16, ghost c: seq<nat>, ghost i: nat)
      returns (ghost k: nat)
      requires Homes() && Shrinking(m0, book, p, c, i, rem, newLen) && q == c[i] && q in m0 && rem <= m0[q].Len()
          && rem < 0x1_0000
      requires p in m0 && mem == Bumped(m0, c[..i], newLen - m0[p].totLen)
      modifies `mem, `pool, `refs, `book
      ensures Valid() && AllIn(m0, c) && i < |c| && Reallocated(m0, old(book), p, c, i, rem, newLen, k, mem, book)
      ensures IsChain(mem, p, c[..i + 1]) && AllIn(mem, c[..i + 1])
      ensures newLen <= |Flat(m0, c)| && Flat(mem, c[..i + 1]) == Flat(m0, c)[..newLen]
    {
      hide Links, Totals, Home, IsChain, AllIn, FreeMem, Restrict, Flat, Bumped, Shrinking, Shrunk;
      k := 0;
      ghost var grow := newLen - m0[p].totLen;
      ShrunkReady(m0, book, p, c, i, rem, newLen);
      ShrunkFlat(m0, book, p, c, i, rem, newLen);
      ghost var m1 := Shrunk(m0, c, i, rem, grow);
      var tail := mem[q].next;
      ShrunkStore(m0, book, p, c, i, rem, newLen, mem);
      HomeSame(mem, m1, pool, poolAll, {Pool});
      HomeSame(mem, m1, refs, refAll, {Rom, Ref});
      mem := mem[q := mem[q].(payload := mem[q].payload[..rem], totLen := rem, next := NULL)];
      if tail != NULL {
        book := UnlinkBook(book, tail);
        RefCount(mem, book, tail);
        var count;
        count, k := Free(tail, c[i + 1..]);
        FreeKeeps(m0, m1, p, c, i + 1, k);
        HeadRunSame(m0, m1, c[i + 1..]);
      }
    }

    /** The first loop of `pbuf_split_64k`: r is where 16 bits no longer count the front, or an empty pbuf. */
    method SplitPoint(p: nat, ghost c: seq<nat>) returns (i: nat, r: nat, ghost k: nat)
      requires Headed(mem, book, p, c) && p != NULL && p in mem
      ensures AllIn(mem, c) && 0 < k <= |c| && i == c[k - 1] && i in mem && r == At(c, k)
          && |Flat(mem, c[..k])| < 0x1_0000
      ensures k < |c| ==> r in mem && r != NULL && (mem[r].Len() == 0 || 0x1_0000 <= |Flat(mem, c[..k + 1])|)
    {
      FrontSum(mem, book, p, c, 0);
      hide Headed, Flat;
      var front := mem[p].Len();
      i, r, k := p, mem[p].next, 1;
      FrontSum(mem, book, p, c, 1);
      while r != NULL && front < Add16(front, mem[r].Len())
        invariant AllIn(mem, c) && 0 < k <= |c| && i == c[k - 1] && i in mem && r == At(c, k)
            && front == |Flat(mem, c[..k])| < 0x1_0000
        invariant k < |c| ==> r != NULL && r in mem && mem[r].Len() < 0x1_0000 && mem[r].next == At(c, k + 1)
        invariant k < |c| ==> |Flat(mem, c[..k + 1])| == |Flat(mem, c[..k])| + mem[r].Len()
        decreases |c| - k
      {
        front := Add16(front, mem[r].Len());
        i, r, k := r, mem[r].next, k + 1;
        FrontSum(mem, book, p, c, k);
      }
    }

    /**
     `pbuf_split_64k`: cuts the chain where its length leaves 16 bits (or before an empty pbuf), with the
     `tot_len` fields of the front made exact and those of the rest left alone.
     */
    method Split64k(p: nat, ghost c: seq<nat>) returns (rest: nat, ghost k: nat)
      requires Valid() && (if p == NULL then c == [] else Headed(mem, book, p, c))
      modifies `mem, `book
      ensures Valid() && k <= |c| && rest == At(c, k) && AllIn(old(mem), c) && mem.Keys == old(mem).Keys
      ensures AllIn(mem, c[..k]) && AllIn(old(mem), c[..k]) && AllIn(mem, c[k..]) && AllIn(old(mem), c[k..])
      ensures IsChain(mem, p, c[..k]) && Exact(mem, c[..k]) && Flat(mem, c[..k]) == Flat(old(mem), c[..k])
      ensures IsChain(mem, rest, c[k..]) && Flat(mem, c[k..]) == Flat(old(mem), c[k..])
      ensures forall x :: x in old(mem) && x !in c[..k] && x != rest ==> mem[x] == old(mem)[x]
      ensures k < |c| ==> mem[c[k]] == old(mem)[c[k]].(fin := old(mem)[c[k]].fin || old(mem)[p].fin)
      ensures k < |c| ==> old(mem)[c[k]].Len() == 0 || 0x1_0000 <= |Flat(old(mem), c[..k + 1])|
      ensures k == |c| ==> mem == old(mem) && book == old(book)
      ensures k < |c| ==> Kept(old(mem), old(book)) && c[k] in old(book).handles && book == UnlinkBook(old(book), c[k])
    {
      hide Links, Totals, Home, IsChain, AllIn, Headed, Flat, Exact, SplitDone;
      rest, k := NULL, |c|;
      if p == NULL {
        NothingIn(mem);
        assert c[..k] == [] && c[k..] == [];
        return;
      }
      FrontSum(mem, book, p, c, 0);
      var i, r;
      i, r, k := SplitPoint(p, c);
      if r == NULL {
        SplitNowhere(mem, book, p, c, k);
        mem := Unlinked(mem, i);
      } else {
        ghost var m0 := mem;
        SplitBehind(p, i, r, c, k);
        SplitSays(m0, p, c, k, mem);
        rest := r;
      }
    }

    /** The second part of `pbuf_split_64k`: the cut, the `tot_len` fields of the front, and the FIN flag. */
    method SplitBehind(p: nat, i: nat, r: nat, ghost c: seq<nat>, ghost k: nat)
      requires Valid() && Headed(mem, book, p, c) && AllIn(mem, c) && 0 < k < |c| && i == c[k - 1] && r == c[k]
          && |Flat(mem, c[..k])| < 0x1_0000
      modifies `mem, `book
      ensures Valid() && SplitDone(old(mem), p, c, k, mem)
      ensures Kept(old(mem), old(book)) && r in old(book).handles && book == UnlinkBook(old(book), r)
    {
      hide Links, Totals, Home, IsChain, AllIn, Headed, Flat, Exact, Split, Bumped, SetFin, SplitDone;
      ghost var m0, b0 := mem, book;
      SplitReady(m0, b0, p, c, k);
      SplitDoneOk(m0, b0, p, c, k);
      SplitHomes(m0, c, k, pool, poolAll, {Pool});
      SplitHomes(m0, c, k, refs, refAll, {Rom, Ref});
      SplitIs(m0, c, k);
      mem := Unlinked(mem, i);
      var last := Bump(p, 0 - mem[r].totLen as int, c[..k]);
      book := UnlinkBook(book, r);
      FinHome(mem, r, mem[p].fin, pool, poolAll, {Pool});
      FinHome(mem, r, mem[p].fin, refs, refAll, {Rom, Ref});
      FinNo(mem, r);
      if mem[p].fin {
        mem := SetFin(mem, r, true);
      }
    }

    // ----- pbuf_alloc

    /** A pbuf of its own in the heap block that `mem_malloc` returned; `data` is what that memory holds. */
    method AllocRam(block: nat, data: seq<byte>) returns (p: nat)
      requires Valid() && |data| < 0x1_0000
          && (block != NULL ==> block !in mem && block !in poolAll && block !in refAll)
      modifies `mem, `book
      ensures Valid() && p == block
      ensures p == NULL ==> mem == old(mem) && book == old(book)
      ensures p != NULL ==>
          mem == old(mem)[p := Pbuf(NULL, |data|, data, 1, Ram, false)] && book == NewBook(old(book), p, 0)
    {
      hide Links, Totals, Home;
      p := block;
      if p != NULL {
        var pb := Pbuf(NULL, |data|, data, 1, Ram, false);
        NewLinks(mem, book, p, pb, 0);
        NewTotals(mem, book, p, pb);
        HomeOther(mem, p, pb, pool, poolAll, {Pool});
        HomeOther(mem, p, pb, refs, refAll, {Rom, Ref});
        mem, book := mem[p := pb], NewBook(book, p, 0);
      }
    }

    /** A pbuf without memory of its own, for payload `data` that the caller supplies. */
    method AllocRef(kind: Kind, data: seq<byte>) returns (p: nat)
      requires Valid() && (kind == Rom || kind == Ref) && |data| < 0x1_0000
      modifies `mem, `refs, `book
      ensures Valid() && (p == NULL <==> old(refs) == [])
      ensures p == NULL ==> mem == old(mem) && book == old(book)
      ensures p != NULL ==>
          p !in old(mem) && mem == old(mem)[p := Pbuf(NULL, |data|, data, 1, kind, false)]
          && book == NewBook(old(book), p, 0)
    {
      p := NULL;
      if refs != [] {
        HomeFirst(mem, refs, refAll, {Rom, Ref});
        hide Links, Totals, Home;
        p := refs[0];
        var pb := Pbuf(NULL, |data|, data, 1, kind, false);
        NewLinks(mem, book, p, pb, 0);
        NewTotals(mem, book, p, pb);
        HomeOther(mem, p, pb, pool, poolAll, {Pool});
        HomeTake(mem, pb, refs, refAll, {Rom, Ref});
        mem, book, refs := mem[p := pb], NewBook(book, p, 0), refs[1..];
      }
    }

    /** One element of the packet pool, set up as the last pbuf of a chain; NULL if the pool is empty. */
    method PoolElement(totLen: u16, data: seq<byte>) returns (q: nat, ghost pb: Pbuf)
      requires Homes() && |data| < 0x1_0000
      modifies `mem, `pool
      ensures Homes() && (q == NULL <==> old(pool) == []) && (q == NULL ==> mem == old(mem) && pool == old(pool))
      ensures pb == Pbuf(NULL, totLen, data, 1, Pool, false)
      ensures q != NULL ==> q !in old(mem) && mem == old(mem)[q := pb] && |pool| + 1 == |old(pool)|
    {
      q, pb := NULL, Pbuf(NULL, totLen, data, 1, Pool, false);
      if pool != [] {
        HomeFirst(mem, pool, poolAll, {Pool});
        hide Home;
        q := pool[0];
        HomeTake(mem, pb, pool, poolAll, {Pool});
        HomeOther(mem, q, pb, refs, refAll, {Rom, Ref});
        mem := mem[q := Pbuf(NULL, totLen, data, 1, Pool, false)];
        pool := pool[1..];
      }
    }

    method Link(r: nat, q: nat)
      requires Homes() && r in mem
      modifies `mem
      ensures Homes() && mem == old(mem)[r := old(mem)[r].(next := q)]
    {
      HomeSame(mem, mem[r := mem[r].(next := q)], pool, poolAll, {Pool});
      HomeSame(mem, mem[r := mem[r].(next := q)], refs, refAll, {Rom, Ref});
      mem := mem[r := mem[r].(next := q)];
    }

    /**
     A chain of pool elements for |data| bytes, of which the first leaves `offset` bytes free for
     headers. There are as many as needed, or none if the pool cannot provide them all.
     */
    method AllocPool(offset: nat, data: seq<byte>) returns (p: nat, ghost c: seq<nat>)
      requires Valid() && offset < bufSize && |data| < 0x1_0000
      modifies `mem, `pool, `refs, `book
      ensures Valid()
      ensures p == NULL <==> |old(pool)| < 1 + Pieces(|data| - Least(|data|, bufSize - offset), bufSize)
      ensures p == NULL ==> mem == old(mem) && book == old(book)
      ensures p != NULL ==>
          c != [] && p == c[0] && IsChain(mem, p, c) && AllIn(mem, c) && Flat(mem, c) == data && Exact(mem, c)
      ensures p != NULL ==>
          mem[p].Len() == Least(|data|, bufSize - offset) && Extends(old(mem), old(book), mem, book, Elems(c))
      ensures p != NULL ==> p in book.handles && book.handles[p] == 1 && forall i :: 0 <= i < |c| ==> mem[c[i]].ref == 1
    {
      ghost var m0, b0 := mem, book;
      hide Links, Totals, Home, Building, IsChain, Flat, AllIn, Exact, Extends;
      c := [];
      var len := Least(|data|, bufSize - offset);
      ghost var pb;
      p, pb := PoolElement(|data|, data[..len]);
      if p == NULL {
        return;
      }
      book := NewBook(book, p, |data|);
      BuildStart(m0, b0, p, pb, |data| - len);
      c := [p];
      p, c := AllocRest(p, |data| - len, data, m0, b0);
      if p != NULL {
        BuildSays(m0, b0, mem, book, c, data);
      }
    }

    /** The loop of `pbuf_alloc` for pool pbufs. */
    method AllocRest(first: nat, rest: nat, data: seq<byte>, ghost m0: Memory, ghost b0: Book)
      returns (p: nat, ghost c: seq<nat>)
      requires Homes() && rest <= |data| < 0x1_0000 && 0 < bufSize
          && Building(m0, b0, mem, book, [first], rest, data[..|data| - rest])
      modifies `mem, `pool, `refs, `book
      ensures Linked() && (p == NULL <==> |old(pool)| < Pieces(rest, bufSize))
      ensures p == NULL ==> mem == m0 && book == b0
      ensures p != NULL ==>
          c != [] && p == c[0] == first && first in old(mem) && first in mem
          && mem[first].Len() == old(mem)[first].Len()
      ensures p != NULL ==> Building(m0, b0, mem, book, c, 0, data)
    {
      hide Links, Totals, Home, Building, IsChain, Flat, AllIn, Pieces;
      BuildLast(m0, b0, mem, book, [first], rest, data[..|data| - rest]);
      c := [first];
      var rem: nat, r: nat := rest, first;
      ghost var len := mem[first].Len();
      while 0 < rem
        invariant Homes() && c != [] && r == c[|c| - 1] && first == c[0] && rem <= |data| && first in mem
            && mem[first].Len() == len
        invariant Building(m0, b0, mem, book, c, rem, data[..|data| - rem])
        invariant |pool| + |c| == |old(pool)| + 1 && Pieces(rest, bufSize) + 1 == |c| + Pieces(rem, bufSize)
        decreases rem
      {
        BuildLast(m0, b0, mem, book, c, rem, data[..|data| - rem]);
        PiecesStep(rem, bufSize);
        ghost var m, b := mem, book;
        var n := Least(rem, bufSize);
        var q;
        ghost var pb;
        q, pb := PoolElement(rem, data[|data| - rem..|data| - rem + n]);
        if q == NULL {
          var count;
          ghost var k;
          count, k := Free(first, c);
          BuildUndo(m0, b0, m, b, c, rem, data[..|data| - rem], k);
          return NULL, c;
        }
        BuildMore(m0, b0, m, book, c, rem, data[..|data| - rem], q, pb);
        book := AppendBook(book, r, q, rem);
        Link(r, q);
        assert data[..|data| - rem] + data[|data| - rem..|data| - rem + n] == data[..|data| - (rem - n)];
        c, rem, r := c + [q], rem - n, q;
      }
      p := first;
      BuildLast(m0, b0, mem, book, c, rem, data[..|data| - rem]);
      PiecesStep(0, bufSize);
      assert data[..|data|] == data;
    }
  }

  // ----- the heap block of a pbuf

  /** LWIP_MEM_ALIGN_SIZE in the width of an `int`. */
  function Aligned(n: nat): nat {
    (n + 3) / 4 * 4
  }

  /** SIZEOF_STRUCT_PBUF. */
  const STRUCT_PBUF: nat := 16

  /** Where the payload starts in the block. */
  function PayloadAt(offset: u16): nat {
    Aligned(STRUCT_PBUF + offset)
  }

  /** What `pbuf_alloc` asks the heap for, in the 16 bits of `mem_size_t`. */
  function RamRequest(offset: u16, length: u16): u16 {
    (PayloadAt(offset) + Aligned(length)) % 0x1_0000
  }

  /** The payload fits into the block the heap serves this request with exactly as long as the sum does not wrap. */
  lemma RamFits(offset: u16, length: u16)
    ensures PayloadAt(offset) + length <= M.Request(RamRequest(offset, length))
        <==> PayloadAt(offset) + Aligned(length) <= 0xffff
  {
    var a, b := (STRUCT_PBUF + offset + 3) / 4, (length + 3) / 4;
    assert PayloadAt(offset) == 4 * a && Aligned(length) == 4 * b && length <= 4 * b <= length + 3;
    hide M.Request, M.AlignSize, PayloadAt, Aligned;
    AlignedSum(a + b);
    M.RequestAligned(4 * (a + b) % 0x1_0000);
  }

  lemma AlignedSum(n: nat)
    ensures 4 * n % 0x1_0000 % 4 == 0
  {
  }

  /** The same for the block `mem_malloc` carves out, which can be larger than the request. */
  lemma RamBlockFits(hs: L.Links, size: nat, at: nat, offset: u16, length: u16)
    requires L.Tiles(hs, size) && size <= 64000 && L.Fits(hs, at, M.Request(RamRequest(offset, length)))
    ensures PayloadAt(offset) + length <= L.Carved(at, hs[at].next, M.Request(RamRequest(offset, length))).Data()
        <==> PayloadAt(offset) + Aligned(length) <= 0xffff
  {
    RamFits(offset, length);
    M.FitsWhole(hs, size, at);
  }

  /** A length for which it does not: the header of a TCP segment in front of 65500 bytes. */
  lemma RamMisleads()
    ensures RamRequest(54, 65500) == 36 && M.Request(36) == 36
  {
  }

  lemma PiecesStep(rem: nat, size: nat)
    requires 0 < size
    ensures rem == 0 ==> Pieces(rem, size) == 0
    ensures 0 < rem ==> Pieces(rem, size) == 1 + Pieces(rem - Least(rem, size), size)
  {
  }

  lemma BuildSays(m0: Memory, b0: Book, m: Memory, b: Book, c: seq<nat>, data: seq<byte>)
    requires Building(m0, b0, m, b, c, 0, data) && |data| < 0x1_0000
    ensures Links(m, b) && Totals(m) && AllIn(m, c) && c != [] && IsChain(m, c[0], c) && Flat(m, c) == data
        && Exact(m, c)
    ensures Extends(m0, b0, m, b, Elems(c)) && c[0] in b.handles && b.handles[c[0]] == 1
        && forall i :: 0 <= i < |c| ==> m[c[i]].ref == 1
  {
    BuildDone(m0, b0, m, b, c, data);
    WrapExact(m, c[0], c);
    hide IsChain, Flat, Links, Totals;
    forall i | 0 <= i < |c| ensures m[c[i]].ref == 1 {
      assert Promised(m, b, c, i, 0);
    }
  }

  function Least(x: nat, y: nat): nat {
    if x < y then x else y
  }

  lemma HomeOther(m: Memory, p: nat, pb: Pbuf, free: seq<nat>, all: set<nat>, kinds: set<Kind>)
    requires Home(m, free, all, kinds) && p !in m && p !in all && pb.kind !in kinds
    ensures Home(m[p := pb], free, all, kinds)
  {
  }

  lemma HomeFirst(m: Memory, free: seq<nat>, all: set<nat>, kinds: set<Kind>)
    requires Home(m, free, all, kinds) && free != []
    ensures free[0] !in m && free[0] != NULL && free[0] in all
  {
    assert free[0] in free;
  }

  lemma HomeTake(m: Memory, pb: Pbuf, free: seq<nat>, all: set<nat>, kinds: set<Kind>)
    requires Home(m, free, all, kinds) && free != [] && pb.kind in kinds
    ensures Home(m[free[0] := pb], free[1..], all, kinds)
  {
    assert forall x :: x in free <==> x == free[0] || x in free[1..];
  }

  // ----- the cut of pbuf_split_64k

  lemma FrontSum(m: Memory, b: Book, p: nat, c: seq<nat>, k: nat)
    requires Headed(m, b, p, c)
    ensures AllIn(m, c) && Kept(m, b) && 0 < |c| && p in m && p == c[0] && p != NULL && m[p].Len() < 0x1_0000
        && m[p].next == At(c, 1)
    ensures |Flat(m, c[..1])| == m[p].Len()
    ensures k < |c| ==>
        At(c, k) == c[k] && c[k] != NULL && c[k] in m && m[c[k]].Len() < 0x1_0000 && m[c[k]].next == At(c, k + 1)
    ensures k < |c| ==> |Flat(m, c[..k + 1])| == |Flat(m, c[..k])| + m[c[k]].Len()
  {
    HeadedAt(m, b, p, c, 0);
    FlatGrow(m, c, 0);
    if k < |c| {
      HeadedAt(m, b, p, c, k);
      FlatGrow(m, c, k);
    }
  }

  lemma NothingIn(m: Memory)
    ensures AllIn(m, []) && IsChain(m, NULL, []) && Exact(m, [])
  {
  }

  lemma SplitNowhere(m: Memory, b: Book, p: nat, c: seq<nat>, k: nat)
    requires Headed(m, b, p, c) && AllIn(m, c) && 0 < k <= |c| && At(c, k) == NULL && |Flat(m, c[..k])| < 0x1_0000
    ensures k == |c| && c[k - 1] in m && Unlinked(m, c[k - 1]) == m && IsChain(m, p, c[..k]) && Exact(m, c[..k])
    ensures IsChain(m, NULL, c[k..]) && AllIn(m, c[..k]) && AllIn(m, c[k..])
  {
    hide Links, Kept, TotalOk, IsChain, Exact, Flat, Totals;
    if k < |c| {
      HeadedAt(m, b, p, c, k);
    }
    HeadedAt(m, b, p, c, k - 1);
    NothingIn(m);
    assert c[..|c|] == c && c[|c|..] == [];
    WrapExact(m, p, c);
  }

  lemma SplitIs(m: Memory, c: seq<nat>, k: nat)
    requires AllIn(m, c) && 0 < k < |c|
    ensures c[k - 1] in m && Split(m, c, k) == Bumped(Unlinked(m, c[k - 1]), c[..k], 0 - m[c[k]].totLen as int)
  {
  }

  lemma SplitHomes(m: Memory, c: seq<nat>, k: nat, free: seq<nat>, all: set<nat>, kinds: set<Kind>)
    requires AllIn(m, c) && 0 < k < |c| && Home(m, free, all, kinds)
    ensures c[k - 1] in m && Home(Unlinked(m, c[k - 1]), free, all, kinds)
  {
    HomeSame(m, Unlinked(m, c[k - 1]), free, all, kinds);
  }

  lemma SplitReady(m: Memory, b: Book, p: nat, c: seq<nat>, k: nat)
    requires Headed(m, b, p, c) && AllIn(m, c) && 0 < k < |c| && |Flat(m, c[..k])| < 0x1_0000
    ensures c[k - 1] in m && c[k] in m && Kept(m, b) && m[c[k - 1]].next == c[k] && c[k - 1] != c[k] && p in m
        && p != c[k] && p != NULL
    ensures IsChain(Unlinked(m, c[k - 1]), p, c[..k]) && AllIn(Unlinked(m, c[k - 1]), c[..k])
    ensures Links(Split(m, c, k), UnlinkBook(b, c[k])) && Totals(Split(m, c, k))
    ensures IsChain(Split(m, c, k), p, c[..k]) && IsChain(Split(m, c, k), c[k], c[k..])
    ensures AllIn(Split(m, c, k), c[..k]) && AllIn(m, c[..k]) && Flat(Split(m, c, k), c[..k]) == Flat(m, c[..k])
    ensures Split(m, c, k).Keys == m.Keys && Split(m, c, k)[c[k]] == m[c[k]] && Split(m, c, k)[p].fin == m[p].fin
    ensures forall x :: x in m && x !in c[..k] ==> Split(m, c, k)[x] == m[x]
  {
    HeadedAt(m, b, p, c, k - 1);
    HeadedAt(m, b, p, c, 0);
    SplitOk(m, b, p, c, k);
    SplitFlat(m, c, k);
    ChainIn(m, p, c);
    UnlinkChains(m, p, c, k);
    hide Headed, Links, IsChain, Totals, Flat, Relabelled;
    CutOk(m, b, Split(m, c, k), p, c, k);
    SplitAt(m, b, p, c, k, 0);
  }

  /** The front's FIN flag is passed on to r. */
  function SetFin(m: Memory, r: nat, fin: bool): Memory
    requires r in m
  {
    m[r := m[r].(fin := m[r].fin || fin)]
  }

  lemma FinNo(m: Memory, r: nat)
    requires r in m
    ensures SetFin(m, r, false) == m
  {
  }

  lemma FinHome(m: Memory, r: nat, fin: bool, free: seq<nat>, all: set<nat>, kinds: set<Kind>)
    requires r in m && Home(m, free, all, kinds)
    ensures Home(SetFin(m, r, fin), free, all, kinds)
  {
    HomeSame(m, SetFin(m, r, fin), free, all, kinds);
  }

  lemma FinLinks(m: Memory, b: Book, r: nat, fin: bool)
    requires r in m && Links(m, b) && Totals(m)
    ensures Relabelled(m, SetFin(m, r, fin)) && Links(SetFin(m, r, fin), b) && Totals(SetFin(m, r, fin))
  {
    hide Links;
    RelabelLinks(m, b, SetFin(m, r, fin));
    forall x | x in m ensures TotalOk(SetFin(m, r, fin), x) {
      assert TotalOk(m, x);
    }
  }

  /** What `pbuf_split_64k` has made of the chain c, cut behind its first k pbufs. */
  ghost predicate SplitDone(m0: Memory, p: nat, c: seq<nat>, k: nat, m: Memory) {
    && AllIn(m0, c) && 0 < k < |c| && AllIn(m, c) && m.Keys == m0.Keys && p in m0
    && IsChain(m, p, c[..k]) && IsChain(m, c[k], c[k..]) && Exact(m, c[..k])
    && Flat(m, c[..k]) == Flat(m0, c[..k]) && Flat(m, c[k..]) == Flat(m0, c[k..])
    && (forall x :: x in m0 && x !in c[..k] && x != c[k] ==> m[x] == m0[x])
    && m[c[k]] == m0[c[k]].(fin := m0[c[k]].fin || m0[p].fin)
  }

  lemma SplitSays(m0: Memory, p: nat, c: seq<nat>, k: nat, m: Memory)
    requires SplitDone(m0, p, c, k, m)
    ensures AllIn(m0, c) && 0 < k < |c| && AllIn(m, c) && m.Keys == m0.Keys && p in m0 && c[k] in m0 && c[k] != NULL
        && At(c, k) == c[k]
    ensures IsChain(m, p, c[..k]) && IsChain(m, c[k], c[k..]) && AllIn(m, c[..k]) && AllIn(m0, c[..k])
        && AllIn(m, c[k..]) && AllIn(m0, c[k..])
    ensures Exact(m, c[..k]) && Flat(m, c[..k]) == Flat(m0, c[..k]) && Flat(m, c[k..]) == Flat(m0, c[k..])
    ensures forall x :: x in m0 && x !in c[..k] && x != c[k] ==> m[x] == m0[x]
    ensures m[c[k]] == m0[c[k]].(fin := m0[c[k]].fin || m0[p].fin)
  {
  }

  lemma SplitDoneOk(m: Memory, b: Book, p: nat, c: seq<nat>, k: nat)
    requires Headed(m, b, p, c) && AllIn(m, c) && 0 < k < |c| && |Flat(m, c[..k])| < 0x1_0000 && c[k] in m && p in m
        && Kept(m, b)
    ensures c[k] in Split(m, c, k) && SplitDone(m, p, c, k, SetFin(Split(m, c, k), c[k], m[p].fin))
    ensures Links(SetFin(Split(m, c, k), c[k], m[p].fin), UnlinkBook(b, c[k]))
        && Totals(SetFin(Split(m, c, k), c[k], m[p].fin))
  {
    hide Links, Totals, IsChain, AllIn, Headed, Flat, Exact, Split, Relabelled, UnlinkBook, Unlinked;
    SplitReady(m, b, p, c, k);
    SplitRest(m, b, p, c, k);
    var u := Split(m, c, k);
    var m' := SetFin(u, c[k], m[p].fin);
    FinLinks(u, UnlinkBook(b, c[k]), c[k], m[p].fin);
    RelabelChain(u, m', p, c[..k]);
    RelabelChain(u, m', c[k], c[k..]);
    FinFlat(u, c[k], m[p].fin, c[..k]);
    FinFlat(u, c[k], m[p].fin, c[k..]);
    FinFlat(u, c[k], m[p].fin, c);
    WrapExact(m', p, c[..k]);
  }

  lemma FinFlat(m: Memory, r: nat, fin: bool, c: seq<nat>)
    requires r in m && AllIn(m, c)
    ensures AllIn(SetFin(m, r, fin), c) && Flat(SetFin(m, r, fin), c) == Flat(m, c)
  {
    FlatFrame(m, SetFin(m, r, fin), c);
  }

  lemma SplitRest(m: Memory, b: Book, p: nat, c: seq<nat>, k: nat)
    requires Headed(m, b, p, c) && AllIn(m, c) && 0 < k < |c|
    ensures AllIn(Split(m, c, k), c[k..]) && AllIn(Split(m, c, k), c) && AllIn(m, c[k..])
        && Flat(Split(m, c, k), c[k..]) == Flat(m, c[k..])
  {
    ChainDistinct(m, p, c);
    hide Headed, Flat;
    forall i | 0 <= i < |c[k..]| ensures c[k..][i] !in c[..k] {
      assert c[k..][i] == c[k + i];
    }
    FlatFrame(m, Split(m, c, k), c[k..]);
  }

  /** What `pbuf_realloc` leaves. */
  ghost predicate Reallocated(m0: Memory, b0: Book, p: nat, c: seq<nat>, i: nat, rem: nat, newLen: u16, k: nat,
          m: Memory, b: Book)
    requires p in m0 && AllIn(m0, c) && Kept(m0, b0)
  {
    && i < |c| && rem <= m0[c[i]].Len() && rem < 0x1_0000
    && var m1 := Shrunk(m0, c, i, rem, newLen - m0[p].totLen);
    && (i + 1 == |c| ==> m == m1 && b == b0)
    && (i + 1 < |c| ==> AllIn(m1, c[i + 1..]) && k == HeadRun(m0, c[i + 1..]) && m == FreeMem(m1, c[i + 1..], k))
    && (i + 1 < |c| ==>
        m.Keys <= m0.Keys && c[i + 1] in m0 && b == Restrict(UnlinkBook(b0, c[i + 1]), m.Keys, c[i + 1], -1))
  }

  lemma TailGone(m: Memory, c: seq<nat>, k: nat)
    requires 1 < |c| && AllIn(m, c[1..]) && k == HeadRun(m, c[1..])
    ensures c[1] in FreeMem(m, c[1..], k) <==> k == 0
  {
    assert c[1..][0] == c[1];
    assert 0 < k ==> c[1..][..k][0] == c[1];
  }

  lemma JoinFacts(m: Memory, b: Book, h: nat, c: seq<nat>, t: nat, d: seq<nat>)
    requires Joinable(m, b, h, c, t, d)
    ensures Kept(m, b) && t in m && c != [] && AllIn(m, c) && AllIn(m, d) && IsChain(m, h, c) && c[|c| - 1] in m
  {
    ChainStep(m, t, d);
  }

  lemma CatKinds(m: Memory, c: seq<nat>, t: nat)
    requires c != [] && AllIn(m, c) && t in m
    ensures CatMem(m, c, t).Keys == m.Keys && forall x :: x in m ==> CatMem(m, c, t)[x].kind == m[x].kind
  {
  }

  lemma ChainRef(m: Memory, b: Book, h: nat, c: seq<nat>, t: nat, d: seq<nat>)
    requires Joinable(m, b, h, c, t, d)
    ensures Kept(m, b) && t in m && c != [] && AllIn(m, c) && AllIn(m, d) && t in CatMem(m, c, t)
        && CatMem(m, c, t)[t].ref == m[t].ref
    ensures CatMem(m, c, t).Keys == m.Keys
    ensures t in CatBook(b, c[|c| - 1], t, d).handles && Held(CatBook(b, c[|c| - 1], t, d), t).handles == b.handles
  {
    ChainStep(m, t, d);
    CatAt(m, c, t, t);
  }

  lemma RefKeeps(m: Memory, t: nat, p: nat, c: seq<nat>)
    requires IsChain(m, p, c) && AllIn(m, c) && t in m
    ensures IsChain(Refd(m, t), p, c) && AllIn(Refd(m, t), c) && Flat(Refd(m, t), c) == Flat(m, c)
  {
    SameChain(m, Refd(m, t), p, c);
    FlatFrame(m, Refd(m, t), c);
  }

  lemma RefCount(m: Memory, b: Book, q: nat)
    requires Links(m, b) && q in m && b.prev[q] == NULL
    ensures 0 < b.handles[q]
  {
    assert NodeOk(m, b, q);
  }

  lemma {:induction false} HeadRunSame(m: Memory, m': Memory, c: seq<nat>)
    requires AllIn(m, c) && AllIn(m', c) && forall x :: x in c ==> m'[x].ref == m[x].ref
    ensures HeadRun(m', c) == HeadRun(m, c)
  {
    if c != [] {
      HeadRunSame(m, m', c[1..]);
    }
  }

  lemma BumpHead(m: Memory, b: Book, p: nat, c: seq<nat>, i: nat, a: int)
    requires Headed(m, b, p, c) && i <= |c|
    ensures AllIn(m, c) && (i < |c| ==> c[i] in m && m[c[i]].next == At(c, i + 1) && c[i] in Bumped(m, c[..i], a))
    ensures i < |c| ==> Bumped(m, c[..i], a)[c[i]] == m[c[i]]
    ensures i < |c| ==>
        Bumped(m, c[..i + 1], a) == Bumped(m, c[..i], a)[c[i] := m[c[i]].(totLen := Add16(m[c[i]].totLen, a))]
  {
    BumpAt(m, p, c, i, a);
  }

  lemma BumpKinds(m: Memory, c: seq<nat>, a: int)
    ensures Bumped(m, c, a).Keys == m.Keys && forall x :: x in m ==> Bumped(m, c, a)[x].kind == m[x].kind
  {
  }

  lemma ShrinkStart(m: Memory, b: Book, p: nat, c: seq<nat>, newLen: nat)
    requires Headed(m, b, p, c) && newLen < m[p].totLen
    ensures AllIn(m, c) && 0 < |c| && p == c[0] && p in m && c[..0] == [] && Shrinking(m, b, p, c, 0, newLen, newLen)
    ensures Bumped(m, c[..0], newLen - m[p].totLen) == m
  {
    BumpNone(m, newLen - m[p].totLen);
    assert c[..0] == [];
  }

  lemma ShrinkFacts(m: Memory, b: Book, p: nat, c: seq<nat>, i: nat, rem: nat, newLen: nat)
    requires Shrinking(m, b, p, c, i, rem, newLen)
    ensures rem <= newLen && i < |c| && c[i] in m && AllIn(m, c)
  {
    HeadedAt(m, b, p, c, i);
  }

  /** All that holds once the chain is cut, before the tail is released. */
  lemma ShrunkReady(m: Memory, b: Book, p: nat, c: seq<nat>, i: nat, rem: nat, newLen: nat)
    requires Shrinking(m, b, p, c, i, rem, newLen) && p in m && c[i] in m && rem <= m[c[i]].Len() && rem < 0x1_0000
    ensures Kept(m, b) && AllIn(m, c) && i < |c| && IsChain(m, p, c)
        && Totals(Shrunk(m, c, i, rem, newLen - m[p].totLen))
    ensures IsChain(Shrunk(m, c, i, rem, newLen - m[p].totLen), p, c[..i + 1]) && m[c[i]].next == At(c, i + 1)
    ensures IsChain(Shrunk(m, c, i, rem, newLen - m[p].totLen), At(c, i + 1), c[i + 1..])
    ensures AllIn(Shrunk(m, c, i, rem, newLen - m[p].totLen), c[i + 1..]) && AllIn(m, c[i + 1..])
    ensures i + 1 == |c| ==> Links(Shrunk(m, c, i, rem, newLen - m[p].totLen), b)
    ensures i + 1 < |c| ==> c[i + 1] in m && c[i + 1] != NULL && c[i + 1] in Shrunk(m, c, i, rem, newLen - m[p].totLen)
    ensures i + 1 < |c| ==> Links(Shrunk(m, c, i, rem, newLen - m[p].totLen), UnlinkBook(b, c[i + 1]))
    ensures forall x :: x in c[i + 1..] ==>
        x in m && x in Shrunk(m, c, i, rem, newLen - m[p].totLen)
        && Shrunk(m, c, i, rem, newLen - m[p].totLen)[x].ref == m[x].ref
  {
    ShrinkFacts(m, b, p, c, i, rem, newLen);
    ShrunkFront(m, b, p, c, i, rem, newLen);
    ShrunkRelabel(m, c, i, rem, newLen - m[p].totLen);
    HeadedAt(m, b, p, c, i);
    hide Front, Headed, Links, Totals, IsChain, Flat, Bumped, TotalOk;
    CutOk(m, b, Shrunk(m, c, i, rem, newLen - m[p].totLen), p, c, i + 1);
  }

  lemma ShrunkStore(m: Memory, b: Book, p: nat, c: seq<nat>, i: nat, rem: nat, newLen: nat, m': Memory)
    requires Shrinking(m, b, p, c, i, rem, newLen) && p in m && c[i] in m && rem <= m[c[i]].Len() && rem < 0x1_0000
    requires m' == Bumped(m, c[..i], newLen - m[p].totLen)
    ensures c[i] in m' && m'[c[i]] == m[c[i]] && m'.Keys == m.Keys && AllIn(m, c)
    ensures m'[c[i] := m'[c[i]].(payload := m'[c[i]].payload[..rem], totLen := rem, next := NULL)]
        == Shrunk(m, c, i, rem, newLen - m[p].totLen)
    ensures Shrunk(m, c, i, rem, newLen - m[p].totLen).Keys == m'.Keys
    ensures forall x :: x in m' ==> Shrunk(m, c, i, rem, newLen - m[p].totLen)[x].kind == m'[x].kind
  {
    BumpHead(m, b, p, c, i, newLen - m[p].totLen);
    hide Headed, Flat;
  }

  /** Releasing the tail of a cut chain does not show in its front. */
  lemma FreeKeeps(m0: Memory, m: Memory, p: nat, c: seq<nat>, i: nat, k: nat)
    requires IsChain(m0, p, c) && i <= |c| && IsChain(m, p, c[..i]) && AllIn(m, c[i..]) && k <= |c| - i
    ensures AllIn(m, c[..i]) && IsChain(FreeMem(m, c[i..], k), p, c[..i]) && AllIn(FreeMem(m, c[i..], k), c[..i])
    ensures Flat(FreeMem(m, c[i..], k), c[..i]) == Flat(m, c[..i])
  {
    var m' := FreeMem(m, c[i..], k);
    ChainIn(m, p, c[..i]);
    ChainDistinct(m0, p, c);
    forall x | x in c[..i] ensures x in m' && m'[x] == m[x] {
      assert x !in c[i..];
      assert forall y :: y in c[i..][..k] ==> y in c[i..];
    }
    hide FreeMem;
    SameChain(m, m', p, c[..i]);
    FlatFrame(m, m', c[..i]);
  }

  // ----- where pbuf_dechain misleads

  function LineFrom(n: nat, k: nat): seq<nat>
    requires k <= n + 1
  {
    seq(n + 1 - k, (i: nat) => k + i)
  }

  /** n empty pbufs in a row, each referred to once. */
  function Line(n: nat): Memory {
    map i | i in LineFrom(n, 1) :: Pbuf(if i < n then i + 1 else NULL, 0, [], 1, Ram, false)
  }

  ghost function LineBook(n: nat): Book {
    Book(map i | i in LineFrom(n, 1) :: if i == 1 then 1 else 0, map i | i in LineFrom(n, 1) :: i - 1,
        map i | i in LineFrom(n, 1) :: n - i)
  }

  lemma InLine(n: nat, x: nat)
    ensures x in LineFrom(n, 1) <==> 1 <= x <= n
  {
    if 1 <= x <= n {
      assert LineFrom(n, 1)[x - 1] == x;
    }
  }

  lemma {:induction false} LineRun(n: nat, k: nat)
    requires 1 <= k <= n + 1
    ensures IsChain(Line(n), if k <= n then k else NULL, LineFrom(n, k))
        && HeadRun(Line(n), LineFrom(n, k)) == n + 1 - k
    decreases n + 1 - k
  {
    if k <= n {
      InLine(n, k);
      InLine(n, k + 1);
      assert LineFrom(n, k)[1..] == LineFrom(n, k + 1);
      LineRun(n, k + 1);
    }
  }

  lemma LineZero(n: nat)
    ensures 0 !in LineFrom(n, 1)
  {
    InLine(n, 0);
  }

  lemma LineNode(n: nat, x: nat)
    requires x in Line(n)
    ensures NodeOk(Line(n), LineBook(n), x) && TotalOk(Line(n), x)
  {
    InLine(n, x);
    LineZero(n);
    InLine(n, x - 1);
    InLine(n, x + 1);
  }

  lemma LineHeaded(n: nat)
    requires 0 < n
    ensures Headed(Line(n), LineBook(n), 1, LineFrom(n, 1))
  {
    hide IsChain, HeadRun, Headed, NodeOk, TotalOk;
    LineRun(n, 1);
    InLine(n, 1);
    forall x | x in Line(n) ensures NodeOk(Line(n), LineBook(n), x) && TotalOk(Line(n), x) {
      LineNode(n, x);
    }
    IsHeaded(Line(n), LineBook(n), 1, LineFrom(n, 1));
  }

  lemma LineAll(n: nat)
    requires 1 < n
    ensures 1 in Line(n) && AllIn(Dechained(Line(n), 1), LineFrom(n, 1)[1..])
  {
    InLine(n, 1);
    forall i | 0 <= i < |LineFrom(n, 1)[1..]| ensures LineFrom(n, 1)[1..][i] in Line(n) {
      InLine(n, i + 2);
    }
  }

  /**
   `pbuf_dechain` promises NULL if the tail was released. On a chain of 257 pbufs with one reference
   each it releases all 256 that follow, the 8-bit count is 0, and what it returns is released.
   */
  lemma DechainMisleads()
    ensures var m, c := Line(257), LineFrom(257, 1);
      Headed(m, LineBook(257), 1, c) && AllIn(Dechained(m, 1), c[1..]) && HeadRun(m, c[1..]) == 0x100
      && c[1] !in FreeMem(Dechained(m, 1), c[1..], 0x100)
  {
    hide *;
    LineHeaded(257);
    LineAll(257);
    LineRun(257, 2);
    LineRest(257);
    GoneFromMem(Dechained(Line(257), 1), LineFrom(257, 1)[1..], 0x100, 0);
  }

  lemma LineRest(n: nat)
    requires 0 < n
    ensures |LineFrom(n, 1)| == n && LineFrom(n, 1)[1..] == LineFrom(n, 2)
  {
  }

  lemma GoneFromMem(m: Memory, c: seq<nat>, k: nat, i: nat)
    requires i < k <= |c| && AllIn(m, c)
    ensures c[i] !in FreeMem(m, c, k)
  {
    assert c[..k][i] == c[i];
  }
}
