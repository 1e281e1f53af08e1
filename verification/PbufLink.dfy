/**
 LwIP/src/core/pbuf.c: joining and cutting chains, as edits of the memory and of the book.
 */
module PbufLink {
  import opened Bytes
  import opened PbufChain
  import opened PbufBook

  /** The pbufs in c have `a` added to their `tot_len`. */
  ghost function Bumped(m: Memory, c: seq<nat>, a: int): (m': Memory)
    ensures m'.Keys == m.Keys
  {
    map x | x in m :: if x in c then m[x].(totLen := Add16(m[x].totLen, a)) else m[x]
  }

  lemma BumpNone(m: Memory, a: int)
    ensures Bumped(m, [], a) == m
  {
  }

  lemma BumpMore(m: Memory, c: seq<nat>, i: nat, a: int)
    requires i < |c| && AllIn(m, c) && forall j, k :: 0 <= j < k < |c| ==> c[j] != c[k]
    ensures Bumped(m, c[..i], a)[c[i]] == m[c[i]]
    ensures Bumped(m, c[..i + 1], a) == Bumped(m, c[..i], a)[c[i] := m[c[i]].(totLen := Add16(m[c[i]].totLen, a))]
  {
    assert c[..i + 1] == c[..i] + [c[i]];
  }

  /** The walk that bumps a chain, at its pbuf i. */
  lemma BumpAt(m: Memory, h: nat, c: seq<nat>, i: nat, a: int)
    requires IsChain(m, h, c) && AllIn(m, c) && i <= |c|
    ensures i < |c| ==> c[i] in m && m[c[i]].next == At(c, i + 1) && (m[c[i]].next == NULL <==> i + 1 == |c|)
    ensures i < |c| ==> Bumped(m, c[..i], a)[c[i]] == m[c[i]]
    ensures i < |c| ==>
        Bumped(m, c[..i + 1], a) == Bumped(m, c[..i], a)[c[i] := m[c[i]].(totLen := Add16(m[c[i]].totLen, a))]
  {
    if i < |c| {
      ChainIn(m, h, c);
      ChainDistinct(m, h, c);
      BumpMore(m, c, i, a);
      ChainSuffix(m, h, c, i);
      ChainSuffix(m, h, c, i + 1);
      assert c[i..][1..] == c[i + 1..];
    }
  }

  /** Only `tot_len` fields and payload bytes differ, and payloads did not grow. */
  ghost predicate Relabelled(m: Memory, m': Memory) {
    m'.Keys == m.Keys
    && forall x :: x in m ==>
        m'[x] == m[x].(totLen := m'[x].totLen, payload := m'[x].payload, fin := m'[x].fin) && m'[x].Len() <= m[x].Len()
  }

  lemma RelabelLinks(m: Memory, b: Book, m': Memory)
    requires Links(m, b) && Relabelled(m, m')
    ensures Links(m', b)
  {
    forall x | x in m' ensures NodeOk(m', b, x) {
      assert NodeOk(m, b, x);
    }
  }

  lemma {:induction false} RelabelChain(m: Memory, m': Memory, p: nat, c: seq<nat>)
    requires IsChain(m, p, c) && Relabelled(m, m')
    ensures IsChain(m', p, c)
    decreases |c|
  {
    if c != [] {
      RelabelChain(m, m', m[p].next, c[1..]);
    }
  }

  lemma {:induction false} SameChain(m: Memory, m': Memory, p: nat, c: seq<nat>)
    requires IsChain(m, p, c) && AllIn(m, c)
        && forall x :: x in c ==> x in m' && m'[x].next == m[x].next && m'[x].Len() == m[x].Len()
    ensures IsChain(m', p, c)
    decreases |c|
  {
    if c != [] {
      SameChain(m, m', m[p].next, c[1..]);
    }
  }

  // ----- cutting

  /** p is the last pbuf of its chain from now on. */
  function Unlinked(m: Memory, p: nat): Memory
    requires p in m
  {
    m[p := m[p].(next := NULL)]
  }

  /** The pointer to q is a handle from now on. */
  ghost function UnlinkBook(b: Book, q: nat): Book
    requires q in b.handles
  {
    b.(handles := b.handles[q := b.handles[q] + 1], prev := b.prev[q := NULL])
  }

  lemma UnlinkLinks(m: Memory, b: Book, p: nat)
    requires Links(m, b) && p in m && m[p].next != NULL
    ensures m[p].next in m && Links(Unlinked(m, p), UnlinkBook(b, m[p].next))
  {
    assert NodeOk(m, b, p);
    var m', b' := Unlinked(m, p), UnlinkBook(b, m[p].next);
    forall x | x in m' ensures NodeOk(m', b', x) {
      assert NodeOk(m, b, x);
    }
  }

  /** Cutting the chain c behind its pbuf k - 1 gives two chains. */
  lemma {:induction false} UnlinkChains(m: Memory, p: nat, c: seq<nat>, k: nat)
    requires IsChain(m, p, c) && AllIn(m, c) && 0 < k <= |c|
    ensures IsChain(Unlinked(m, c[k - 1]), p, c[..k]) && IsChain(Unlinked(m, c[k - 1]), At(c, k), c[k..])
    decreases |c|
  {
    var m' := Unlinked(m, c[k - 1]);
    ChainDistinct(m, p, c);
    ChainSuffix(m, p, c, k);
    SameChain(m, m', At(c, k), c[k..]);
    if k == 1 {
      assert c[..1] == [p];
    } else {
      ChainSuffix(m, p, c, 1);
      UnlinkChains(m, c[1], c[1..], k - 1);
      assert c[1..][..k - 1] == c[..k][1..];
    }
  }

  // ----- joining

  /** `pbuf_cat`: the pbufs of the first chain count the second one too, and the last of them points to it. */
  ghost function CatMem(m: Memory, c: seq<nat>, t: nat): Memory
    requires c != [] && AllIn(m, c) && t in m
  {
    var m' := Bumped(m, c, m[t].totLen);
    m'[c[|c| - 1] := m'[c[|c| - 1]].(next := t)]
  }

  ghost function CatBook(b: Book, last: nat, t: nat, d: seq<nat>): Book
    requires t in b.handles && t in b.rank
  {
    Book(b.handles[t := b.handles[t] - 1], b.prev[t := last],
         map x | x in b.rank :: if x in d then b.rank[x] else b.rank[x] + b.rank[t] + 1)
  }

  /** Where a pbuf of a chain stands: its neighbours. */
  lemma ChainAt(m: Memory, b: Book, p: nat, c: seq<nat>, i: nat)
    requires Links(m, b) && IsChain(m, p, c) && i < |c|
    ensures c[i] in m && m[c[i]].next == At(c, i + 1) && (0 < i ==> b.prev[c[i]] == c[i - 1])
  {
    ChainIn(m, p, c);
    ChainSuffix(m, p, c, i);
    ChainSuffix(m, p, c, i + 1);
    assert c[i..][1..] == c[i + 1..];
    if 0 < i {
      ChainSuffix(m, p, c, i - 1);
      assert c[i - 1..][1..] == c[i..];
      assert NodeOk(m, b, c[i - 1]);
    }
  }

  /** Following `next` or `prev` from a pbuf of a headed chain stays in the chain. */
  lemma ChainClosed(m: Memory, b: Book, p: nat, c: seq<nat>, x: nat)
    requires Links(m, b) && IsChain(m, p, c) && (p != NULL ==> p in m && b.prev[p] == NULL) && x in m
    ensures x in c && m[x].next != NULL ==> m[x].next in c
    ensures x in c && x != p ==> b.prev[x] in c
    ensures x !in c && m[x].next != NULL ==> m[x].next !in c
  {
    if x in c {
      var i :| 0 <= i < |c| && c[i] == x;
      ChainAt(m, b, p, c, i);
    } else {
      assert NodeOk(m, b, x);
      if m[x].next in c {
        var i :| 0 <= i < |c| && c[i] == m[x].next;
        ChainAt(m, b, p, c, i);
      }
    }
  }

  ghost predicate Joinable(m: Memory, b: Book, h: nat, c: seq<nat>, t: nat, d: seq<nat>) {
    && Links(m, b) && IsChain(m, h, c) && IsChain(m, t, d) && AllIn(m, c) && AllIn(m, d) && h != NULL && t != NULL
        && c != [] && d != []
    && b.prev[h] == NULL && b.prev[t] == NULL && forall x :: x in c ==> x !in d
  }

  /** The fields of one pbuf after the join. */
  lemma CatAt(m: Memory, c: seq<nat>, t: nat, x: nat)
    requires c != [] && AllIn(m, c) && t in m && x in m
    ensures x in CatMem(m, c, t) && CatMem(m, c, t).Keys == m.Keys
    ensures CatMem(m, c, t)[x].next == if x == c[|c| - 1] then t else m[x].next
    ensures CatMem(m, c, t)[x].ref == m[x].ref && CatMem(m, c, t)[x].payload == m[x].payload
    ensures CatMem(m, c, t)[x].totLen == if x in c then Add16(m[x].totLen, m[t].totLen) else m[x].totLen
  {
  }

  lemma CatBookAt(m: Memory, b: Book, last: nat, t: nat, d: seq<nat>, x: nat)
    requires Kept(m, b) && t in m && x in m
    ensures x in CatBook(b, last, t, d).handles && x in CatBook(b, last, t, d).prev && x in CatBook(b, last, t, d).rank
    ensures CatBook(b, last, t, d).handles[x] == if x == t then b.handles[x] - 1 else b.handles[x]
    ensures CatBook(b, last, t, d).prev[x] == if x == t then last else b.prev[x]
    ensures CatBook(b, last, t, d).rank[x] == if x in d then b.rank[x] else b.rank[x] + b.rank[t] + 1
  {
  }

  lemma OnlyLast(m: Memory, b: Book, h: nat, c: seq<nat>, x: nat)
    requires Links(m, b) && IsChain(m, h, c) && x in m
    ensures x in c && m[x].next == NULL ==> x == c[|c| - 1]
  {
    if x in c {
      var i :| 0 <= i < |c| && c[i] == x;
      ChainAt(m, b, h, c, i);
      ChainIn(m, h, c);
    }
  }

  /** The two chains and their neighbourhoods, at pbuf x. */
  lemma JoinAt(m: Memory, b: Book, h: nat, c: seq<nat>, t: nat, d: seq<nat>, x: nat)
    requires Joinable(m, b, h, c, t, d) && x in m
    ensures t in d && t in m && h in c && t != NULL && b.prev[t] == NULL && b.prev[h] == NULL
    ensures c[|c| - 1] in m && c[|c| - 1] !in d && m[c[|c| - 1]].next == NULL && c[|c| - 1] != NULL
    ensures NodeOk(m, b, x) && NodeOk(m, b, t)
    ensures m[x].next != NULL ==> m[x].next in m && (x in d ==> m[x].next in d) && (x in c ==> m[x].next in c)
    ensures m[x].next != NULL ==> (x !in d ==> m[x].next !in d) && (x !in c ==> m[x].next !in c)
    ensures b.prev[x] != NULL ==> b.prev[x] != c[|c| - 1]
    ensures x in c && m[x].next == NULL ==> x == c[|c| - 1]
  {
    OnlyLast(m, b, h, c, x);
    ChainAt(m, b, h, c, |c| - 1);
    ChainStep(m, t, d);
    ChainStep(m, h, c);
    ChainClosed(m, b, t, d, x);
    ChainClosed(m, b, h, c, x);
    assert NodeOk(m, b, x) && NodeOk(m, b, t) && NodeOk(m, b, c[|c| - 1]);
  }

  lemma CatKept(m: Memory, b: Book, h: nat, c: seq<nat>, t: nat, d: seq<nat>)
    requires Joinable(m, b, h, c, t, d)
    ensures Kept(CatMem(m, c, t), CatBook(b, c[|c| - 1], t, d)) && Kept(m, b) && t in m
        && CatMem(m, c, t).Keys == m.Keys
  {
    ChainStep(m, t, d);
    CatAt(m, c, t, t);
  }

  lemma CatNextOk(m: Memory, b: Book, h: nat, c: seq<nat>, t: nat, d: seq<nat>, x: nat)
    requires Joinable(m, b, h, c, t, d) && x in m
    ensures Kept(CatMem(m, c, t), CatBook(b, c[|c| - 1], t, d))
        && NextOk(CatMem(m, c, t), CatBook(b, c[|c| - 1], t, d), x)
  {
    CatKept(m, b, h, c, t, d);
    JoinAt(m, b, h, c, t, d, x);
    hide IsChain, CatMem, CatBook, AllIn, Links, Kept, Joinable;
    CatAt(m, c, t, x);
    CatBookAt(m, b, c[|c| - 1], t, d, x);
    CatBookAt(m, b, c[|c| - 1], t, d, t);
    if m[x].next != NULL {
      CatBookAt(m, b, c[|c| - 1], t, d, m[x].next);
    }
  }

  lemma CatPrevOk(m: Memory, b: Book, h: nat, c: seq<nat>, t: nat, d: seq<nat>, x: nat)
    requires Joinable(m, b, h, c, t, d) && x in m
    ensures Kept(CatMem(m, c, t), CatBook(b, c[|c| - 1], t, d))
        && PrevOk(CatMem(m, c, t), CatBook(b, c[|c| - 1], t, d), x)
  {
    CatKept(m, b, h, c, t, d);
    JoinAt(m, b, h, c, t, d, x);
    hide IsChain, CatMem, CatBook, AllIn, Links, Kept, Joinable;
    CatAt(m, c, t, x);
    CatBookAt(m, b, c[|c| - 1], t, d, x);
    CatAt(m, c, t, c[|c| - 1]);
    if b.prev[x] != NULL {
      CatAt(m, c, t, b.prev[x]);
    }
  }

  lemma CatRefOk(m: Memory, b: Book, h: nat, c: seq<nat>, t: nat, d: seq<nat>, x: nat)
    requires Joinable(m, b, h, c, t, d) && x in m
    ensures Kept(CatMem(m, c, t), CatBook(b, c[|c| - 1], t, d))
        && RefOk(CatMem(m, c, t), CatBook(b, c[|c| - 1], t, d), x)
  {
    CatKept(m, b, h, c, t, d);
    JoinAt(m, b, h, c, t, d, x);
    hide IsChain, CatMem, CatBook, AllIn, Links, Kept, Joinable;
    CatAt(m, c, t, x);
    CatBookAt(m, b, c[|c| - 1], t, d, x);
  }

  lemma CatLinks(m: Memory, b: Book, h: nat, c: seq<nat>, t: nat, d: seq<nat>)
    requires Joinable(m, b, h, c, t, d)
    ensures Links(CatMem(m, c, t), CatBook(b, c[|c| - 1], t, d))
  {
    hide NextOk, PrevOk, RefOk, CatMem, CatBook, IsChain;
    CatKept(m, b, h, c, t, d);
    forall x | x in CatMem(m, c, t) ensures NodeOk(CatMem(m, c, t), CatBook(b, c[|c| - 1], t, d), x) {
      CatNextOk(m, b, h, c, t, d, x);
      CatPrevOk(m, b, h, c, t, d, x);
      CatRefOk(m, b, h, c, t, d, x);
      CatAt(m, c, t, x);
      assert NodeOk(m, b, x);
    }
  }

  lemma CatTotals(m: Memory, b: Book, h: nat, c: seq<nat>, t: nat, d: seq<nat>)
    requires Joinable(m, b, h, c, t, d) && Totals(m)
    ensures Totals(CatMem(m, c, t))
  {
    forall x | x in CatMem(m, c, t) ensures TotalOk(CatMem(m, c, t), x) {
      CatTotal(m, b, h, c, t, d, x);
    }
  }

  lemma Add16Zero(y: u16)
    ensures Add16(0, y) == y
  {
  }

  lemma CatTotal(m: Memory, b: Book, h: nat, c: seq<nat>, t: nat, d: seq<nat>, x: nat)
    requires Joinable(m, b, h, c, t, d) && x in m && TotalOk(m, x)
    ensures x in CatMem(m, c, t) && TotalOk(CatMem(m, c, t), x)
  {
    JoinAt(m, b, h, c, t, d, x);
    assert t !in c;
    hide IsChain, CatMem, AllIn, Links, Joinable, NodeOk, Add16;
    CatAt(m, c, t, x);
    CatAt(m, c, t, t);
    if m[x].next != NULL {
      CatAt(m, c, t, m[x].next);
      Add16Assoc(m[x].Len(), m[m[x].next].totLen, m[t].totLen);
    } else {
      Add16Assoc(m[x].Len(), 0, m[t].totLen);
      Add16Zero(m[t].totLen);
    }
  }

  lemma {:induction false} CatChain(m: Memory, b: Book, h: nat, c: seq<nat>, t: nat, d: seq<nat>, i: nat)
    requires Joinable(m, b, h, c, t, d) && i <= |c|
    ensures IsChain(CatMem(m, c, t), At(c + d, i), c[i..] + d)
    decreases |c| - i
  {
    var m' := CatMem(m, c, t);
    ChainStep(m, t, d);
    if i == |c| {
      assert c[i..] + d == d;
      SameChain(m, m', t, d);
    } else {
      ChainIn(m, h, c);
      ChainAt(m, b, h, c, i);
      ChainDistinct(m, h, c);
      CatChain(m, b, h, c, t, d, i + 1);
      assert (c[i..] + d)[1..] == c[i + 1..] + d;
    }
  }

  /** The joined chain holds the bytes of the first chain followed by those of the second. */
  lemma CatFlat(m: Memory, b: Book, h: nat, c: seq<nat>, t: nat, d: seq<nat>)
    requires Joinable(m, b, h, c, t, d)
    ensures t in m && IsChain(CatMem(m, c, t), h, c + d) && AllIn(CatMem(m, c, t), c + d)
    ensures Flat(CatMem(m, c, t), c + d) == Flat(m, c) + Flat(m, d)
  {
    ChainStep(m, t, d);
    ChainStep(m, h, c);
    CatChain(m, b, h, c, t, d, 0);
    assert c[0..] == c;
    var m' := CatMem(m, c, t);
    FlatFrame(m, m', c);
    FlatFrame(m, m', d);
    FlatAppend(m', c, d);
  }

  // ----- sharing

  /** One more reference, in 16 bits. */
  function Refd(m: Memory, p: nat): (m': Memory)
    requires p in m
    ensures m'.Keys == m.Keys
  {
    m[p := m[p].(ref := (m[p].ref + 1) % 0x1_0000)]
  }

  ghost function Held(b: Book, p: nat): Book
    requires p in b.handles
  {
    b.(handles := b.handles[p := b.handles[p] + 1])
  }

  lemma RefLinks(m: Memory, b: Book, p: nat)
    requires Links(m, b) && p in m
    ensures p in b.handles && (Links(Refd(m, p), Held(b, p)) <==> m[p].ref < 0xffff)
  {
    var m', b' := Refd(m, p), Held(b, p);
    assert NodeOk(m, b, p);
    if m[p].ref < 0xffff {
      forall x | x in m' ensures NodeOk(m', b', x) {
        assert NodeOk(m, b, x);
      }
    } else {
      assert !NodeOk(m', b', p);
    }
  }

  lemma RefTotals(m: Memory, p: nat)
    requires Totals(m) && p in m
    ensures Totals(Refd(m, p))
  {
    forall x | x in m ensures TotalOk(Refd(m, p), x) {
      assert TotalOk(m, x);
    }
  }

  // ----- cutting with the lengths kept right

  /** A whole chain of which no pbuf is pointed to from outside. */
  ghost predicate Headed(m: Memory, b: Book, p: nat, c: seq<nat>) {
    && Links(m, b) && Totals(m) && IsChain(m, p, c) && AllIn(m, c) && c != [] && p == c[0] && p in m
        && b.prev[p] == NULL
  }

  lemma IsHeaded(m: Memory, b: Book, p: nat, c: seq<nat>)
    requires Links(m, b) && Totals(m) && IsChain(m, p, c) && p != NULL && p in m && b.prev[p] == NULL
    ensures Headed(m, b, p, c)
  {
    ChainIn(m, p, c);
  }

  lemma HeadedAt(m: Memory, b: Book, p: nat, c: seq<nat>, i: nat)
    requires Headed(m, b, p, c) && i < |c|
    ensures Kept(m, b) && AllIn(m, c) && c[i] in m && c[i] != NULL && TotalOk(m, c[i]) && m[c[i]].Len() < 0x1_0000
    ensures m[c[i]].next == At(c, i + 1) && (i + 1 < |c| ==> c[i + 1] != NULL && c[i + 1] in m)
    ensures forall j :: i < j < |c| ==> c[j] != c[i]
  {
    ChainAt(m, b, p, c, i);
    ChainIn(m, p, c);
    ChainDistinct(m, p, c);
  }

  lemma PointedAt(m: Memory, b: Book, p: nat, c: seq<nat>, i: nat, x: nat)
    requires Headed(m, b, p, c) && i < |c| && x in m && m[x].next == c[i]
    ensures 0 < i && x == c[i - 1] && forall k :: i < k <= |c| ==> x in c[..k]
  {
    HeadedAt(m, b, p, c, i);
    ChainAt(m, b, p, c, i);
    assert NodeOk(m, b, x);
    assert 0 < i;
    forall k | i < k <= |c| ensures x in c[..k] {
      assert c[..k][i - 1] == x;
    }
  }

  /** No pbuf outside the first k of such a chain points to one of them. */
  lemma Outside(m: Memory, b: Book, p: nat, c: seq<nat>, k: nat, x: nat)
    requires Headed(m, b, p, c) && k <= |c| && x in m && x !in c[..k]
    ensures m[x].next != NULL ==> m[x].next in m && m[x].next !in c[..k]
    ensures TotalOk(m, x)
  {
    assert NodeOk(m, b, x) && TotalOk(m, x);
    hide Headed;
    if m[x].next in c[..k] {
      var i :| 0 <= i < k && c[i] == m[x].next;
      PointedAt(m, b, p, c, i, x);
    }
  }

  /** Only the first k pbufs of a chain change; they count up to their own end from now on. */
  ghost predicate Front(m: Memory, m': Memory, c: seq<nat>, k: nat)
    requires k <= |c|
  {
    && m'.Keys == m.Keys && (forall x :: x in m && x !in c[..k] ==> m'[x] == m[x])
    && (forall i :: 0 <= i < k ==> FrontOk(m', c, i, k))
  }

  ghost predicate FrontOk(m: Memory, c: seq<nat>, i: nat, k: nat)
    requires i < k <= |c|
  {
    c[i] in m && m[c[i]].next == (if i + 1 < k then c[i + 1] else NULL) && TotalOk(m, c[i])
  }

  lemma FrontTotal(m: Memory, b: Book, m': Memory, p: nat, c: seq<nat>, k: nat, x: nat)
    requires Headed(m, b, p, c) && k <= |c| && Front(m, m', c, k) && x in m
    ensures x in m' && TotalOk(m', x)
  {
    hide Headed;
    if x in c[..k] {
      var i :| 0 <= i < k && c[i] == x;
      assert FrontOk(m', c, i, k);
    } else {
      Outside(m, b, p, c, k, x);
      hide FrontOk;
      assert m'[x] == m[x];
    }
  }

  lemma FrontTotals(m: Memory, b: Book, m': Memory, p: nat, c: seq<nat>, k: nat)
    requires Headed(m, b, p, c) && k <= |c| && Front(m, m', c, k)
    ensures Totals(m')
  {
    hide TotalOk, Headed;
    forall x | x in m' ensures TotalOk(m', x) {
      FrontTotal(m, b, m', p, c, k, x);
    }
  }

  /** Cutting c behind its first k pbufs, with `tot_len` fields and payloads changed along the way. */
  lemma CutOk(m: Memory, b: Book, m': Memory, p: nat, c: seq<nat>, k: nat)
    requires Headed(m, b, p, c) && 0 < k <= |c| && Front(m, m', c, k) && c[k - 1] in m
        && Relabelled(Unlinked(m, c[k - 1]), m')
    ensures Kept(m, b) && Totals(m') && IsChain(m', p, c[..k]) && IsChain(m', At(c, k), c[k..])
    ensures k < |c| ==> c[k] in m && m'[c[k]] == m[c[k]] && Links(m', UnlinkBook(b, c[k]))
    ensures k == |c| ==> Links(m', b)
  {
    HeadedAt(m, b, p, c, k - 1);
    FrontTotals(m, b, m', p, c, k);
    CutChains(m, b, m', p, c, k);
    CutLinks(m, b, m', p, c, k);
    hide Headed, Relabelled, Links, IsChain, Totals, TotalOk, AllIn;
    if k < |c| {
      forall i | 0 <= i < k ensures c[i] != c[k] {
        HeadedAt(m, b, p, c, i);
      }
    }
  }

  lemma CutChains(m: Memory, b: Book, m': Memory, p: nat, c: seq<nat>, k: nat)
    requires Headed(m, b, p, c) && 0 < k <= |c| && c[k - 1] in m && Relabelled(Unlinked(m, c[k - 1]), m')
    ensures IsChain(m', p, c[..k]) && IsChain(m', At(c, k), c[k..])
  {
    hide IsChain, Relabelled, Links, AllIn;
    UnlinkChains(m, p, c, k);
    RelabelChain(Unlinked(m, c[k - 1]), m', p, c[..k]);
    RelabelChain(Unlinked(m, c[k - 1]), m', At(c, k), c[k..]);
  }

  lemma CutLinks(m: Memory, b: Book, m': Memory, p: nat, c: seq<nat>, k: nat)
    requires Headed(m, b, p, c) && 0 < k <= |c| && c[k - 1] in m && Relabelled(Unlinked(m, c[k - 1]), m')
    ensures Kept(m, b) && (k < |c| ==> c[k] in m && Links(m', UnlinkBook(b, c[k]))) && (k == |c| ==> Links(m', b))
  {
    HeadedAt(m, b, p, c, k - 1);
    if k < |c| {
      HeadedAt(m, b, p, c, k);
      hide IsChain, Relabelled, AllIn, Totals, TotalOk;
      UnlinkLinks(m, b, c[k - 1]);
      RelabelLinks(Unlinked(m, c[k - 1]), UnlinkBook(b, c[k]), m');
    } else {
      hide IsChain, Relabelled, AllIn, Totals, TotalOk;
      assert Unlinked(m, c[k - 1]) == m;
      RelabelLinks(m, b, m');
    }
  }

  // ----- pbuf_dechain

  function Dechained(m: Memory, p: nat): Memory
    requires p in m
  {
    m[p := m[p].(next := NULL, totLen := m[p].Len() % 0x1_0000)]
  }

  lemma DechainOk(m: Memory, b: Book, p: nat, c: seq<nat>)
    requires Headed(m, b, p, c) && m[p].next != NULL
    ensures Kept(m, b) && 1 < |c| && m[p].next == c[1] && c[1] in m && Links(Dechained(m, p), UnlinkBook(b, c[1]))
        && Totals(Dechained(m, p))
    ensures IsChain(Dechained(m, p), c[1], c[1..]) && AllIn(Dechained(m, p), c[1..])
    ensures m[c[1]].totLen == Add16(m[p].totLen, 0 - m[p].Len() as int) && m[p].Len() < 0x1_0000
  {
    DechainFront(m, b, p, c);
    hide Headed, IsChain, Links, Totals, Front, Relabelled, Dechained, TotalOk;
    CutOk(m, b, Dechained(m, p), p, c, 1);
    ChainIn(Dechained(m, p), c[1], c[1..]);
  }

  lemma DechainFront(m: Memory, b: Book, p: nat, c: seq<nat>)
    requires Headed(m, b, p, c) && m[p].next != NULL
    ensures Kept(m, b) && 1 < |c| && p == c[0] && m[p].next == c[1] && c[1] in m
    ensures Front(m, Dechained(m, p), c, 1) && Relabelled(Unlinked(m, p), Dechained(m, p))
    ensures m[c[1]].totLen == Add16(m[p].totLen, 0 - m[p].Len() as int) && m[p].Len() < 0x1_0000
  {
    HeadedAt(m, b, p, c, 0);
    hide Headed;
    Add16Back(m[p].Len(), m[c[1]].totLen);
  }

  lemma Add16Back(x: nat, y: u16)
    ensures Add16(Add16(x, y), 0 - x as int) == y
  {
  }

  // ----- pbuf_realloc

  /** The first i pbufs of c count `grow` less, the next one is the last and keeps `rem` bytes. */
  ghost function Shrunk(m: Memory, c: seq<nat>, i: nat, rem: nat, grow: int): Memory
    requires AllIn(m, c) && i < |c| && rem <= m[c[i]].Len() && rem < 0x1_0000
  {
    Bumped(m, c[..i], grow)[c[i] := m[c[i]].(payload := m[c[i]].payload[..rem], totLen := rem, next := NULL)]
  }

  /** Where the walk of `pbuf_realloc` may stand. */
  ghost predicate Shrinking(m: Memory, b: Book, p: nat, c: seq<nat>, i: nat, rem: nat, newLen: nat) {
    Headed(m, b, p, c) && i < |c| && newLen < m[p].totLen && newLen == |Flat(m, c[..i])| + rem
  }

  /** `tot_len` of a headed chain's pbufs, in terms of the bytes. */
  lemma HeadedTotal(m: Memory, b: Book, p: nat, c: seq<nat>, i: nat)
    requires Headed(m, b, p, c) && i < |c|
    ensures m[c[i]].totLen == |Flat(m, c[i..])| % 0x1_0000 && |Flat(m, c)| == |Flat(m, c[..i])| + |Flat(m, c[i..])|
    ensures |Flat(m, c[..i + 1])| == |Flat(m, c[..i])| + m[c[i]].Len() && m[p].totLen == |Flat(m, c)| % 0x1_0000
    ensures i + 1 == |c| ==> c[..i + 1] == c
  {
    TotalsWrap(m, p, c);
    FlatSplit(m, c, i);
    FlatGrow(m, c, i);
    assert c[0..] == c;
  }

  lemma ShrinkNext(m: Memory, b: Book, p: nat, c: seq<nat>, i: nat, rem: nat, newLen: nat)
    requires Shrinking(m, b, p, c, i, rem, newLen) && m[c[i]].Len() < rem
    ensures Shrinking(m, b, p, c, i + 1, rem - m[c[i]].Len(), newLen) && m[c[i]].next == c[i + 1]
  {
    HeadedTotal(m, b, p, c, i);
    HeadedAt(m, b, p, c, i);
    hide Headed, Flat;
  }

  /** In 16 bits, what the cut changes at the front equals what it changes at the last pbuf. */
  lemma ShrinkTotal(m: Memory, b: Book, p: nat, c: seq<nat>, i: nat, rem: nat, newLen: nat)
    requires Shrinking(m, b, p, c, i, rem, newLen) && rem <= m[c[i]].Len() && rem < 0x1_0000
    ensures Add16(m[c[i]].totLen, newLen - m[p].totLen) == rem
  {
    HeadedTotal(m, b, p, c, i);
    hide Headed, Flat;
    ShrinkMod(|Flat(m, c)|, |Flat(m, c[i..])|, |Flat(m, c[..i])|, newLen, rem);
  }

  lemma ShrinkMod(all: int, tail: int, front: int, newLen: int, rem: int)
    requires all == front + tail && newLen == front + rem && 0 <= rem < 0x1_0000
    ensures Add16(tail % 0x1_0000, newLen - all % 0x1_0000) == rem
  {
    var a, b := tail / 0x1_0000, all / 0x1_0000;
    assert tail % 0x1_0000 + newLen - all % 0x1_0000 == rem + 0x1_0000 * (b - a);
  }

  lemma ShrunkAt(m: Memory, b: Book, p: nat, c: seq<nat>, i: nat, rem: nat, grow: int, j: nat)
    requires Headed(m, b, p, c) && i < |c| && rem <= m[c[i]].Len() && rem < 0x1_0000 && j <= i
    ensures c[j] in Shrunk(m, c, i, rem, grow) && c[j] in m
    ensures j < i ==> Shrunk(m, c, i, rem, grow)[c[j]] == m[c[j]].(totLen := Add16(m[c[j]].totLen, grow))
    ensures j == i ==>
        Shrunk(m, c, i, rem, grow)[c[j]] == m[c[j]].(payload := m[c[i]].payload[..rem], totLen := rem, next := NULL)
  {
    HeadedAt(m, b, p, c, j);
    hide Headed, Links, Totals, IsChain;
    if j < i {
      assert c[j] == c[..i][j];
    }
  }

  lemma ShrunkNode(m: Memory, b: Book, p: nat, c: seq<nat>, i: nat, rem: nat, newLen: nat, j: nat)
    requires Shrinking(m, b, p, c, i, rem, newLen) && rem <= m[c[i]].Len() && rem < 0x1_0000 && j <= i
    ensures FrontOk(Shrunk(m, c, i, rem, newLen - m[p].totLen), c, j, i + 1)
  {
    var grow := newLen - m[p].totLen;
    ShrinkTotal(m, b, p, c, i, rem, newLen);
    HeadedAt(m, b, p, c, j);
    ShrunkAt(m, b, p, c, i, rem, grow, j);
    if j < i {
      ShrunkAt(m, b, p, c, i, rem, grow, j + 1);
      hide Headed, Shrunk, Add16, Flat;
      Add16Assoc(m[c[j]].Len(), m[c[j + 1]].totLen, grow);
    }
  }

  lemma ShrunkFront(m: Memory, b: Book, p: nat, c: seq<nat>, i: nat, rem: nat, newLen: nat)
    requires Shrinking(m, b, p, c, i, rem, newLen) && rem <= m[c[i]].Len() && rem < 0x1_0000
    ensures Front(m, Shrunk(m, c, i, rem, newLen - m[p].totLen), c, i + 1)
  {
    var k, m' := i + 1, Shrunk(m, c, i, rem, newLen - m[p].totLen);
    assert c[..k] == c[..i] + [c[i]];
    hide Headed, FrontOk, Flat;
    HeadedAt(m, b, p, c, i);
    forall j | 0 <= j < k ensures FrontOk(m', c, j, k) {
      ShrunkNode(m, b, p, c, i, rem, newLen, j);
    }
    hide TotalOk;
    forall x | x in m && x !in c[..k] ensures m'[x] == m[x] {
      assert x !in c[..i] && x != c[i];
    }
  }

  lemma ShrunkRelabel(m: Memory, c: seq<nat>, i: nat, rem: nat, grow: int)
    requires AllIn(m, c) && i < |c| && rem <= m[c[i]].Len() && rem < 0x1_0000
    ensures Relabelled(Unlinked(m, c[i]), Shrunk(m, c, i, rem, grow))
  {
    var u, m' := Unlinked(m, c[i]), Shrunk(m, c, i, rem, grow);
    assert m'.Keys == u.Keys;
    forall x | x in u ensures m'[x] == u[x].(totLen := m'[x].totLen, payload := m'[x].payload, fin := m'[x].fin)
        && m'[x].Len() <= u[x].Len() {
    }
  }

  /** What is left are the first newLen bytes. */
  lemma ShrunkFlat(m: Memory, b: Book, p: nat, c: seq<nat>, i: nat, rem: nat, newLen: nat)
    requires Shrinking(m, b, p, c, i, rem, newLen) && rem <= m[c[i]].Len() && rem < 0x1_0000
    ensures var m' := Shrunk(m, c, i, rem, newLen - m[p].totLen);
      && AllIn(m', c[..i + 1]) && newLen <= |Flat(m, c)| && Flat(m', c[..i + 1]) == Flat(m, c)[..newLen]
  {
    var grow := newLen - m[p].totLen;
    var m' := Shrunk(m, c, i, rem, grow);
    FlatSplit(m, c, i);
    forall j | 0 <= j <= i ensures c[j] in m' && (j < i ==> m'[c[j]].payload == m[c[j]].payload) {
      ShrunkAt(m, b, p, c, i, rem, grow, j);
    }
    ShrunkAt(m, b, p, c, i, rem, grow, i);
    hide Headed, Shrunk, Flat;
    FlatFrame(m, m', c[..i]);
    FlatGrow(m', c[..i + 1], i);
    assert c[..i + 1][..i] == c[..i] && c[..i + 1][..i + 1] == c[..i + 1];
    TakeFront(Flat(m, c[..i]), m[c[i]].payload, Flat(m, c[i + 1..]), rem);
  }

  lemma TakeFront(a: seq<byte>, pl: seq<byte>, r: seq<byte>, rem: nat)
    requires rem <= |pl|
    ensures a + pl[..rem] == (a + (pl + r))[..|a| + rem]
  {
  }

  // ----- pbuf_split_64k

  lemma WrapExact(m: Memory, p: nat, c: seq<nat>)
    requires IsChain(m, p, c) && Totals(m) && AllIn(m, c) && |Flat(m, c)| < 0x1_0000
    ensures Exact(m, c)
  {
    hide IsChain, Flat, Totals;
    TotalsWrap(m, p, c);
    forall i | 0 <= i < |c| ensures m[c[i]].totLen == |Flat(m, c[i..])| {
      FlatSplit(m, c, i);
    }
  }

  /** The chain cut behind its first k pbufs, which then count up to the cut. */
  ghost function Split(m: Memory, c: seq<nat>, k: nat): Memory
    requires AllIn(m, c) && 0 < k < |c|
  {
    Bumped(Unlinked(m, c[k - 1]), c[..k], 0 - m[c[k]].totLen as int)
  }

  lemma SplitAt(m: Memory, b: Book, p: nat, c: seq<nat>, k: nat, j: nat)
    requires Headed(m, b, p, c) && 0 < k < |c| && j < k
    ensures c[j] in Split(m, c, k)
    ensures Split(m, c, k)[c[j]]
        == m[c[j]].(totLen := Add16(m[c[j]].totLen, 0 - m[c[k]].totLen as int),
        next := if j + 1 < k then c[j + 1] else NULL)
  {
    HeadedAt(m, b, p, c, j);
    hide Headed, Links, Totals, IsChain;
    assert c[j] == c[..k][j];
  }

  lemma SplitNode(m: Memory, b: Book, p: nat, c: seq<nat>, k: nat, j: nat)
    requires Headed(m, b, p, c) && 0 < k < |c| && j < k
    ensures FrontOk(Split(m, c, k), c, j, k)
  {
    HeadedAt(m, b, p, c, j);
    SplitAt(m, b, p, c, k, j);
    var t := m[c[k]].totLen;
    Add16Assoc(m[c[j]].Len(), m[c[j + 1]].totLen, 0 - t as int);
    assert Add16(t, 0 - t as int) == 0;
    if j + 1 < k {
      SplitAt(m, b, p, c, k, j + 1);
    }
    hide Headed, Split, Add16;
  }

  lemma SplitOk(m: Memory, b: Book, p: nat, c: seq<nat>, k: nat)
    requires Headed(m, b, p, c) && 0 < k < |c|
    ensures Front(m, Split(m, c, k), c, k) && c[k - 1] in m && Relabelled(Unlinked(m, c[k - 1]), Split(m, c, k))
  {
    HeadedAt(m, b, p, c, k - 1);
    assert c[k - 1] in c[..k];
    hide Headed, FrontOk;
    forall j | 0 <= j < k ensures FrontOk(Split(m, c, k), c, j, k) {
      SplitNode(m, b, p, c, k, j);
    }
  }

  lemma SplitFlat(m: Memory, c: seq<nat>, k: nat)
    requires AllIn(m, c) && 0 < k < |c|
    ensures AllIn(m, c[..k]) && AllIn(Split(m, c, k), c[..k]) && Flat(Split(m, c, k), c[..k]) == Flat(m, c[..k])
  {
    FlatFrame(m, Split(m, c, k), c[..k]);
  }
}
