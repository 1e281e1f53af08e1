/**
 LwIP/src/core/pbuf.c: who owns a pbuf. The book kept beside the memory counts the references that
 callers hold and knows, for each pbuf, the one that points to it.
 */
module PbufBook {
  import opened Bytes
  import opened PbufChain

  /**
   `handles` counts the references held by callers, `prev` is the pbuf whose `next` points here (or
   NULL), `rank` decreases along `next`, so that no chain runs in a circle.
   */
  datatype Book = Book(handles: map<nat, int>, prev: map<nat, nat>, rank: map<nat, nat>)

  ghost predicate Kept(m: Memory, b: Book) {
    b.handles.Keys == m.Keys && b.prev.Keys == m.Keys && b.rank.Keys == m.Keys
  }

  /** `next` leads to a live pbuf that knows it is pointed to from here. */
  ghost predicate NextOk(m: Memory, b: Book, p: nat)
    requires Kept(m, b) && p in m
  {
    m[p].next != NULL ==> m[p].next in m && b.prev[m[p].next] == p && b.rank[m[p].next] < b.rank[p]
  }

  ghost predicate PrevOk(m: Memory, b: Book, p: nat)
    requires Kept(m, b) && p in m
  {
    b.prev[p] != NULL ==> b.prev[p] in m && m[b.prev[p]].next == p
  }

  /** The reference count is the number of pointers to this pbuf, and there is at least one. */
  ghost predicate RefOk(m: Memory, b: Book, p: nat)
    requires Kept(m, b) && p in m
  {
    0 <= b.handles[p] && m[p].ref == b.handles[p] + (if b.prev[p] == NULL then 0 else 1) && 0 < m[p].ref <= 0xffff
  }

  ghost predicate NodeOk(m: Memory, b: Book, p: nat)
    requires Kept(m, b) && p in m
  {
    p != NULL && m[p].Len() < 0x1_0000 && NextOk(m, b, p) && PrevOk(m, b, p) && RefOk(m, b, p)
  }

  /** Links, reference counts and field widths of every live pbuf. */
  ghost predicate Links(m: Memory, b: Book) {
    Kept(m, b) && forall p {:trigger NodeOk(m, b, p)} :: p in m ==> NodeOk(m, b, p)
  }

  /** Addition of 16-bit fields. */
  function Add16(x: int, y: int): u16 {
    (x + y) % 0x1_0000
  }

  lemma Add16Assoc(x: int, y: int, z: int)
    ensures Add16(Add16(x, y), z) == Add16(x, Add16(y, z))
  {
  }

  lemma Add16Mod(x: int, y: int)
    ensures Add16(x, y % 0x1_0000) == (x + y) % 0x1_0000
  {
  }

  /** p->tot_len == p->len + (p->next ? p->next->tot_len : 0), in 16 bits. */
  ghost predicate TotalOk(m: Memory, p: nat)
    requires p in m
  {
    (m[p].next == NULL ==> m[p].totLen == Add16(m[p].Len(), 0))
    && (m[p].next != NULL ==> m[p].next in m && m[p].totLen == Add16(m[p].Len(), m[m[p].next].totLen))
  }

  ghost predicate Totals(m: Memory) {
    forall p {:trigger TotalOk(m, p)} :: p in m ==> TotalOk(m, p)
  }

  // ----- what the book implies

  lemma NullDead(m: Memory, b: Book)
    requires Links(m, b)
    ensures NULL !in m
  {
    forall x | x in m ensures x != NULL {
      assert NodeOk(m, b, x);
    }
  }

  /** Every live pbuf starts a chain that ends. */
  lemma {:induction false} HasChain(m: Memory, b: Book, p: nat) returns (c: seq<nat>)
    requires Links(m, b) && (p == NULL || p in m)
    ensures IsChain(m, p, c)
    decreases if p == NULL then 0 else b.rank[p] + 1
  {
    if p == NULL {
      return [];
    }
    assert NodeOk(m, b, p);
    var d := HasChain(m, b, m[p].next);
    c := [p] + d;
  }

  lemma {:induction false} TotalWraps(m: Memory, p: nat, c: seq<nat>)
    requires IsChain(m, p, c) && AllIn(m, c) && Totals(m) && p != NULL
    ensures m[p].totLen == |Flat(m, c)| % 0x1_0000
    decreases |c|
  {
    assert TotalOk(m, p);
    ChainStep(m, p, c);
    var q, f := m[p].next, |Flat(m, c[1..])|;
    assert |Flat(m, c)| == m[p].Len() + f;
    hide Totals, Flat, IsChain, AllIn, Add16;
    Add16Mod(m[p].Len(), f);
    if q != NULL {
      TotalWraps(m, q, c[1..]);
    } else {
      EmptyFlat(m, c[1..]);
    }
  }

  lemma EmptyFlat(m: Memory, c: seq<nat>)
    requires IsChain(m, NULL, c) && AllIn(m, c)
    ensures |Flat(m, c)| == 0
  {
  }

  /** The `tot_len` fields of a chain count its bytes modulo 2^16. */
  lemma TotalsWrap(m: Memory, p: nat, c: seq<nat>)
    requires IsChain(m, p, c) && Totals(m)
    ensures AllIn(m, c) && Wrapped(m, c)
  {
    ChainIn(m, p, c);
    forall i | 0 <= i < |c| ensures m[c[i]].totLen == |Flat(m, c[i..])| % 0x1_0000 {
      ChainSuffix(m, p, c, i);
      TotalWraps(m, c[i], c[i..]);
    }
  }

  /** In a set of live pbufs one has no other of the set pointing to it. */
  lemma {:induction false} Topmost(b: Book, s: set<nat>) returns (p: nat)
    requires s != {} && s <= b.rank.Keys
    ensures p in s && forall x :: x in s ==> b.rank[x] <= b.rank[p]
    decreases |s|
  {
    var y :| y in s;
    if s == {y} {
      return y;
    }
    p := Topmost(b, s - {y});
    if b.rank[p] < b.rank[y] {
      p := y;
    }
  }

  lemma HandleOrAbove(m: Memory, b: Book, p: nat)
    requires Links(m, b) && p in m
    ensures 0 < b.handles[p] || (b.prev[p] in m && b.rank[p] < b.rank[b.prev[p]])
  {
    assert NodeOk(m, b, p);
    if b.prev[p] != NULL {
      assert NodeOk(m, b, b.prev[p]);
    }
  }

  /** Nothing leaks: once callers hold no reference, no pbuf is allocated. */
  lemma NoLeak(m: Memory, b: Book)
    requires Links(m, b) && forall p :: p in m ==> b.handles[p] == 0
    ensures m == map[]
  {
    if m.Keys != {} {
      var p := Topmost(b, m.Keys);
      HandleOrAbove(m, b, p);
    }
  }

  // ----- releasing

  function Elems(c: seq<nat>): set<nat> {
    set x | x in c
  }

  /** Number of pbufs at the head of the chain whose count is one. */
  function HeadRun(m: Memory, c: seq<nat>): (k: nat)
    ensures k <= |c|
  {
    if c == [] || c[0] !in m || m[c[0]].ref != 1 then 0 else 1 + HeadRun(m, c[1..])
  }

  lemma {:induction false} HeadRunIs(m: Memory, c: seq<nat>, k: nat)
    requires AllIn(m, c) && k <= |c|
    requires forall i :: 0 <= i < k ==> m[c[i]].ref == 1
    requires k < |c| ==> m[c[k]].ref != 1
    ensures HeadRun(m, c) == k
    decreases k
  {
    if 0 < k {
      assert m[c[0]].ref == 1;
      HeadRunIs(m, c[1..], k - 1);
    }
  }

  /** The book of the pbufs still alive: pointers from released ones are gone, and q has `extra` more handles. */
  ghost function Restrict(b: Book, live: set<nat>, q: nat, extra: int): Book
    requires live <= b.handles.Keys && live <= b.prev.Keys && live <= b.rank.Keys
  {
    Book(map x | x in live :: if x == q then b.handles[x] + extra else b.handles[x],
         map x | x in live :: if b.prev[x] in live then b.prev[x] else NULL,
         map x | x in live :: b.rank[x])
  }

  /** One reference less. */
  function Unref(m: Memory, p: nat): Memory
    requires p in m
  {
    m[p := m[p].(ref := if m[p].ref == 0 then 0 else m[p].ref - 1)]
  }

  ghost function DropHandle(b: Book, p: nat): Book
    requires p in b.handles
  {
    b.(handles := b.handles[p := b.handles[p] - 1])
  }

  /** The memory after `pbuf_free`: the first k pbufs are gone, the next one has lost a reference. */
  ghost function FreeMem(m: Memory, c: seq<nat>, k: nat): Memory
    requires k <= |c| && AllIn(m, c)
  {
    var m' := m - Elems(c[..k]);
    if k < |c| && c[k] in m' then Unref(m', c[k]) else m'
  }

  ghost function At(c: seq<nat>, i: nat): nat {
    if i < |c| then c[i] else NULL
  }

  /** Inside the loop of `pbuf_free`: i pbufs are released and the pointer to c[i] is a handle about to be dropped. */
  ghost predicate Freeing(m0: Memory, b0: Book, c: seq<nat>, i: nat, m: Memory, b: Book) {
    && Links(m0, b0) && IsChain(m0, At(c, 0), c) && AllIn(m0, c) && i <= |c| && m == m0 - Elems(c[..i]) && Links(m, b)
    && (forall k :: 0 <= k < i ==> m0[c[k]].ref == 1)
    && b == Restrict(b0, m.Keys, At(c, i), if i == 0 then 0 else 1)
    && (i < |c| ==> c[i] in m && 0 < b.handles[c[i]])
  }

  /** What `pbuf_free` of the chain c has done once its loop ends. */
  ghost predicate Freed(m0: Memory, b0: Book, c: seq<nat>, k: nat, m: Memory, b: Book) {
    && AllIn(m0, c) && c != [] && Kept(m0, b0) && m.Keys <= m0.Keys && Links(m, b)
    && k == HeadRun(m0, c) && m == FreeMem(m0, c, k) && b == Restrict(b0, m.Keys, c[0], -1)
  }

  lemma FreedIs(m0: Memory, b0: Book, c: seq<nat>, k: nat, m: Memory, b: Book)
    requires Freed(m0, b0, c, k, m, b)
    ensures AllIn(m0, c) && c != [] && Kept(m0, b0) && m.Keys <= m0.Keys && Links(m, b)
    ensures k == HeadRun(m0, c) && m == FreeMem(m0, c, k) && b == Restrict(b0, m.Keys, c[0], -1)
  {
  }

  lemma RestrictAll(b: Book, live: set<nat>, q: nat, e: int)
    requires e == 0 || q !in live
    requires live == b.handles.Keys == b.prev.Keys == b.rank.Keys
    requires forall x :: x in live ==> b.prev[x] in live || b.prev[x] == NULL
    ensures Restrict(b, live, q, e) == b
  {
  }

  lemma RestrictSame(m: Memory, b: Book, q: nat, e: int)
    requires Links(m, b) && (e == 0 || q !in m)
    ensures Restrict(b, m.Keys, q, e) == b
  {
    forall x | x in m ensures b.prev[x] in m || b.prev[x] == NULL {
      assert NodeOk(m, b, x);
    }
    hide Links, Restrict;
    RestrictAll(b, m.Keys, q, e);
  }

  lemma FreeStart(m: Memory, b: Book, p: nat, c: seq<nat>)
    requires Links(m, b) && p != NULL && IsChain(m, p, c) && p in m && 0 < b.handles[p]
    ensures Kept(m, b) && c != [] && p == c[0] == At(c, 0) && Freeing(m, b, c, 0, m, b)
  {
    ChainIn(m, p, c);
    RestrictSame(m, b, p, 0);
    assert m - Elems(c[..0]) == m;
  }

  lemma ReleaseNode(m: Memory, b: Book, p: nat, x: nat)
    requires Links(m, b) && p in m && b.handles[p] == 1 && b.prev[p] == NULL && x in m && x != p
    ensures var m' := m - {p}; var b' := Restrict(b, m'.Keys, m[p].next, 1); Kept(m', b') && NodeOk(m', b', x)
  {
    assert NodeOk(m, b, x) && NodeOk(m, b, p);
    hide Links;
    var m' := m - {p};
    var b' := Restrict(b, m'.Keys, m[p].next, 1);
    assert m[x].next != p && m'[x] == m[x];
    assert b'.prev[x] == if b.prev[x] == p then NULL else b.prev[x];
  }

  /** Releasing one pbuf that only one handle refers to; its `next` pointer is turned into a handle. */
  lemma ReleaseLinks(m: Memory, b: Book, p: nat)
    requires Links(m, b) && p in m && b.handles[p] == 1 && b.prev[p] == NULL
    ensures var m' := m - {p}; Links(m', Restrict(b, m'.Keys, m[p].next, 1))
  {
    hide NodeOk;
    var m' := m - {p};
    var b' := Restrict(b, m'.Keys, m[p].next, 1);
    forall x | x in m' ensures NodeOk(m', b', x) {
      ReleaseNode(m, b, p, x);
    }
  }

  lemma RestrictTwice(b: Book, live: set<nat>, live': set<nat>, q: nat, e: int, q': nat, e': int)
    requires live <= b.handles.Keys && live <= b.prev.Keys && live <= b.rank.Keys && live' <= live && q !in live'
        && NULL !in live
    ensures Restrict(Restrict(b, live, q, e), live', q', e') == Restrict(b, live', q', e')
  {
  }

  lemma TakeMore(m: Memory, c: seq<nat>, i: nat)
    requires i < |c|
    ensures m - Elems(c[..i + 1]) == (m - Elems(c[..i])) - {c[i]}
  {
    assert c[..i + 1] == c[..i] + [c[i]];
  }

  /** What the chain says about its pbuf i while the first i are gone. */
  lemma FreeingAt(m0: Memory, b0: Book, c: seq<nat>, i: nat, m: Memory, b: Book)
    requires Freeing(m0, b0, c, i, m, b) && i < |c|
    ensures c[i] in m && m[c[i]] == m0[c[i]] && c[i] != NULL && m[c[i]].next == At(c, i + 1)
    ensures i + 1 < |c| ==> c[i + 1] in m && c[i + 1] != c[i]
    ensures 0 < m[c[i]].ref && Kept(m, b) && 0 < b.handles[c[i]]
  {
    assert NodeOk(m, b, c[i]);
    ChainSuffix(m0, c[0], c, i);
    ChainSuffix(m0, c[0], c, i + 1);
    assert c[i..][1..] == c[i + 1..];
    ChainDistinct(m0, c[0], c);
  }

  lemma FreeStep(m0: Memory, b0: Book, c: seq<nat>, i: nat, m: Memory, b: Book)
    requires Freeing(m0, b0, c, i, m, b) && i < |c| && c[i] in m && m[c[i]].ref == 1
    ensures var m' := m - {c[i]}; Freeing(m0, b0, c, i + 1, m', Restrict(b, m'.Keys, At(c, i + 1), 1))
  {
    var p := c[i];
    var m' := m - {p};
    FreeingAt(m0, b0, c, i, m, b);
    assert NodeOk(m, b, p);
    ReleaseLinks(m, b, p);
    TakeMore(m0, c, i);
    NullDead(m, b);
    RestrictTwice(b0, m.Keys, m'.Keys, p, if i == 0 then 0 else 1, At(c, i + 1), 1);
    if i + 1 < |c| {
      assert NodeOk(m, b, c[i + 1]);
    }
  }

  /** Dropping one of several references. */
  lemma DropLinks(m: Memory, b: Book, p: nat)
    requires Links(m, b) && p in m && 0 < b.handles[p] && m[p].ref != 1
    ensures Links(Unref(m, p), DropHandle(b, p))
  {
    var m', b' := Unref(m, p), DropHandle(b, p);
    forall x | x in m' ensures NodeOk(m', b', x) {
      assert NodeOk(m, b, x);
      assert m[x].next != NULL ==> NodeOk(m, b, m[x].next);
    }
  }

  lemma DropRestrict(b0: Book, live: set<nat>, c: seq<nat>, i: nat)
    requires live <= b0.handles.Keys && live <= b0.prev.Keys && live <= b0.rank.Keys && i < |c| && c[i] in live
    requires 0 < i ==> c[0] !in live
    ensures DropHandle(Restrict(b0, live, c[i], if i == 0 then 0 else 1), c[i]) == Restrict(b0, live, c[0], -1)
  {
  }

  lemma FreeStop(m0: Memory, b0: Book, c: seq<nat>, i: nat, m: Memory, b: Book)
    requires Freeing(m0, b0, c, i, m, b) && i < |c| && c[i] in m && m[c[i]].ref != 1
    ensures Freed(m0, b0, c, i, Unref(m, c[i]), DropHandle(b, c[i]))
  {
    FreeingAt(m0, b0, c, i, m, b);
    HeadRunIs(m0, c, i);
    hide Links, IsChain, Restrict;
    DropLinks(m, b, c[i]);
    assert 0 < i ==> c[0] in c[..i];
    DropRestrict(b0, m.Keys, c, i);
  }

  lemma FreeEnd(m0: Memory, b0: Book, c: seq<nat>, m: Memory, b: Book)
    requires Freeing(m0, b0, c, |c|, m, b) && c != []
    ensures Freed(m0, b0, c, |c|, m, b)
  {
    HeadRunIs(m0, c, |c|);
    NullDead(m, b);
    assert c[..|c|] == c;
    ChainIn(m0, c[0], c);
    assert c[0] in c;
  }

  /** Releasing a head run leaves the `tot_len` fields of all others right: nobody live points into the run. */
  lemma FreeTotals(m: Memory, c: seq<nat>, k: nat, b': Book)
    requires AllIn(m, c) && k <= |c| && Links(FreeMem(m, c, k), b') && Totals(m)
    ensures Totals(FreeMem(m, c, k))
  {
    var m' := FreeMem(m, c, k);
    SameFields(m, c, k);
    forall x | x in m' ensures TotalOk(m', x) {
      assert TotalOk(m, x);
      assert NodeOk(m', b', x);
    }
  }

  lemma SameFields(m: Memory, c: seq<nat>, k: nat)
    requires AllIn(m, c) && k <= |c|
    ensures forall x :: x in FreeMem(m, c, k) ==> x in m && FreeMem(m, c, k)[x] == m[x].(ref := FreeMem(m, c, k)[x].ref)
  {
  }
}
