/**
 LwIP/src/core/pbuf.c: building a chain of fresh pbufs, as edits of the memory and of the book.
 */
module PbufGrow {
  import opened Bytes
  import opened PbufChain
  import opened PbufBook
  import opened PbufLink

  /** A fresh pbuf that one caller refers to. */
  ghost function NewBook(b: Book, p: nat, rank: nat): Book {
    Book(b.handles[p := 1], b.prev[p := NULL], b.rank[p := rank])
  }

  lemma NewLinks(m: Memory, b: Book, p: nat, pb: Pbuf, rank: nat)
    requires Links(m, b) && p !in m && p != NULL && pb.next == NULL && pb.ref == 1 && pb.Len() < 0x1_0000
    ensures Links(m[p := pb], NewBook(b, p, rank))
  {
    var m', b' := m[p := pb], NewBook(b, p, rank);
    forall x | x in m' ensures NodeOk(m', b', x) {
      if x != p {
        assert NodeOk(m, b, x);
      }
    }
  }

  lemma NewTotals(m: Memory, b: Book, p: nat, pb: Pbuf)
    requires Links(m, b) && Totals(m) && p !in m && p != NULL && pb.next == NULL && pb.totLen == pb.Len()
    ensures Totals(m[p := pb])
  {
    var m' := m[p := pb];
    forall x | x in m' ensures TotalOk(m', x) {
      if x != p {
        assert NodeOk(m, b, x) && TotalOk(m, x);
      }
    }
  }

  // ----- the chain of a pool allocation

  /** q is appended behind the last pbuf r of a chain under construction. */
  function Appended(m: Memory, r: nat, q: nat, pb: Pbuf): Memory
    requires r in m
  {
    m[q := pb][r := m[r].(next := q)]
  }

  ghost function AppendBook(b: Book, r: nat, q: nat, rank: nat): Book {
    Book(b.handles[q := 0], b.prev[q := r], b.rank[q := rank])
  }

  lemma AppendLinks(m: Memory, b: Book, r: nat, q: nat, pb: Pbuf, rank: nat)
    requires Links(m, b) && r in m && m[r].next == NULL && q !in m && q != NULL && pb.next == NULL && pb.ref == 1
        && pb.Len() < 0x1_0000
    requires rank < b.rank[r]
    ensures Links(Appended(m, r, q, pb), AppendBook(b, r, q, rank))
  {
    var m', b' := Appended(m, r, q, pb), AppendBook(b, r, q, rank);
    assert NodeOk(m, b, r);
    forall x | x in m' ensures NodeOk(m', b', x) {
      if x != q {
        assert NodeOk(m, b, x);
      }
    }
  }

  ghost predicate SameAt(m0: Memory, b0: Book, m: Memory, b: Book, x: nat) {
    && x in m0 && x in m && m[x] == m0[x]
    && x in b0.handles && x in b.handles && b.handles[x] == b0.handles[x]
    && x in b0.prev && x in b.prev && b.prev[x] == b0.prev[x]
    && x in b0.rank && x in b.rank && b.rank[x] == b0.rank[x]
  }

  /** What existed before is unchanged, and the pbufs in c are new. */
  ghost predicate Extends(m0: Memory, b0: Book, m: Memory, b: Book, c: set<nat>) {
    && Kept(m0, b0) && Kept(m, b) && m.Keys == m0.Keys + c && m0.Keys !! c
    && (forall x {:trigger SameAt(m0, b0, m, b, x)} :: x in m0 ==> SameAt(m0, b0, m, b, x))
  }

  /** `tot_len` of the last pbuf counts what is still to come; those before add up. */
  ghost predicate Promised(m: Memory, b: Book, c: seq<nat>, i: nat, rem: nat)
    requires AllIn(m, c) && i < |c|
  {
    && m[c[i]].ref == 1 && m[c[i]].kind == Pool && c[i] in b.rank && b.rank[c[i]] == m[c[i]].totLen && !m[c[i]].fin
    && m[c[i]].totLen == m[c[i]].Len() + (if i + 1 < |c| then m[c[i + 1]].totLen else rem)
  }

  ghost predicate AllPromised(m: Memory, b: Book, c: seq<nat>, rem: nat) {
    AllIn(m, c) && forall i :: 0 <= i < |c| ==> Promised(m, b, c, i, rem)
  }

  /** A chain of a pool allocation with `rem` bytes still to provide for. */
  ghost predicate Building(m0: Memory, b0: Book, m: Memory, b: Book, c: seq<nat>, rem: nat, got: seq<byte>) {
    && Links(m0, b0) && Totals(m0) && Links(m, b) && Extends(m0, b0, m, b, Elems(c)) && c != [] && AllIn(m, c)
        && IsChain(m, c[0], c)
    && AllPromised(m, b, c, rem) && Flat(m, c) == got
    && b.handles[c[0]] == 1 && (0 < rem ==> 0 < m[c[|c| - 1]].Len())
  }

  lemma BuildStart(m: Memory, b: Book, p: nat, pb: Pbuf, rem: nat)
    requires Links(m, b) && Totals(m) && p !in m && p != NULL && pb.next == NULL && pb.ref == 1 && pb.kind == Pool
        && !pb.fin && pb.Len() < 0x1_0000
    requires pb.totLen == pb.Len() + rem && (0 < rem ==> 0 < pb.Len())
    ensures Building(m, b, m[p := pb], NewBook(b, p, pb.totLen), [p], rem, pb.payload)
  {
    NewLinks(m, b, p, pb, pb.totLen);
    var m', c := m[p := pb], [p];
    assert IsChain(m', NULL, []) && c[1..] == [];
    assert Flat(m', c) == pb.payload + Flat(m', []);
    assert Extends(m, b, m', NewBook(b, p, pb.totLen), Elems(c));
  }

  /** The last pbuf of the chain under construction. */
  lemma BuildLast(m0: Memory, b0: Book, m: Memory, b: Book, c: seq<nat>, rem: nat, got: seq<byte>)
    requires Building(m0, b0, m, b, c, rem, got)
    ensures var r := c[|c| - 1];
        r in m && m[r].next == NULL && r in b.rank && (0 < rem ==> rem < b.rank[r]) && c[0] in m && c[0] != NULL
    ensures NULL !in m && (forall x :: x in m <==> x in m0 || x in c) && Links(m, b) && Totals(m0)
        && IsChain(m, c[0], c) && AllIn(m, c) && c[0] in b.handles && b.handles[c[0]] == 1
  {
    ChainAt(m, b, c[0], c, |c| - 1);
    NullDead(m, b);
    assert Promised(m, b, c, |c| - 1, rem);
  }

  lemma BuildMore(m0: Memory, b0: Book, m: Memory, b: Book, c: seq<nat>, rem: nat, got: seq<byte>, q: nat, pb: Pbuf)
    requires Building(m0, b0, m, b, c, rem, got) && q !in m && q != NULL && pb.next == NULL && pb.ref == 1
        && pb.kind == Pool && !pb.fin
    requires 0 < pb.Len() <= rem == pb.totLen && c[|c| - 1] in m
    ensures Building(m0, b0, Appended(m, c[|c| - 1], q, pb), AppendBook(b, c[|c| - 1], q, rem), c + [q], rem - pb.Len(),
        got + pb.payload)
  {
    var r := c[|c| - 1];
    BuildLast(m0, b0, m, b, c, rem, got);
    AppendLinks(m, b, r, q, pb, rem);
    assert r in c && Elems(c + [q]) == Elems(c) + {q};
    AppendExtends(m0, b0, m, b, Elems(c), r, q, pb, rem);
    AppendChain(m, c[0], c, q, pb);
    AppendPromised(m, b, c, rem, q, pb);
    hide Links, IsChain, Flat, Totals, Extends, AllIn, AllPromised, Appended;
  }

  lemma AppendPromised(m: Memory, b: Book, c: seq<nat>, rem: nat, q: nat, pb: Pbuf)
    requires AllPromised(m, b, c, rem) && c != [] && IsChain(m, c[0], c)
    requires q !in m && pb.ref == 1 && pb.kind == Pool && !pb.fin && pb.Len() <= rem == pb.totLen && c[|c| - 1] in m
    ensures AllPromised(Appended(m, c[|c| - 1], q, pb), AppendBook(b, c[|c| - 1], q, rem), c + [q], rem - pb.Len())
  {
    var m', b', c', rem' := Appended(m, c[|c| - 1], q, pb), AppendBook(b, c[|c| - 1], q, rem), c + [q], rem - pb.Len();
    ChainDistinct(m, c[0], c);
    hide IsChain;
    forall i | 0 <= i < |c'| ensures Promised(m', b', c', i, rem') {
      if i < |c| {
        assert Promised(m, b, c, i, rem);
      }
    }
  }

  lemma AppendSame(m0: Memory, b0: Book, m: Memory, b: Book, r: nat, q: nat, pb: Pbuf, rank: nat, x: nat)
    requires SameAt(m0, b0, m, b, x) && r in m && q !in m && x != r && x != q
    ensures SameAt(m0, b0, Appended(m, r, q, pb), AppendBook(b, r, q, rank), x)
  {
  }

  lemma AppendKept(m: Memory, b: Book, r: nat, q: nat, pb: Pbuf, rank: nat)
    requires Kept(m, b) && r in m && q !in m
    ensures Kept(Appended(m, r, q, pb), AppendBook(b, r, q, rank))
    ensures Appended(m, r, q, pb).Keys == m.Keys + {q}
  {
  }

  lemma AppendExtends(m0: Memory, b0: Book, m: Memory, b: Book, c: set<nat>, r: nat, q: nat, pb: Pbuf, rank: nat)
    requires Extends(m0, b0, m, b, c) && r in c && r in m && q !in m
    ensures Extends(m0, b0, Appended(m, r, q, pb), AppendBook(b, r, q, rank), c + {q})
  {
    var m', b' := Appended(m, r, q, pb), AppendBook(b, r, q, rank);
    hide SameAt, Appended, AppendBook, Kept;
    AppendKept(m, b, r, q, pb, rank);
    forall x | x in m0 ensures SameAt(m0, b0, m', b', x) {
      AppendSame(m0, b0, m, b, r, q, pb, rank, x);
    }
  }

  lemma {:induction false} AppendChain(m: Memory, p: nat, c: seq<nat>, q: nat, pb: Pbuf)
    requires IsChain(m, p, c) && c != [] && c[|c| - 1] in m && q !in m && q != NULL && pb.next == NULL
        && pb.Len() < 0x1_0000
    ensures IsChain(Appended(m, c[|c| - 1], q, pb), p, c + [q]) && AllIn(Appended(m, c[|c| - 1], q, pb), c + [q])
        && AllIn(m, c)
    ensures Flat(Appended(m, c[|c| - 1], q, pb), c + [q]) == Flat(m, c) + pb.payload
    decreases |c|
  {
    var m' := Appended(m, c[|c| - 1], q, pb);
    assert (c + [q])[1..] == c[1..] + [q];
    ChainIn(m, p, c);
    ChainDistinct(m, p, c);
    if |c| == 1 {
      assert c[1..] + [q] == [q] && [q][1..] == [];
      assert Flat(m', [q]) == pb.payload + Flat(m', []);
      assert Flat(m, c) == m[p].payload + Flat(m, []);
    } else {
      assert c[1..][|c| - 2] == c[|c| - 1];
      AppendChain(m, m[p].next, c[1..], q, pb);
      assert c[0] != c[|c| - 1] && m'[c[0]] == m[c[0]];
      assert Flat(m', c + [q]) == m'[c[0]].payload + Flat(m', c[1..] + [q]);
      assert Flat(m, c) == m[p].payload + Flat(m, c[1..]);
    }
  }

  /** The finished chain. */
  lemma BuildDone(m0: Memory, b0: Book, m: Memory, b: Book, c: seq<nat>, got: seq<byte>)
    requires Building(m0, b0, m, b, c, 0, got)
    ensures Links(m, b) && Totals(m) && AllIn(m, c) && IsChain(m, c[0], c) && Flat(m, c) == got
  {
    hide Flat;
    forall x | x in m ensures TotalOk(m, x) {
      if x in m0 {
        assert SameAt(m0, b0, m, b, x);
        OldTotal(m0, b0, m, b, c, x);
      } else {
        var i :| 0 <= i < |c| && c[i] == x;
        NewTotal(m, b, c, i);
      }
    }
  }

  lemma OldTotal(m0: Memory, b0: Book, m: Memory, b: Book, c: seq<nat>, x: nat)
    requires Links(m0, b0) && Totals(m0) && Extends(m0, b0, m, b, Elems(c)) && x in m0
    ensures x in m && TotalOk(m, x)
  {
    assert TotalOk(m0, x) && NodeOk(m0, b0, x) && SameAt(m0, b0, m, b, x);
    if m0[x].next != NULL {
      assert SameAt(m0, b0, m, b, m0[x].next);
    }
  }

  lemma NewTotal(m: Memory, b: Book, c: seq<nat>, i: nat)
    requires Links(m, b) && AllIn(m, c) && i < |c| && IsChain(m, c[0], c) && Promised(m, b, c, i, 0)
    ensures TotalOk(m, c[i])
  {
    ChainAt(m, b, c[0], c, i);
    ChainIn(m, c[0], c);
  }

  /** Giving the pbufs taken so far back leaves everything as it was. */
  lemma BuildUndo(m0: Memory, b0: Book, m: Memory, b: Book, c: seq<nat>, rem: nat, got: seq<byte>, k: nat)
    requires Building(m0, b0, m, b, c, rem, got) && k == HeadRun(m, c)
    ensures k == |c| && FreeMem(m, c, k) == m0 && Restrict(b, m0.Keys, c[0], -1) == b0
  {
    forall i | 0 <= i < |c| ensures m[c[i]].ref == 1 {
      assert Promised(m, b, c, i, rem);
    }
    HeadRunIs(m, c, |c|);
    assert c[..|c|] == c;
    UndoMem(m0, b0, m, b, c);
    UndoBook(m0, b0, m, b, c);
  }

  lemma UndoMem(m0: Memory, b0: Book, m: Memory, b: Book, c: seq<nat>)
    requires Extends(m0, b0, m, b, Elems(c))
    ensures m - Elems(c) == m0
  {
    forall x | x in m0 ensures x in m && m[x] == m0[x] {
      assert SameAt(m0, b0, m, b, x);
    }
  }

  lemma UndoBook(m0: Memory, b0: Book, m: Memory, b: Book, c: seq<nat>)
    requires Extends(m0, b0, m, b, Elems(c)) && Links(m0, b0) && c != []
    ensures m0.Keys <= m.Keys && Restrict(b, m0.Keys, c[0], -1) == b0
  {
    assert c[0] in c;
    forall x | x in m0 ensures x in m && b.handles[x] == b0.handles[x] && b.prev[x] == b0.prev[x]
        && b.rank[x] == b0.rank[x] {
      assert SameAt(m0, b0, m, b, x);
    }
    RestrictSame(m0, b0, c[0], -1);
    hide Links, Extends;
    RestrictAgree(b, b0, m0.Keys, c[0], -1);
  }

  ghost predicate Agree(b: Book, b0: Book, live: set<nat>) {
    && live <= b.handles.Keys && live <= b.prev.Keys && live <= b.rank.Keys
    && live <= b0.handles.Keys && live <= b0.prev.Keys && live <= b0.rank.Keys
    && forall x :: x in live ==> b.handles[x] == b0.handles[x] && b.prev[x] == b0.prev[x] && b.rank[x] == b0.rank[x]
  }

  lemma AgreeHandles(b: Book, b0: Book, live: set<nat>, q: nat, e: int)
    requires Agree(b, b0, live)
    ensures Restrict(b, live, q, e).handles == Restrict(b0, live, q, e).handles
  {
  }

  lemma AgreePrev(b: Book, b0: Book, live: set<nat>, q: nat, e: int)
    requires Agree(b, b0, live)
    ensures Restrict(b, live, q, e).prev == Restrict(b0, live, q, e).prev
  {
  }

  lemma AgreeRank(b: Book, b0: Book, live: set<nat>, q: nat, e: int)
    requires Agree(b, b0, live)
    ensures Restrict(b, live, q, e).rank == Restrict(b0, live, q, e).rank
  {
  }

  lemma RestrictAgree(b: Book, b0: Book, live: set<nat>, q: nat, e: int)
    requires Agree(b, b0, live)
    ensures Restrict(b, live, q, e) == Restrict(b0, live, q, e)
  {
    hide Restrict;
    AgreeHandles(b, b0, live, q, e);
    AgreePrev(b, b0, live, q, e);
    AgreeRank(b, b0, live, q, e);
  }

  /** Number of further pbufs a pool allocation takes. */
  function Pieces(rem: nat, size: nat): nat
    requires 0 < size
  {
    if rem == 0 then 0 else 1 + Pieces(if rem < size then 0 else rem - size, size)
  }
}
