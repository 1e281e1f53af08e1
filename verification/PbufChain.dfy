/**
 LwIP/src/core/pbuf.c: chains of packet buffers. A pointer is an address, NULL is 0, and the memory
 maps the addresses of allocated pbufs to their fields.
 */
module PbufChain {
  import opened Bytes

  const NULL: nat := 0

  datatype Kind = Ram | Rom | Ref | Pool

  /** `struct pbuf`; `payload` are the `len` bytes the payload pointer gives access to. */
  datatype Pbuf = Pbuf(next: nat, totLen: u16, payload: seq<byte>, ref: nat, kind: Kind, fin: bool) {
    function Len(): nat { |payload| }
  }

  type Memory = map<nat, Pbuf>

  /** Following `next` from p visits exactly the pbufs c and ends at NULL. */
  ghost predicate IsChain(m: Memory, p: nat, c: seq<nat>)
    decreases |c|
  {
    if c == [] then p == NULL
    else p == c[0] && p != NULL && p in m && m[p].Len() < 0x1_0000 && IsChain(m, m[p].next, c[1..])
  }

  ghost predicate AllIn(m: Memory, c: seq<nat>) {
    forall i :: 0 <= i < |c| ==> c[i] in m
  }

  /** The chain as one flat byte sequence. */
  ghost function Flat(m: Memory, c: seq<nat>): seq<byte>
    requires AllIn(m, c)
  {
    if c == [] then [] else m[c[0]].payload + Flat(m, c[1..])
  }

  /** Every `tot_len` counts the bytes from its pbuf to the end of the chain. */
  ghost predicate Exact(m: Memory, c: seq<nat>)
    requires AllIn(m, c)
  {
    forall i :: 0 <= i < |c| ==> m[c[i]].totLen == |Flat(m, c[i..])|
  }

  /** Every `tot_len` counts them modulo the width of its field. */
  ghost predicate Wrapped(m: Memory, c: seq<nat>)
    requires AllIn(m, c)
  {
    forall i :: 0 <= i < |c| ==> m[c[i]].totLen == |Flat(m, c[i..])| % 0x1_0000
  }

  lemma {:induction false} ChainIn(m: Memory, p: nat, c: seq<nat>)
    requires IsChain(m, p, c)
    ensures AllIn(m, c)
    ensures forall i :: 0 <= i < |c| ==> c[i] != NULL && m[c[i]].Len() < 0x1_0000
    decreases |c|
  {
    if c != [] {
      ChainIn(m, m[p].next, c[1..]);
      assert forall i :: 1 <= i < |c| ==> c[i] == c[1..][i - 1];
    }
  }

  lemma ChainStep(m: Memory, p: nat, c: seq<nat>)
    requires IsChain(m, p, c) && p != NULL
    ensures c != [] && p == c[0] && AllIn(m, c) && AllIn(m, c[1..]) && IsChain(m, m[p].next, c[1..])
    ensures Flat(m, c) == m[p].payload + Flat(m, c[1..]) && m[p].Len() < 0x1_0000
  {
    ChainIn(m, p, c);
  }

  /** Every suffix of a chain is the chain of its first pbuf. */
  lemma {:induction false} ChainSuffix(m: Memory, p: nat, c: seq<nat>, i: nat)
    requires IsChain(m, p, c) && i <= |c|
    ensures IsChain(m, if i < |c| then c[i] else NULL, c[i..])
    decreases i
  {
    if 0 < i {
      ChainSuffix(m, m[p].next, c[1..], i - 1);
      assert c[1..][i - 1..] == c[i..];
    }
  }

  lemma {:induction false} ChainUnique(m: Memory, p: nat, c: seq<nat>, d: seq<nat>)
    requires IsChain(m, p, c) && IsChain(m, p, d)
    ensures c == d
    decreases |c|
  {
    if c != [] {
      ChainUnique(m, m[p].next, c[1..], d[1..]);
      assert c == [c[0]] + c[1..] && d == [d[0]] + d[1..];
    }
  }

  /** A walk that ends never visits a pbuf twice. */
  lemma ChainDistinct(m: Memory, p: nat, c: seq<nat>)
    requires IsChain(m, p, c)
    ensures forall i, j :: 0 <= i < j < |c| ==> c[i] != c[j]
  {
    forall i, j | 0 <= i < j < |c| ensures c[i] != c[j] {
      ChainSuffix(m, p, c, i);
      ChainSuffix(m, p, c, j);
      if c[i] == c[j] {
        ChainUnique(m, c[i], c[i..], c[j..]);
      }
    }
  }

  lemma {:induction false} FlatAppend(m: Memory, a: seq<nat>, b: seq<nat>)
    requires AllIn(m, a) && AllIn(m, b)
    ensures AllIn(m, a + b) && Flat(m, a + b) == Flat(m, a) + Flat(m, b)
    decreases |a|
  {
    if a == [] {
      assert a + b == b;
    } else {
      assert (a + b)[1..] == a[1..] + b;
      FlatAppend(m, a[1..], b);
    }
  }

  lemma FlatSplit(m: Memory, c: seq<nat>, i: nat)
    requires AllIn(m, c) && i <= |c|
    ensures Flat(m, c) == Flat(m, c[..i]) + Flat(m, c[i..])
    ensures i < |c| ==> Flat(m, c[i..]) == m[c[i]].payload + Flat(m, c[i + 1..])
  {
    assert c[..i] + c[i..] == c;
    FlatAppend(m, c[..i], c[i..]);
    assert i < |c| ==> c[i..][1..] == c[i + 1..];
  }

  lemma FlatGrow(m: Memory, c: seq<nat>, i: nat)
    requires AllIn(m, c) && i < |c|
    ensures Flat(m, c[..i + 1]) == Flat(m, c[..i]) + m[c[i]].payload
    ensures c[i..][0] == c[i] && c[i..][1..] == c[i + 1..]
  {
    assert c[..i + 1] == c[..i] + [c[i]];
    FlatAppend(m, c[..i], [c[i]]);
  }

  /** Only payloads differ, and none changed its length. */
  ghost predicate SameShape(m: Memory, m': Memory) {
    m'.Keys == m.Keys && forall p :: p in m ==> m'[p] == m[p].(payload := m'[p].payload) && m'[p].Len() == m[p].Len()
  }

  /** Pbufs outside c are untouched. */
  ghost predicate Only(m: Memory, m': Memory, c: seq<nat>) {
    SameShape(m, m') && forall p :: p in m && p !in c ==> m'[p] == m[p]
  }

  lemma OnlyTrans(m: Memory, m': Memory, m'': Memory, c: seq<nat>)
    requires Only(m, m', c) && Only(m', m'', c)
    ensures Only(m, m'', c)
  {
  }

  lemma {:induction false} ShapeChain(m: Memory, m': Memory, p: nat, c: seq<nat>)
    requires IsChain(m, p, c) && SameShape(m, m')
    ensures IsChain(m', p, c)
    decreases |c|
  {
    if c != [] {
      ShapeChain(m, m', m[p].next, c[1..]);
    }
  }

  lemma {:induction false} ShapeLength(m: Memory, m': Memory, c: seq<nat>)
    requires AllIn(m, c) && SameShape(m, m')
    ensures |Flat(m', c)| == |Flat(m, c)|
    decreases |c|
  {
    if c != [] {
      ShapeLength(m, m', c[1..]);
    }
  }

  lemma ShapeExact(m: Memory, m': Memory, c: seq<nat>)
    requires AllIn(m, c) && SameShape(m, m') && Exact(m, c)
    ensures Exact(m', c)
  {
    forall i | 0 <= i < |c| ensures m'[c[i]].totLen == |Flat(m', c[i..])| {
      ShapeLength(m, m', c[i..]);
    }
  }

  lemma {:induction false} FlatFrame(m: Memory, m': Memory, c: seq<nat>)
    requires AllIn(m, c) && AllIn(m', c)
    requires forall i :: 0 <= i < |c| ==> m'[c[i]].payload == m[c[i]].payload
    ensures Flat(m', c) == Flat(m, c)
    decreases |c|
  {
    if c != [] {
      FlatFrame(m, m', c[1..]);
    }
  }

  // ----- slices

  /** Up to n bytes of f from offset o. */
  function Slice(f: seq<byte>, o: nat, n: nat): seq<byte> {
    if |f| <= o then [] else if |f| - o <= n then f[o..] else f[o..o + n]
  }

  lemma SliceSkip(a: seq<byte>, b: seq<byte>, o: nat, n: nat)
    requires |a| <= o
    ensures Slice(a + b, o, n) == Slice(b, o - |a|, n)
  {
  }

  lemma SliceTake(a: seq<byte>, b: seq<byte>, o: nat, n: nat)
    requires o <= |a|
    ensures var k := if |a| - o < n then |a| - o else n; Slice(a + b, o, n) == a[o..o + k] + Slice(b, 0, n - k)
  {
  }

  /** f with s written at offset o. */
  function Patch(f: seq<byte>, o: nat, s: seq<byte>): (r: seq<byte>)
    requires o + |s| <= |f|
    ensures |r| == |f|
  {
    f[..o] + s + f[o + |s|..]
  }
}
