/**
 LwIP/src/core/pbuf.c: reading and writing the bytes of a chain. Each operation is proved to act on
 the chain as if it were one flat byte sequence.
 */
module PbufData {
  import opened Bytes
  import opened PbufChain
  import L = PbufCopy

  datatype Err = ERR_OK | ERR_MEM | ERR_ARG | ERR_VAL

  /** What pbuf_memcmp and pbuf_memfind return for "no". */
  const NONE: u16 := 0xffff

  ghost predicate MatchAt(f: seq<byte>, i: int, s: seq<byte>) {
    0 <= i && i + |s| <= |f| && Agree(f, i, s, |s|)
  }

  /** The first n bytes of s are found at index i of f. */
  ghost predicate Agree(f: seq<byte>, i: nat, s: seq<byte>, n: nat) {
    n <= |s| && i + n <= |f| && forall k :: 0 <= k < n ==> s[k] == f[i + k]
  }

  /** Copying the next k bytes brings the output that much closer to what is wanted. */
  lemma CopyStep(want: seq<byte>, out: seq<byte>, pl: seq<byte>, f: seq<byte>, off: nat, rest: nat, k: nat)
    requires want == out + Slice(pl + f, off, rest) && off <= |pl|
    requires k == if |pl| - off < rest then |pl| - off else rest
    ensures want == (out + pl[off..off + k]) + Slice(f, 0, rest - k)
  {
    SliceTake(pl, f, off, rest);
  }

  lemma PatchJoin(f: seq<byte>, o: nat, s: seq<byte>, t: seq<byte>, o': nat)
    requires o + |s| + |t| <= |f| && o' == o + |s|
    ensures Patch(Patch(f, o, s), o', t) == Patch(f, o, s + t)
  {
  }

  /** The lengths and fields around pbuf c[i]. */
  lemma StoreBefore(m: Memory, p: nat, c: seq<nat>, i: nat)
    requires IsChain(m, p, c) && AllIn(m, c) && i < |c|
    ensures c[i] in m && |Flat(m, c)| == |Flat(m, c[..i])| + |Flat(m, c[i..])|
    ensures |Flat(m, c[i..])| == m[c[i]].Len() + |Flat(m, c[i + 1..])|
    ensures |Flat(m, c[..i + 1])| == |Flat(m, c[..i])| + m[c[i]].Len()
    ensures m[c[i]].next == if i + 1 < |c| then c[i + 1] else NULL
    ensures m[c[i]].next == NULL <==> i + 1 == |c|
    ensures m[c[i]].next == NULL ==> Flat(m, c[i + 1..]) == []
  {
    ChainIn(m, p, c);
    FlatSplit(m, c, i);
    FlatGrow(m, c, i);
    ChainSuffix(m, p, c, i);
    ChainSuffix(m, p, c, i + 1);
  }

  lemma OnlySelf(m: Memory, c: seq<nat>)
    ensures Only(m, m, c)
  {
  }

  lemma TailByte(m: Memory, c: seq<nat>, k: nat, x: nat)
    requires AllIn(m, c) && k <= |c| && |Flat(m, c[..k])| + x < |Flat(m, c)|
    ensures x < |Flat(m, c[k..])| && Flat(m, c)[|Flat(m, c[..k])| + x] == Flat(m, c[k..])[x]
  {
    FlatSplit(m, c, k);
  }

  /** A write inside the chain keeps links, lengths and `tot_len` fields. */
  lemma StoreKeeps(m: Memory, m': Memory, c: seq<nat>, i: nat)
    requires AllIn(m, c) && Exact(m, c) && Only(m, m', c) && i < |c|
    ensures AllIn(m', c) && Exact(m', c)
    ensures |Flat(m', c[i + 1..])| == |Flat(m, c[i + 1..])| && |Flat(m', c[..i + 1])| == |Flat(m, c[..i + 1])|
  {
    ShapeExact(m, m', c);
    ShapeLength(m, m', c[i + 1..]);
    ShapeLength(m, m', c[..i + 1]);
  }

  lemma ExactSuffix(m: Memory, c: seq<nat>, j: nat)
    requires AllIn(m, c) && Exact(m, c) && j <= |c|
    ensures Exact(m, c[j..])
    ensures j < |c| ==> m[c[j]].totLen == |Flat(m, c[j..])|
  {
    forall k | 0 <= k < |c[j..]| ensures m[c[j..][k]].totLen == |Flat(m, c[j..][k..])| {
      assert c[j..][k..] == c[j + k..];
    }
  }

  lemma HeadLength(m: Memory, p: nat, c: seq<nat>)
    requires IsChain(m, p, c) && AllIn(m, c) && Exact(m, c) && p != NULL
    ensures c != [] && p == c[0] && m[p].totLen == |Flat(m, c)|
  {
    assert c[0..] == c;
  }

  lemma InChain(m: Memory, c: seq<nat>, i: nat)
    requires AllIn(m, c) && i < |c|
    ensures c[i] in m
  {
  }

  lemma NextPiece(data: seq<byte>, done: nat, k: nat)
    requires done + k <= |data|
    ensures data[..done] + data[done..][..k] == data[..done + k] && data[done..][k..] == data[done + k..]
    ensures |data[..done]| == done
  {
  }

  /** Bytes in front of pbuf c[i]. */
  ghost function Offset(m: Memory, c: seq<nat>, i: nat): nat
    requires AllIn(m, c) && i <= |c|
  {
    |Flat(m, c[..i])|
  }

  /** The bytes s have been written to the chain at offset `at`, and nothing else has changed. */
  ghost predicate Overwritten(m: Memory, m': Memory, p: nat, c: seq<nat>, at: nat, s: seq<byte>) {
    && AllIn(m, c) && AllIn(m', c) && IsChain(m', p, c) && Only(m, m', c)
    && at + |s| <= |Flat(m, c)| && Flat(m', c) == Patch(Flat(m, c), at, s)
  }

  lemma OverwrittenSays(m: Memory, m': Memory, p: nat, c: seq<nat>, at: nat, s: seq<byte>)
    requires Overwritten(m, m', p, c, at, s)
    ensures AllIn(m, c) && AllIn(m', c) && IsChain(m', p, c) && Only(m, m', c)
    ensures at + |s| <= |Flat(m, c)| == |Flat(m', c)| && Flat(m', c) == Patch(Flat(m, c), at, s)
  {
  }

  lemma TakeStart(m: Memory, p: nat, c: seq<nat>)
    requires AllIn(m, c) && IsChain(m, p, c)
    ensures p == (if 0 < |c| then c[0] else NULL) && Offset(m, c, 0) == 0 && Overwritten(m, m, p, c, 0, [])
  {
    ChainSuffix(m, p, c, 0);
    OverwrittenNone(m, p, c, 0);
  }

  lemma OverwrittenNone(m: Memory, p: nat, c: seq<nat>, at: nat)
    requires AllIn(m, c) && IsChain(m, p, c) && at <= |Flat(m, c)|
    ensures Overwritten(m, m, p, c, at, [])
  {
    hide IsChain, Flat;
  }

  lemma OverwrittenJoin(m: Memory, m': Memory, m'': Memory, p: nat, c: seq<nat>, at: nat, s: seq<byte>, t: seq<byte>)
    requires Overwritten(m, m', p, c, at, s) && Overwritten(m', m'', p, c, at + |s|, t)
    ensures Overwritten(m, m'', p, c, at, s + t)
  {
    hide IsChain, Flat, Patch;
    OnlyTrans(m, m', m'', c);
    PatchJoin(Flat(m, c), at, s, t, at + |s|);
  }

  /** Where the next pbuf starts after a write to this one. */
  lemma Behind(m: Memory, m': Memory, p: nat, c: seq<nat>, i: nat, at: nat, s: seq<byte>)
    requires IsChain(m, p, c) && AllIn(m, c) && Exact(m, c) && i < |c| && Overwritten(m, m', p, c, at, s)
    ensures AllIn(m', c) && c[i] in m' && IsChain(m', p, c) && Exact(m', c) && |Flat(m', c)| == |Flat(m, c)|
    ensures Offset(m', c, i + 1) == Offset(m, c, i) + m[c[i]].Len()
  {
    StoreBefore(m, p, c, i);
    StoreKeeps(m, m', c, i);
    OverwrittenSays(m, m', p, c, at, s);
  }

  /** A write to the start of a suffix of the chain is a write further on in the whole. */
  lemma TailPatch(m: Memory, m': Memory, p: nat, c: seq<nat>, j: nat, s: seq<byte>)
    requires IsChain(m, p, c) && AllIn(m, c) && j <= |c| && Only(m, m', c[j..]) && AllIn(m', c[j..])
    requires |s| <= |Flat(m, c[j..])| && Flat(m', c[j..]) == Patch(Flat(m, c[j..]), 0, s)
    ensures Overwritten(m, m', p, c, Offset(m, c, j), s)
  {
    hide IsChain, Flat, Patch;
    ChainDistinct(m, p, c);
    ShapeChain(m, m', p, c);
    FlatSplit(m, c, j);
    FlatSplit(m', c, j);
    FlatFrame(m, m', c[..j]);
    NoMore(Flat(m, c[j..]));
    NoMore(Flat(m', c[j..]));
    PatchInside(Flat(m, c[..j]), Flat(m, c[j..]), [], 0, s);
  }

  /** Replacing bytes inside pbuf c[i] replaces them in the flat view. */
  lemma StoreFlat(m: Memory, p: nat, c: seq<nat>, i: nat, at: nat, s: seq<byte>)
    requires IsChain(m, p, c) && AllIn(m, c) && i < |c| && at + |s| <= m[c[i]].Len()
    ensures var m' := m[c[i] := m[c[i]].(payload := Patch(m[c[i]].payload, at, s))];
      Overwritten(m, m', p, c, Offset(m, c, i) + at, s)
  {
    hide IsChain, Flat, Patch;
    var m' := m[c[i] := m[c[i]].(payload := Patch(m[c[i]].payload, at, s))];
    ChainDistinct(m, p, c);
    ShapeChain(m, m', p, c);
    FlatSplit(m, c, i);
    FlatSplit(m', c, i);
    FlatFrame(m, m', c[..i]);
    FlatFrame(m, m', c[i + 1..]);
    PatchInside(Flat(m, c[..i]), m[c[i]].payload, Flat(m, c[i + 1..]), at, s);
  }

  lemma PatchOne(f: seq<byte>, at: nat, x: byte)
    requires at < |f|
    ensures Patch(f, at, [x]) == f[at := x]
  {
  }

  lemma NoMore(f: seq<byte>)
    ensures f + [] == f
  {
  }

  lemma PatchInside(a: seq<byte>, f: seq<byte>, b: seq<byte>, at: nat, s: seq<byte>)
    requires at + |s| <= |f|
    ensures a + (Patch(f, at, s) + b) == Patch(a + (f + b), |a| + at, s)
  {
  }

  // ----- copying between chains

  /**
   Whether the packet-queue checks of `pbuf_copy` refuse this
   pbuf: it looks like the last of a packet, but others follow.
   */
  predicate QueueStart(m: Memory, p: nat)
    requires p != NULL ==> p in m
  {
    p != NULL && m[p].Len() == m[p].totLen && m[p].next != NULL
  }

  /** The lengths of the pbufs of a chain. */
  function Lens(m: Memory, c: seq<nat>): (l: seq<nat>)
    requires AllIn(m, c)
    ensures |l| == |c|
  {
    seq(|c|, i requires 0 <= i < |c| => m[c[i]].Len())
  }

  lemma {:induction false} BeforeFlat(m: Memory, c: seq<nat>, k: nat)
    requires AllIn(m, c) && k <= |c|
    ensures L.Before(Lens(m, c), k) == |Flat(m, c[..k])|
    decreases k
  {
    if 0 < k {
      BeforeFlat(m, c, k - 1);
      FlatGrow(m, c, k - 1);
    }
  }

  lemma TotalFlat(m: Memory, c: seq<nat>)
    requires AllIn(m, c)
    ensures L.Total(Lens(m, c)) == |Flat(m, c)|
  {
    BeforeFlat(m, c, |c|);
    assert c[..|c|] == c;
  }

  lemma LensKept(m: Memory, m': Memory, c: seq<nat>)
    requires AllIn(m, c) && SameShape(m, m')
    ensures AllIn(m', c) && Lens(m', c) == Lens(m, c)
  {
  }

  /** The packet-queue check depends on the lengths alone. */
  lemma QueueTail(m: Memory, p: nat, c: seq<nat>, k: nat)
    requires IsChain(m, p, c) && AllIn(m, c) && Exact(m, c) && k < |c|
    ensures QueueStart(m, c[k]) <==> L.Tail(Lens(m, c), k)
  {
    StoreBefore(m, p, c, k);
    ExactSuffix(m, c, k);
    TotalFlat(m, c);
    BeforeFlat(m, c, k + 1);
    ChainIn(m, p, c);
  }

  /** A write to another chain does not show in chain c. */
  lemma OtherKeeps(m: Memory, m': Memory, p: nat, c: seq<nat>, d: seq<nat>)
    requires IsChain(m, p, c) && AllIn(m, c) && Exact(m, c) && Only(m, m', d) && forall x :: x in c ==> x !in d
    ensures IsChain(m', p, c) && AllIn(m', c) && Exact(m', c) && Flat(m', c) == Flat(m, c)
  {
    ShapeChain(m, m', p, c);
    ShapeExact(m, m', c);
    FlatFrame(m, m', c);
  }

  /** Bytes of one pbuf, seen in the flat view. */
  lemma FlatPart(m: Memory, c: seq<nat>, j: nat, o: nat, n: nat, done: nat)
    requires AllIn(m, c) && j < |c| && o + n <= m[c[j]].Len() && done == |Flat(m, c[..j])| + o
    ensures done + n <= |Flat(m, c)| && Flat(m, c)[done..done + n] == m[c[j]].payload[o..o + n]
  {
    FlatSplit(m, c, j);
    var a, b, r := Flat(m, c[..j]), m[c[j]].payload, Flat(m, c[j + 1..]);
    assert Flat(m, c) == a + (b + r);
    assert (a + (b + r))[|a| + o..|a| + o + n] == b[o..o + n];
  }

  /** p and off stand `done` bytes into the chain c, in pbuf c[i] or behind the end. */
  ghost predicate Cursor(m: Memory, head: nat, c: seq<nat>, p: nat, i: nat, off: nat, done: nat) {
    && IsChain(m, head, c) && AllIn(m, c) && Exact(m, c) && i <= |c|
    && (if i < |c| then p == c[i] && off <= m[p].Len() else p == NULL && off == 0)
    && done == |Flat(m, c[..i])| + off
  }

  /** The first `done` bytes of chain c have been copied to the start of chain d, and nothing else has changed. */
  ghost predicate Copied(m0: Memory, m: Memory, d: seq<nat>, c: seq<nat>, done: nat) {
    && AllIn(m0, d) && AllIn(m0, c) && AllIn(m, d) && AllIn(m, c) && (forall x :: x in c ==> x !in d)
    && Only(m0, m, d) && Flat(m, c) == Flat(m0, c) && |Flat(m0, c)| <= |Flat(m0, d)|
    && done <= |Flat(m0, c)| && Flat(m, d) == Patch(Flat(m0, d), 0, Flat(m0, c)[..done])
  }

  function Written(m: Memory, p: nat, at: nat, s: seq<byte>): Memory
    requires p in m && at + |s| <= m[p].Len()
  {
    m[p := m[p].(payload := Patch(m[p].payload, at, s))]
  }

  lemma CursorStart(m: Memory, head: nat, c: seq<nat>)
    requires IsChain(m, head, c) && AllIn(m, c) && Exact(m, c)
    ensures Cursor(m, head, c, head, 0, 0, 0)
  {
    assert c[..0] == [];
  }

  lemma CursorAt(m: Memory, head: nat, c: seq<nat>, p: nat, i: nat, off: nat, done: nat)
    requires Cursor(m, head, c, p, i, off, done) && p != NULL
    ensures p in m && i < |c| && off <= m[p].Len()
  {
  }

  lemma CursorEnd(m: Memory, head: nat, c: seq<nat>, i: nat, off: nat, done: nat)
    requires Cursor(m, head, c, NULL, i, off, done)
    ensures AllIn(m, c) && done == |Flat(m, c)| && i == |c|
  {
    ChainIn(m, head, c);
    assert c[..|c|] == c;
  }

  lemma CursorNext(m: Memory, head: nat, c: seq<nat>, p: nat, i: nat, off: nat, done: nat)
    requires Cursor(m, head, c, p, i, off, done) && p != NULL && p in m && off == m[p].Len()
    ensures Cursor(m, head, c, m[p].next, i + 1, 0, done)
    ensures m[p].next != NULL ==> m[p].next in m
  {
    StoreBefore(m, head, c, i);
  }

  lemma CopiedNothing(m: Memory, d: seq<nat>, c: seq<nat>)
    requires AllIn(m, d) && AllIn(m, c) && (forall x :: x in c ==> x !in d) && |Flat(m, c)| <= |Flat(m, d)|
    ensures Copied(m, m, d, c, 0)
  {
    hide Flat;
  }

  lemma CopiedAll(m0: Memory, m: Memory, d: seq<nat>, c: seq<nat>, done: nat)
    requires Copied(m0, m, d, c, done) && done == |Flat(m, c)|
    ensures Only(m0, m, d) && AllIn(m, d) && AllIn(m0, c) && AllIn(m0, d) && |Flat(m0, c)| <= |Flat(m0, d)|
    ensures Flat(m, d) == Patch(Flat(m0, d), 0, Flat(m0, c))
  {
    hide Flat, Only;
    assert Flat(m0, c)[..done] == Flat(m0, c);
  }

  /** One copy: both cursors move on by what was copied. */
  lemma CopyStore(m0: Memory, m: Memory, to: nat, d: seq<nat>, pTo: nat, i: nat, offTo: nat,
                  from: nat, c: seq<nat>, pFrom: nat, j: nat, offFrom: nat, done: nat, len: nat)
    requires Cursor(m, to, d, pTo, i, offTo, done) && Cursor(m, from, c, pFrom, j, offFrom, done)
    requires Copied(m0, m, d, c, done) && pTo != NULL && pTo in m && pFrom != NULL && pFrom in m
    requires offTo + len <= m[pTo].Len() && offFrom + len <= m[pFrom].Len()
    ensures var m' := Written(m, pTo, offTo, m[pFrom].payload[offFrom..offFrom + len]);
      && Cursor(m', to, d, pTo, i, offTo + len, done + len) && Cursor(m', from, c, pFrom, j, offFrom + len, done + len)
      && Copied(m0, m', d, c, done + len)
  {
    hide IsChain, Flat, Patch, Only, Exact, AllIn;
    var s := m[pFrom].payload[offFrom..offFrom + len];
    var m' := Written(m, pTo, offTo, s);
    FlatPart(m, c, j, offFrom, len, done);
    StoreFlat(m, to, d, i, offTo, s);
    OverwrittenSays(m, m', to, d, Offset(m, d, i) + offTo, s);
    OtherKeeps(m, m', from, c, d);
    StoreKeeps(m, m', d, i);
    CopyShape(m, m', d, c, i, j);
    OnlyTrans(m0, m, m', d);
    PatchGrow(Flat(m0, d), Flat(m0, c), done, len, s);
  }

  lemma CopyShape(m: Memory, m': Memory, d: seq<nat>, c: seq<nat>, i: nat, j: nat)
    requires AllIn(m, c) && AllIn(m, d) && Only(m, m', d) && i < |d| && j < |c|
    ensures AllIn(m', c) && AllIn(m', d)
    ensures |Flat(m', d[..i])| == |Flat(m, d[..i])| && |Flat(m', c[..j])| == |Flat(m, c[..j])|
    ensures m'[d[i]].Len() == m[d[i]].Len() && m'[c[j]].Len() == m[c[j]].Len()
  {
    ShapeLength(m, m', d[..i]);
    ShapeLength(m, m', c[..j]);
  }

  /** Where a cursor stands, in terms of the lengths, and what the queue check finds there. */
  lemma CursorLens(m0: Memory, m: Memory, d: seq<nat>, c: seq<nat>, head: nat, e: seq<nat>, p: nat, i: nat, off: nat,
          done: nat)
    requires Cursor(m, head, e, p, i, off, done) && Copied(m0, m, d, c, done) && (e == c || e == d)
    ensures AllIn(m0, e) && i <= |e| && (p == NULL <==> i == |e|)
    ensures p != NULL ==> p in m && Lens(m0, e)[i] == m[p].Len()
    ensures QueueStart(m, p) <==> L.Tail(Lens(m0, e), i)
  {
    LensKept(m0, m, e);
    ChainIn(m, head, e);
    if i < |e| {
      QueueTail(m, head, e, i);
    }
  }

  lemma PatchGrow(f: seq<byte>, g: seq<byte>, done: nat, n: nat, s: seq<byte>)
    requires done + n <= |f| && done + n <= |g| && s == g[done..done + n]
    ensures Patch(Patch(f, 0, g[..done]), done, s) == Patch(f, 0, g[..done + n])
  {
  }

  /** The result of `pbuf_copy` for a target that is large enough, by the lengths of source and target. */
  function Verdict(c: seq<nat>, d: seq<nat>): Err
    requires L.Sized(c, d)
  {
    if L.RunsOut(c, d) then ERR_ARG else if L.Accepts(c, d) then ERR_OK else ERR_VAL
  }

  lemma CopiedOnly(m0: Memory, m: Memory, d: seq<nat>, c: seq<nat>, done: nat)
    requires Copied(m0, m, d, c, done)
    ensures Only(m0, m, d) && AllIn(m, d)
  {
  }

  lemma CopyStart(m: Memory, to: nat, d: seq<nat>, from: nat, c: seq<nat>)
    requires IsChain(m, to, d) && AllIn(m, d) && to != NULL && IsChain(m, from, c) && AllIn(m, c) && from != NULL
    requires |Flat(m, c)| <= |Flat(m, d)|
    ensures L.Sized(Lens(m, c), Lens(m, d)) && L.Heading(Lens(m, c), Lens(m, d), L.START)
  {
    TotalFlat(m, c);
    TotalFlat(m, d);
    L.StartReady(Lens(m, c), Lens(m, d));
  }

  class Buffers {
    var mem: Memory

    constructor (mem: Memory)
      ensures this.mem == mem
    {
      this.mem := mem;
    }

    /**
     `pbuf_copy_partial`; `data` is what ends up at the start
     of the application's buffer, its length is the result.
     */
    method CopyPartial(buf: nat, len: u16, offset: u16, ghost c: seq<nat>) returns (data: seq<byte>)
      requires IsChain(mem, buf, c) && AllIn(mem, c)
      ensures data == Slice(Flat(mem, c), offset, len)
    {
      data := [];
      var rest: nat, off: nat, p := len, offset, buf;
      ghost var d, want := c, Slice(Flat(mem, c), offset, len);
      while rest != 0 && p != NULL
        invariant IsChain(mem, p, d) && AllIn(mem, d)
        invariant want == data + Slice(Flat(mem, d), off, rest)
        decreases |d|
      {
        var b := mem[p];
        ChainStep(mem, p, d);
        if off != 0 && b.Len() <= off {
          SliceSkip(b.payload, Flat(mem, d[1..]), off, rest);
          off := off - b.Len();
        } else {
          var k := if b.Len() - off < rest then b.Len() - off else rest;
          CopyStep(want, data, b.payload, Flat(mem, d[1..]), off, rest, k);
          data, rest, off := data + b.payload[off..off + k], rest - k, 0;
        }
        p, d := b.next, d[1..];
      }
    }

    /** `pbuf_skip`: the pbuf holding byte in_offset and the offset inside it; NULL behind the end. */
    method Skip(buf: nat, offset: nat, ghost c: seq<nat>) returns (q: nat, left: nat, ghost i: nat)
      requires IsChain(mem, buf, c) && AllIn(mem, c)
      ensures i <= |c| && |Flat(mem, c[..i])| + left == offset
      ensures q == if i < |c| then c[i] else NULL
      ensures i < |c| ==> left < mem[q].Len()
      ensures offset < |Flat(mem, c)| <==> i < |c|
      ensures offset < |Flat(mem, c)| ==>
          q != NULL && q in mem && left < mem[q].Len() && mem[q].payload[left] == Flat(mem, c)[offset]
      ensures |Flat(mem, c)| <= offset ==> q == NULL && left == offset - |Flat(mem, c)|
    {
      q, left, i := buf, offset, 0;
      while q != NULL && mem[q].Len() <= left
        invariant i <= |c| && q == (if i < |c| then c[i] else NULL) && IsChain(mem, q, c[i..])
        invariant |Flat(mem, c[..i])| + left == offset
        decreases |c| - i
      {
        ChainStep(mem, q, c[i..]);
        FlatGrow(mem, c, i);
        left, q, i := left - mem[q].Len(), mem[q].next, i + 1;
        assert IsChain(mem, q, c[i..]);
      }
      FlatSplit(mem, c, i);
      assert c[..|c|] == c;
    }

    /** `pbuf_try_get_at`: the byte, or -1 behind the end. */
    method TryGetAt(buf: nat, offset: nat, ghost c: seq<nat>) returns (r: int)
      requires IsChain(mem, buf, c) && AllIn(mem, c)
      ensures r == if offset < |Flat(mem, c)| then Flat(mem, c)[offset] else -1
    {
      var q, idx;
      ghost var i;
      q, idx, i := Skip(buf, offset, c);
      ChainIn(mem, buf, c);
      FlatSplit(mem, c, i);
      if q != NULL && idx < mem[q].Len() {
        return mem[q].payload[idx];
      }
      return -1;
    }

    // ----- writing

    /** Writes s into one pbuf of a chain, which is a write to the flat bytes. */
    method Store(p: nat, at: nat, s: seq<byte>, ghost buf: nat, ghost c: seq<nat>, ghost i: nat)
      requires IsChain(mem, buf, c) && AllIn(mem, c) && i < |c| && p == c[i] && at + |s| <= mem[p].Len()
      modifies this
      ensures Overwritten(old(mem), mem, buf, c, Offset(old(mem), c, i) + at, s)
    {
      StoreFlat(mem, buf, c, i, at, s);
      mem := mem[p := mem[p].(payload := Patch(mem[p].payload, at, s))];
    }

    /** `pbuf_put_at`: writes one byte, or nothing behind the end. */
    method PutAt(buf: nat, offset: nat, data: byte, ghost c: seq<nat>)
      requires IsChain(mem, buf, c) && AllIn(mem, c)
      modifies this
      ensures Only(old(mem), mem, c) && IsChain(mem, buf, c) && AllIn(mem, c)
      ensures Flat(mem, c) == if offset < |Flat(old(mem), c)| then Flat(old(mem), c)[offset := data]
          else Flat(old(mem), c)
    {
      hide IsChain, Flat, Patch, Only, SameShape, Overwritten;
      var q, idx;
      ghost var i, m0;
      q, idx, i := Skip(buf, offset, c);
      m0 := mem;
      ChainIn(mem, buf, c);
      FlatSplit(mem, c, i);
      OnlySelf(mem, c);
      if q != NULL && idx < mem[q].Len() {
        Store(q, idx, [data], buf, c, i);
        OverwrittenSays(m0, mem, buf, c, offset, [data]);
        PatchOne(Flat(m0, c), offset, data);
      }
    }

    /** One round of `pbuf_take`: as many bytes as pbuf c[i] holds, which starts at offset `at`. */
    method TakeOne(p: nat, rest: seq<byte>, ghost buf: nat, ghost c: seq<nat>, ghost i: nat, ghost at: nat)
      returns (next: nat, rest': seq<byte>, ghost k: nat)
      requires IsChain(mem, buf, c) && AllIn(mem, c) && i <= |c| && p == (if i < |c| then c[i] else NULL)
      requires at == Offset(mem, c, i) && rest != [] && at + |rest| <= |Flat(mem, c)|
      modifies this
      ensures i < |c| && next == (if i + 1 < |c| then c[i + 1] else NULL) && k <= |rest| && rest' == rest[k..]
      ensures Overwritten(old(mem), mem, buf, c, at, rest[..k])
      ensures AllIn(mem, c) && (rest' != [] ==> Offset(mem, c, i + 1) == at + k)
    {
      hide IsChain, Flat, Patch, Overwritten;
      assert i < |c| by { assert c[..|c|] == c; }
      StoreBefore(mem, buf, c, i);
      next := mem[p].next;
      var n := if mem[p].Len() < |rest| then mem[p].Len() else |rest|;
      ghost var m1 := mem;
      Store(p, 0, rest[..n], buf, c, i);
      OverwrittenSays(m1, mem, buf, c, at, rest[..n]);
      ShapeLength(m1, mem, c[..i + 1]);
      rest', k := rest[n..], n;
    }

    /** The copy loop of `pbuf_take`. */
    method TakeAll(buf: nat, data: seq<byte>, ghost c: seq<nat>)
      requires IsChain(mem, buf, c) && AllIn(mem, c) && |data| <= |Flat(mem, c)|
      modifies this
      ensures Overwritten(old(mem), mem, buf, c, 0, data)
    {
      hide *;
      var p, rest := buf, data;
      ghost var i: nat, done: nat, m0 := 0, 0, mem;
      TakeStart(mem, buf, c);
      NextPiece(data, 0, |data|);
      assert data[..0] == [];
      while rest != []
        invariant AllIn(m0, c) && AllIn(mem, c) && |data| <= |Flat(m0, c)|
        invariant done <= |data| && rest == data[done..] && Overwritten(m0, mem, buf, c, 0, data[..done])
        invariant i <= |c| && p == (if i < |c| then c[i] else NULL) && (rest != [] ==> Offset(mem, c, i) == done)
        decreases |c| - i
      {
        ghost var k, m1 := 0, mem;
        OverwrittenSays(m0, mem, buf, c, 0, data[..done]);
        p, rest, k := TakeOne(p, rest, buf, c, i, done);
        NextPiece(data, done, k);
        OverwrittenJoin(m0, m1, mem, buf, c, 0, data[..done], data[done..][..k]);
        i, done := i + 1, done + k;
      }
      assert data[..done] == data;
    }

    /** `pbuf_take`: overwrites the first bytes of the chain, or refuses if there are not enough. */
    method Take(buf: nat, data: seq<byte>, ghost c: seq<nat>) returns (err: Err)
      requires IsChain(mem, buf, c) && AllIn(mem, c) && Exact(mem, c)
      modifies this
      ensures Only(old(mem), mem, c) && IsChain(mem, buf, c) && AllIn(mem, c)
      ensures err == if buf == NULL then ERR_ARG else if |Flat(old(mem), c)| < |data| then ERR_MEM else ERR_OK
      ensures err == ERR_OK ==> |data| <= |Flat(old(mem), c)| && Flat(mem, c) == Patch(Flat(old(mem), c), 0, data)
      ensures err != ERR_OK ==> mem == old(mem)
    {
      if buf == NULL {
        return ERR_ARG;
      }
      assert c[0..] == c;
      if mem[buf].totLen < |data| {
        return ERR_MEM;
      }
      TakeAll(buf, data, c);
      OverwrittenSays(old(mem), mem, buf, c, 0, data);
      return ERR_OK;
    }

    /** `pbuf_take_at`: overwrites bytes from an offset on; refuses unless the offset and all of the data lie inside. */
    method TakeAt(buf: nat, data: seq<byte>, offset: nat, ghost c: seq<nat>) returns (err: Err)
      requires IsChain(mem, buf, c) && AllIn(mem, c) && Exact(mem, c)
      modifies this
      ensures Only(old(mem), mem, c) && IsChain(mem, buf, c) && AllIn(mem, c)
      ensures err == if offset < |Flat(old(mem), c)| && offset + |data| <= |Flat(old(mem), c)| then ERR_OK else ERR_MEM
      ensures err == ERR_OK ==> Flat(mem, c) == Patch(Flat(old(mem), c), offset, data)
      ensures err != ERR_OK ==> mem == old(mem)
    {
      hide IsChain, Flat, Patch, Only, SameShape, Exact;
      var q, at;
      ghost var i;
      q, at, i := Skip(buf, offset, c);
      ChainIn(mem, buf, c);
      FlatSplit(mem, c, i);
      ExactSuffix(mem, c, i);
      if q == NULL || mem[q].totLen < at + |data| {
        OnlySelf(mem, c);
        return ERR_MEM;
      }
      var n := if mem[q].Len() - at < |data| then mem[q].Len() - at else |data|;
      ghost var o := Offset(mem, c, i);
      WriteAcross(q, at, data[..n], data[n..], buf, c, i, o);
      assert data[..n] + data[n..] == data;
      OverwrittenSays(old(mem), mem, buf, c, o + at, data);
      return ERR_OK;
    }

    /** `pbuf_take` on what follows pbuf c[j - 1]. */
    method TakeTail(next: nat, more: seq<byte>, ghost buf: nat, ghost c: seq<nat>, ghost j: nat, ghost at: nat)
      requires IsChain(mem, buf, c) && AllIn(mem, c) && Exact(mem, c) && 0 < j <= |c| && next == mem[c[j - 1]].next
      requires more != [] && at == Offset(mem, c, j) && at + |more| <= |Flat(mem, c)|
      modifies this
      ensures Overwritten(old(mem), mem, buf, c, at, more)
    {
      hide IsChain, Flat, Patch, Only, SameShape, Exact, Overwritten;
      StoreBefore(mem, buf, c, j - 1);
      FlatSplit(mem, c, j);
      ExactSuffix(mem, c, j);
      ChainSuffix(mem, buf, c, j);
      var err := Take(next, more, c[j..]);
      TailPatch(old(mem), mem, buf, c, j, more);
    }

    /** The two copies of `pbuf_take_at`: into the pbuf found, which starts at offset o, then into those behind it. */
    method WriteAcross(q: nat, at: nat, first: seq<byte>, more: seq<byte>, ghost buf: nat, ghost c: seq<nat>,
            ghost i: nat, ghost o: nat)
      requires IsChain(mem, buf, c) && AllIn(mem, c) && Exact(mem, c) && i < |c| && q == c[i] && o == Offset(mem, c, i)
      requires at + |first| <= mem[q].Len() && (more != [] ==> at + |first| == mem[q].Len())
      requires o + at + |first| + |more| <= |Flat(mem, c)|
      modifies this
      ensures Overwritten(old(mem), mem, buf, c, o + at, first + more)
    {
      hide *;
      ghost var m0 := mem;
      InChain(m0, c, i);
      Store(q, at, first, buf, c, i);
      ghost var m1, both := mem, first + more;
      if more == [] {
        assert both == first;
        return;
      }
      Behind(m0, m1, buf, c, i, o + at, first);
      TakeTail(mem[q].next, more, buf, c, i + 1, o + at + |first|);
      OverwrittenJoin(m0, m1, mem, buf, c, o + at, first, more);
    }

    /** `pbuf_copy`. */
    method Copy(to: nat, from: nat, ghost d: seq<nat>, ghost c: seq<nat>) returns (err: Err)
      requires IsChain(mem, to, d) && AllIn(mem, d) && Exact(mem, d)
      requires IsChain(mem, from, c) && AllIn(mem, c) && Exact(mem, c)
      requires forall x :: x in c ==> x !in d
      modifies this
      ensures Only(old(mem), mem, d) && AllIn(mem, d)
      ensures to == NULL || from == NULL || |Flat(old(mem), d)| < |Flat(old(mem), c)| ==>
          err == ERR_ARG && mem == old(mem)
      ensures to != NULL && from != NULL && |Flat(old(mem), c)| <= |Flat(old(mem), d)| ==>
                L.Sized(Lens(old(mem), c), Lens(old(mem), d)) && err == Verdict(Lens(old(mem), c), Lens(old(mem), d))
      ensures err == ERR_OK ==> |Flat(old(mem), c)| <= |Flat(old(mem), d)|
      ensures err == ERR_OK ==> Flat(mem, d) == Patch(Flat(old(mem), d), 0, Flat(old(mem), c))
    {
      hide IsChain, Flat, Patch, Only, SameShape, Exact, L.Accepts, L.RunsOut;
      OnlySelf(mem, d);
      if to == NULL || from == NULL {
        return ERR_ARG;
      }
      HeadLength(mem, to, d);
      HeadLength(mem, from, c);
      if mem[to].totLen < mem[from].totLen {
        return ERR_ARG;
      }
      err := CopyAll(to, from, d, c);
    }

    /** The loop of `pbuf_copy`. */
    method CopyAll(to: nat, from: nat, ghost d: seq<nat>, ghost c: seq<nat>) returns (err: Err)
      requires IsChain(mem, to, d) && AllIn(mem, d) && Exact(mem, d) && to != NULL
      requires IsChain(mem, from, c) && AllIn(mem, c) && Exact(mem, c) && from != NULL
      requires (forall x :: x in c ==> x !in d) && |Flat(mem, c)| <= |Flat(mem, d)|
      modifies this
      ensures Only(old(mem), mem, d) && AllIn(mem, d)
      ensures err == ERR_OK ==> Flat(mem, d) == Patch(Flat(old(mem), d), 0, Flat(old(mem), c))
      ensures L.Sized(Lens(old(mem), c), Lens(old(mem), d)) && err == Verdict(Lens(old(mem), c), Lens(old(mem), d))
    {
      hide IsChain, Flat, Patch, Only, SameShape, Exact, AllIn, Cursor, Copied, QueueStart, Lens;
      hide L.Sized, L.Heading, L.Tracks, L.Next, L.Tail, L.Accepts, L.RunsOut, L.Rounded;
      var pTo, pFrom, offTo: nat, offFrom: nat := to, from, 0, 0;
      ghost var m0, i: nat, j: nat, done: nat := mem, 0, 0, 0;
      ghost var lc, ld := Lens(mem, c), Lens(mem, d);
      CursorStart(mem, to, d);
      CursorStart(mem, from, c);
      CopiedNothing(mem, d, c);
      CopyStart(mem, to, d, from, c);
      while pFrom != NULL
        invariant Cursor(mem, to, d, pTo, i, offTo, done) && Cursor(mem, from, c, pFrom, j, offFrom, done)
        invariant Copied(m0, mem, d, c, done) && (pFrom != NULL ==> pTo != NULL) && L.Sized(lc, ld)
        invariant pFrom != NULL ==> L.Heading(lc, ld, L.Pos(j, offFrom, i, offTo, done))
        invariant pFrom == NULL ==> L.Tracks(lc, ld, L.Pos(j, offFrom, i, offTo, done))
        decreases |c| - j + |d| - i
      {
        CursorAt(mem, to, d, pTo, i, offTo, done);
        CursorAt(mem, from, c, pFrom, j, offFrom, done);
        CursorLens(m0, mem, d, c, from, c, pFrom, j, offFrom, done);
        CursorLens(m0, mem, d, c, to, d, pTo, i, offTo, done);
        ghost var pos := L.Pos(j, offFrom, i, offTo, done);
        var len: nat;
        if mem[pFrom].Len() - offFrom <= mem[pTo].Len() - offTo {
          len := mem[pFrom].Len() - offFrom;
        } else {
          len := mem[pTo].Len() - offTo;
        }
        L.NextIs(lc, ld, pos, len);
        L.Round(lc, ld, pos);
        CopyStore(m0, mem, to, d, pTo, i, offTo, from, c, pFrom, j, offFrom, done, len);
        mem := Written(mem, pTo, offTo, mem[pFrom].payload[offFrom..offFrom + len]);
        offTo, offFrom, done := offTo + len, offFrom + len, done + len;
        CursorAt(mem, to, d, pTo, i, offTo, done);
        CursorAt(mem, from, c, pFrom, j, offFrom, done);
        CursorLens(m0, mem, d, c, from, c, pFrom, j, offFrom, done);
        CursorLens(m0, mem, d, c, to, d, pTo, i, offTo, done);
        if mem[pFrom].Len() <= offFrom {
          CursorNext(mem, from, c, pFrom, j, offFrom, done);
          offFrom, pFrom, j := 0, mem[pFrom].next, j + 1;
        }
        if offTo == mem[pTo].Len() {
          CursorNext(mem, to, d, pTo, i, offTo, done);
          offTo, pTo, i := 0, mem[pTo].next, i + 1;
          if pTo == NULL && pFrom != NULL {
            CursorLens(m0, mem, d, c, from, c, pFrom, j, offFrom, done);
            CursorLens(m0, mem, d, c, to, d, pTo, i, offTo, done);
            L.TargetEnds(lc, ld, pos, L.Next(lc, ld, pos));
            CopiedOnly(m0, mem, d, c, done);
            return ERR_ARG;
          }
        }
        CursorLens(m0, mem, d, c, from, c, pFrom, j, offFrom, done);
        CursorLens(m0, mem, d, c, to, d, pTo, i, offTo, done);
        if QueueStart(mem, pFrom) || QueueStart(mem, pTo) {
          L.Refused(lc, ld, pos, L.Next(lc, ld, pos));
          CopiedOnly(m0, mem, d, c, done);
          return ERR_VAL;
        }
        L.Passes(lc, ld, pos, L.Next(lc, ld, pos));
      }
      CursorLens(m0, mem, d, c, from, c, pFrom, j, offFrom, done);
      CursorEnd(mem, from, c, j, offFrom, done);
      CopiedAll(m0, mem, d, c, done);
      L.Ended(lc, ld, L.Pos(j, offFrom, i, offTo, done));
      return ERR_OK;
    }

    // ----- searching

    /**
     `pbuf_memcmp`: 0 if the bytes from `offset` on are s2, NONE if the chain is too short for that,
     otherwise one more than the index of the first difference.
     */
    method MemCmp(p: nat, offset: nat, s2: seq<byte>, ghost c: seq<nat>) returns (r: u16)
      requires IsChain(mem, p, c) && AllIn(mem, c) && Exact(mem, c) && p != NULL && |s2| < 0x1_0000
      ensures |Flat(mem, c)| < offset + |s2| ==> r == NONE
      ensures r == 0 <==> MatchAt(Flat(mem, c), offset, s2)
      ensures r != 0 && offset + |s2| <= |Flat(mem, c)| ==>
                r <= |s2| && Agree(Flat(mem, c), offset, s2, r - 1) && Flat(mem, c)[offset + r - 1] != s2[r - 1]
    {
      hide Flat, IsChain, Exact;
      ghost var f := Flat(mem, c);
      HeadLength(mem, p, c);
      if mem[p].totLen < offset + |s2| {
        return NONE;
      }
      var q, start;
      ghost var k;
      q, start, k := Skip(p, offset, c);
      ChainSuffix(mem, p, c, k);
      var i: nat := 0;
      while i < |s2|
        invariant i <= |s2| && Agree(f, offset, s2, i)
      {
        var a := TryGetAt(q, start + i, c[k..]);
        TailByte(mem, c, k, start + i);
        if a != s2[i] {
          return i + 1;
        }
        i := i + 1;
      }
      return 0;
    }

    /** `pbuf_memfind`: the least index from `start` on where s occurs, or NONE. */
    method MemFind(p: nat, s: seq<byte>, start: u16, ghost c: seq<nat>) returns (r: u16)
      requires IsChain(mem, p, c) && AllIn(mem, c) && Exact(mem, c) && p != NULL && |s| < 0x1_0000
      requires mem[p].totLen <= 0xfffe
      ensures r == NONE <==> forall i :: start <= i ==> !MatchAt(Flat(mem, c), i, s)
      ensures r != NONE ==>
          start <= r && MatchAt(Flat(mem, c), r, s) && forall i :: start <= i < r ==> !MatchAt(Flat(mem, c), i, s)
    {
      HeadLength(mem, p, c);
      hide Flat, IsChain, Exact;
      if |s| + start <= mem[p].totLen {
        var max := mem[p].totLen - |s|;
        var i: nat := start;
        while i <= max
          invariant start <= i <= max + 1 && forall k :: start <= k < i ==> !MatchAt(Flat(mem, c), k, s)
        {
          var plus := MemCmp(p, i, s, c);
          if plus == 0 {
            return i;
          }
          i := i + 1;
        }
      }
      return NONE;
    }
  }

  /** What was written is read back, and no other byte changed. */
  lemma PatchReads(f: seq<byte>, o: nat, s: seq<byte>)
    requires o + |s| <= |f|
    ensures Slice(Patch(f, o, s), o, |s|) == s
    ensures forall k :: 0 <= k < |f| && !(o <= k < o + |s|) ==> Patch(f, o, s)[k] == f[k]
  {
  }
}
