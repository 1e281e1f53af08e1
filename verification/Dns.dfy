/**
 LwIP/src/core/dns.c: writing a host name into a query (sections 3.1 and 4.1.2 of RFC 1035), and the two
 readers of encoded names.
 */
module Dns {
  import opened Bytes
  import opened PbufChain
  import opened PbufData

  const DOT: byte := 46
  const HDR: nat := 12
  const QUERY: nat := 4
  const NO_NAME: nat := 0xffff

  // ----- the encoding

  /** The end of the label that starts at i. */
  function LabelEnd(name: seq<byte>, i: nat): (e: nat)
    requires i <= |name|
    ensures i <= e <= |name| && (e < |name| ==> name[e] == DOT) && DOT !in name[i..e]
    decreases |name| - i
  {
    if i == |name| || name[i] == DOT then i else
      var e := LabelEnd(name, i + 1);
      assert name[i..e] == [name[i]] + name[i + 1..e];
      e
  }

  /** Writes as `pbuf_put_at` and `pbuf_take_at` do, or not at all. */
  function Write(f: seq<byte>, o: nat, s: seq<byte>): (r: seq<byte>)
    ensures |r| == |f|
  {
    if o < |f| && o + |s| <= |f| then Patch(f, o, s) else f
  }

  /**
   What the encoding loop makes of the packet from the label at
   i on, at position idx; the label length is counted in 8 bits.
   */
  function PutName(f: seq<byte>, idx: nat, name: seq<byte>, i: nat): (r: (seq<byte>, nat))
    requires i <= |name|
    ensures |r.0| == |f|
    decreases |name| - i
  {
    var e := LabelEnd(name, i);
    var n: byte := (e - i) % 256;
    var g := Write(Write(f, idx, [n]), idx + 1, name[i..e]);
    if e < |name| then PutName(g, idx + n + 1, name, e + 1) else (Write(g, idx + n + 1, [0]), idx + n + 2)
  }

  /** The encoded name from the label at i on. */
  function Encoded(name: seq<byte>, i: nat): seq<byte>
    requires i <= |name|
    decreases |name| - i
  {
    var e := LabelEnd(name, i);
    var n: byte := (e - i) % 256;
    [n] + name[i..e] + if e < |name| then Encoded(name, e + 1) else [0]
  }

  /** All labels from i on are non-empty and at most 63 bytes long. */
  ghost predicate GoodLabels(name: seq<byte>, i: nat)
    requires i <= |name|
    decreases |name| - i
  {
    var e := LabelEnd(name, i);
    0 < e - i <= 63 && (e < |name| ==> GoodLabels(name, e + 1))
  }

  /** All labels from i on have a length of 8 bits; whether that makes a name is not asked. */
  ghost predicate ShortLabels(name: seq<byte>, i: nat)
    requires i <= |name|
    decreases |name| - i
  {
    var e := LabelEnd(name, i);
    e - i <= 255 && (e < |name| ==> ShortLabels(name, e + 1))
  }

  lemma {:induction false} GoodIsShort(name: seq<byte>, i: nat)
    requires i <= |name| && GoodLabels(name, i)
    ensures ShortLabels(name, i)
    decreases |name| - i
  {
    var e := LabelEnd(name, i);
    if e < |name| {
      GoodIsShort(name, e + 1);
    }
  }

  lemma ShortParts(name: seq<byte>, i: nat, e: nat)
    requires i <= |name| && ShortLabels(name, i) && e == LabelEnd(name, i)
    ensures i <= e <= |name| && e - i <= 255 && (e < |name| ==> ShortLabels(name, e + 1))
    ensures Encoded(name, i) == [e - i] + name[i..e] + if e < |name| then Encoded(name, e + 1) else [0]
  {
    hide LabelEnd;
  }

  lemma {:induction false} EncodedLength(name: seq<byte>, i: nat)
    requires i <= |name| && ShortLabels(name, i)
    ensures |Encoded(name, i)| == |name| - i + 2
    decreases |name| - i
  {
    hide Encoded, ShortLabels, LabelEnd;
    var e := LabelEnd(name, i);
    ShortParts(name, i, e);
    assert |name[i..e]| == e - i;
    if e < |name| {
      EncodedLength(name, e + 1);
    }
  }

  lemma WriteLabel(f: seq<byte>, idx: nat, n: byte, part: seq<byte>)
    requires idx + 1 < |f| && idx + 1 + |part| <= |f|
    ensures Write(Write(f, idx, [n]), idx + 1, part) == Patch(f, idx, [n] + part)
  {
  }

  lemma WriteEnd(f: seq<byte>, idx: nat)
    requires idx < |f|
    ensures Write(f, idx, [0]) == Patch(f, idx, [0])
  {
  }

  lemma LabelParts(name: seq<byte>, i: nat, e: nat)
    requires i <= |name| && GoodLabels(name, i) && e == LabelEnd(name, i)
    ensures i < e <= |name| && e - i <= 63
    ensures Encoded(name, i) == [e - i] + name[i..e] + if e < |name| then Encoded(name, e + 1) else [0]
    ensures e < |name| ==> GoodLabels(name, e + 1) && Encoded(name, e + 1) != [] && Encoded(name, e + 1)[0] != 0
  {
    if e < |name| {
      FirstLength(name, e + 1);
    }
  }

  lemma FirstLength(name: seq<byte>, i: nat)
    requires i <= |name| && GoodLabels(name, i)
    ensures Encoded(name, i) != [] && Encoded(name, i)[0] != 0
  {
    hide LabelEnd;
  }

  lemma PutNameStep(f: seq<byte>, idx: nat, name: seq<byte>, i: nat, e: nat, n: byte)
    requires i <= |name| && e == LabelEnd(name, i) && n == (e - i) % 256
    ensures i <= e <= |name|
    ensures var g := Write(Write(f, idx, [n]), idx + 1, name[i..e]);
      PutName(f, idx, name, i) == if e < |name| then PutName(g, idx + n + 1, name, e + 1)
          else (Write(g, idx + n + 1, [0]), idx + n + 2)
  {
    hide Write, LabelEnd;
  }

  /** For such names the loop writes the encoded name in one stretch, strlen + 2 bytes. */
  lemma {:induction false} PutNameIs(f: seq<byte>, idx: nat, name: seq<byte>, i: nat)
    requires i <= |name| && ShortLabels(name, i) && idx + |name| - i + 2 <= |f|
    ensures |Encoded(name, i)| == |name| - i + 2
    ensures PutName(f, idx, name, i) == (Patch(f, idx, Encoded(name, i)), idx + |name| - i + 2)
    decreases |name| - i
  {
    hide Write, Patch, LabelEnd, PutName, Encoded, ShortLabels;
    EncodedLength(name, i);
    var e := LabelEnd(name, i);
    ShortParts(name, i, e);
    var n: byte := e - i;
    var w := [n] + name[i..e];
    PutNameStep(f, idx, name, i, e, n);
    WriteLabel(f, idx, n, name[i..e]);
    var g := Patch(f, idx, w);
    if e < |name| {
      PutNameIs(g, idx + n + 1, name, e + 1);
      PatchJoin(f, idx, w, Encoded(name, e + 1), idx + n + 1);
    } else {
      WriteEnd(g, idx + n + 1);
      PatchJoin(f, idx, w, [0], idx + n + 1);
    }
  }

  // ----- dns_send

  lemma WriteOne(f: seq<byte>, o: nat, x: byte)
    ensures Write(f, o, [x]) == if o < |f| then f[o := x] else f
  {
  }

  /** The buffers of a chain while they are written. */
  ghost predicate Writing(m0: Memory, m: Memory, p: nat, c: seq<nat>) {
    IsChain(m, p, c) && AllIn(m, c) && Exact(m, c) && Only(m0, m, c)
  }

  lemma WritingMore(m0: Memory, m: Memory, m': Memory, p: nat, c: seq<nat>)
    requires Writing(m0, m, p, c) && Only(m, m', c) && IsChain(m', p, c) && AllIn(m', c)
    ensures Writing(m0, m', p, c)
  {
    hide IsChain;
    ShapeExact(m, m', c);
    OnlyTrans(m0, m, m', c);
  }

  lemma WritingSays(m0: Memory, m: Memory, p: nat, c: seq<nat>)
    requires Writing(m0, m, p, c)
    ensures IsChain(m, p, c) && AllIn(m, c) && Exact(m, c) && Only(m0, m, c)
  {
  }

  /** One `pbuf_put_at`. */
  method PutByte(b: Buffers, p: nat, idx: nat, n: byte, ghost c: seq<nat>, ghost m0: Memory)
    requires Writing(m0, b.mem, p, c) && AllIn(b.mem, c)
    modifies b
    ensures Writing(m0, b.mem, p, c) && AllIn(b.mem, c) && Flat(b.mem, c) == Write(Flat(old(b.mem), c), idx, [n])
  {
    hide IsChain, Flat, Only, Exact, Writing, Write;
    ghost var m := b.mem;
    WritingSays(m0, m, p, c);
    WriteOne(Flat(m, c), idx, n);
    b.PutAt(p, idx, n, c);
    WritingMore(m0, m, b.mem, p, c);
  }

  /** One `pbuf_take_at`, whose result the code ignores. */
  method PutBytes(b: Buffers, p: nat, idx: nat, s: seq<byte>, ghost c: seq<nat>, ghost m0: Memory)
    requires Writing(m0, b.mem, p, c) && AllIn(b.mem, c)
    modifies b
    ensures Writing(m0, b.mem, p, c) && AllIn(b.mem, c) && Flat(b.mem, c) == Write(Flat(old(b.mem), c), idx, s)
  {
    hide IsChain, Flat, Only, Exact, Writing, Patch;
    ghost var m := b.mem;
    WritingSays(m0, m, p, c);
    var err := b.TakeAt(p, s, idx, c);
    WritingMore(m0, m, b.mem, p, c);
  }

  /** The end of the label at `part` and its length in 8 bits. */
  method Measure(name: seq<byte>, part: nat) returns (host: nat, n: byte)
    requires part <= |name|
    ensures host == LabelEnd(name, part) && n == (host - part) % 256
  {
    host, n := part, 0;
    while host < |name| && name[host] != DOT
      invariant part <= host <= |name| && n == (host - part) % 256 && LabelEnd(name, host) == LabelEnd(name, part)
      decreases |name| - host
    {
      n := (n + 1) % 256;
      host := host + 1;
    }
  }

  /** The loop of `dns_send` that writes the name, and the zero byte behind it. */
  method WriteName(b: Buffers, p: nat, name: seq<byte>, start: nat, ghost c: seq<nat>, ghost m0: Memory)
    returns (idx: nat)
    requires Writing(m0, b.mem, p, c) && AllIn(b.mem, c)
    modifies b
    ensures Writing(m0, b.mem, p, c) && AllIn(b.mem, c)
        && (Flat(b.mem, c), idx) == PutName(Flat(old(b.mem), c), start, name, 0)
  {
    hide Flat, Writing, Write, AllIn, PutName, LabelEnd;
    var host: nat, more := 0, true;
    ghost var f := Flat(b.mem, c);
    idx := start;
    while more
      invariant host <= |name| && AllIn(b.mem, c) && Writing(m0, b.mem, p, c)
      invariant more ==> PutName(Flat(b.mem, c), idx, name, host) == PutName(f, start, name, 0)
      invariant !more ==> (Write(Flat(b.mem, c), idx, [0]), idx + 1) == PutName(f, start, name, 0)
      decreases |name| - host, if more then 1 else 0
    {
      var part := host;
      var n;
      host, n := Measure(name, part);
      PutNameStep(Flat(b.mem, c), idx, name, part, host, n);
      PutByte(b, p, idx, n, c, m0);
      PutBytes(b, p, idx + 1, name[part..host], c, m0);
      idx := idx + n + 1;
      more := host < |name|;
      if more {
        host := host + 1;
      }
    }
    PutByte(b, p, idx, 0, c, m0);
    idx := idx + 1;
  }

  /** The packet `dns_send` fills: header, name and query, in a chain allocated for exactly that much. */
  method WriteQuery(b: Buffers, p: nat, hdr: seq<byte>, name: seq<byte>, query: seq<byte>, ghost c: seq<nat>)
    returns (idx: nat)
    requires IsChain(b.mem, p, c) && AllIn(b.mem, c) && Exact(b.mem, c) && |hdr| == HDR && |query| == QUERY
    requires |Flat(b.mem, c)| == HDR + |name| + 2 + QUERY
    modifies b
    ensures Only(old(b.mem), b.mem, c) && IsChain(b.mem, p, c) && AllIn(b.mem, c) && Exact(b.mem, c)
    ensures ShortLabels(name, 0) ==> |Encoded(name, 0)| == |name| + 2 && idx == HDR + |name| + 2
    ensures ShortLabels(name, 0) ==> Flat(b.mem, c) == hdr + Encoded(name, 0) + query
  {
    hide IsChain, Only, Exact, Flat, ShortLabels, Encoded, LabelEnd, PutName;
    ghost var m0, f := b.mem, Flat(b.mem, c);
    OnlySelf(m0, c);
    PutBytes(b, p, 0, hdr, c, m0);
    ghost var g := Flat(b.mem, c);
    idx := WriteName(b, p, name, HDR, c, m0);
    if ShortLabels(name, 0) {
      PutNameIs(g, HDR, name, 0);
      QueryBytes(f, hdr, Encoded(name, 0), query);
    }
    PutBytes(b, p, idx, query, c, m0);
  }

  lemma QueryBytes(f: seq<byte>, hdr: seq<byte>, enc: seq<byte>, query: seq<byte>)
    requires |hdr| == HDR && |query| == QUERY && |f| == |hdr| + |enc| + |query|
    ensures Write(Patch(Write(f, 0, hdr), HDR, enc), HDR + |enc|, query) == hdr + enc + query
  {
  }

  // ----- the readers

  /** The byte at o, or -1 behind the end (`pbuf_try_get_at`). */
  function Get(f: seq<byte>, o: nat): int {
    if o < |f| then f[o] else -1
  }

  /** Two top bits set: a compression pointer. */
  predicate Compressed(n: byte) {
    192 <= n
  }

  /** The bytes at o are those the query holds from q on, for n bytes. */
  function SameBytes(f: seq<byte>, o: nat, query: nat -> byte, q: nat, n: nat): bool
    decreases n
  {
    n == 0 || (o < |f| && query(q) == f[o] && SameBytes(f, o + 1, query, q + 1, n - 1))
  }

  /** `dns_compare_name` from the label at o on; the query is read as memory, whether or not it has ended. */
  function Compare(f: seq<byte>, o: nat, query: nat -> byte, q: nat): nat
    decreases |f| - o
  {
    if |f| <= o || Compressed(f[o]) || !SameBytes(f, o + 1, query, q, f[o]) then NO_NAME
    else
      var o' := o + 1 + f[o];
      if |f| <= o' then NO_NAME else if f[o'] == 0 then o' + 1 else Compare(f, o', query, q + f[o] + 1)
  }

  /** `dns_skip_name` from the label at o on; the result has 16 bits. */
  function SkipName(f: seq<byte>, o: nat): nat
    decreases |f| - o
  {
    if |f| <= o then NO_NAME
    else if Compressed(f[o]) then (o + 2) % 0x1_0000
    else
      var o' := o + 1 + f[o];
      if |f| <= o' then NO_NAME else if f[o'] == 0 then o' + 1 else SkipName(f, o')
  }

  /** `dns_compare_name`. */
  method CompareName(b: Buffers, query: nat -> byte, p: nat, start: u16, ghost c: seq<nat>) returns (r: nat)
    requires IsChain(b.mem, p, c) && AllIn(b.mem, c) && |Flat(b.mem, c)| <= 0xffff
    ensures r == Compare(Flat(b.mem, c), start, query, 0)
  {
    hide IsChain, Flat, AllIn;
    ghost var f := Flat(b.mem, c);
    var o: nat, q: nat, n := start, 0, 1;
    while n != 0
      invariant n != 0 ==> Compare(f, o, query, q) == Compare(f, start, query, 0)
      invariant n == 0 ==> Compare(f, start, query, 0) == o + 1
      decreases |f| - o, if n == 0 then 0 else 1
    {
      ghost var o0, q0 := o, q;
      n := b.TryGetAt(p, o, c);
      o := o + 1;
      if n < 0 || 192 <= n {
        return NO_NAME;
      }
      ghost var n0 := n;
      while 0 < n
        invariant 0 <= n <= n0 && o + n == o0 + 1 + n0 && q + n == q0 + n0
        invariant SameBytes(f, o, query, q, n) == SameBytes(f, o0 + 1, query, q0, n0)
        decreases n
      {
        var x := b.TryGetAt(p, o, c);
        if x < 0 || query(q) != x {
          return NO_NAME;
        }
        o, q, n := o + 1, q + 1, n - 1;
      }
      q := q + 1;
      n := b.TryGetAt(p, o, c);
      if n < 0 {
        return NO_NAME;
      }
    }
    r := o + 1;
  }

  /** `dns_skip_name`. */
  method SkipOver(b: Buffers, p: nat, start: u16, ghost c: seq<nat>) returns (r: nat)
    requires IsChain(b.mem, p, c) && AllIn(b.mem, c) && Exact(b.mem, c) && |Flat(b.mem, c)| <= 0xffff
    ensures r == SkipName(Flat(b.mem, c), start)
  {
    hide IsChain, Flat, AllIn, Exact;
    ghost var f := Flat(b.mem, c);
    var o: nat, n := start, 1;
    while n != 0
      invariant n != 0 ==> SkipName(f, o) == SkipName(f, start)
      invariant n == 0 ==> SkipName(f, start) == o + 1
      decreases |f| - o, if n == 0 then 0 else 1
    {
      n := b.TryGetAt(p, o, c);
      o := o + 1;
      if n < 0 {
        return NO_NAME;
      }
      if 192 <= n {
        return (o + 1) % 0x1_0000;
      }
      TotalIs(b.mem, p, c, f, o - 1);
      if b.mem[p].totLen <= o + n {
        return NO_NAME;
      }
      o := (o + n) % 0x1_0000;
      n := b.TryGetAt(p, o, c);
      if n < 0 {
        return NO_NAME;
      }
    }
    r := o + 1;
  }

  lemma TotalIs(m: Memory, p: nat, c: seq<nat>, f: seq<byte>, o: nat)
    requires IsChain(m, p, c) && AllIn(m, c) && Exact(m, c) && f == Flat(m, c) && o < |f|
    ensures p in m && m[p].totLen == |f|
  {
    HeadLength(m, p, c);
  }

  // ----- round trip

  lemma {:induction false} SameBytesIs(f: seq<byte>, o: nat, query: nat -> byte, q: nat, s: seq<byte>)
    requires o + |s| <= |f| && f[o..o + |s|] == s && forall k :: 0 <= k < |s| ==> query(q + k) == s[k]
    ensures SameBytes(f, o, query, q, |s|)
    decreases |s|
  {
    if s != [] {
      assert f[o] == f[o..o + |s|][0] && query(q) == query(q + 0);
      assert f[o + 1..o + 1 + |s[1..]|] == f[o..o + |s|][1..] == s[1..];
      forall k | 0 <= k < |s[1..]| ensures query(q + 1 + k) == s[1..][k] {
        assert query(q + (k + 1)) == s[k + 1];
      }
      SameBytesIs(f, o + 1, query, q + 1, s[1..]);
    }
  }

  /** The three parts of an encoded label in a stretch of f. */
  lemma ThreeParts(f: seq<byte>, o: nat, n: byte, part: seq<byte>, rest: seq<byte>, w: seq<byte>)
    requires w == [n] + part + rest && o + |w| <= |f| && f[o..o + |w|] == w
    ensures |w| == 1 + |part| + |rest| && f[o] == n && f[o + 1..o + 1 + |part|] == part
    ensures f[o + 1 + |part|..o + 1 + |part| + |rest|] == rest && (rest != [] ==> f[o + 1 + |part|] == rest[0])
  {
    var k := |part|;
    forall j | 0 <= j < |w| ensures f[o + j] == w[j] {
      assert f[o..o + |w|][j] == f[o + j];
    }
    assert f[o + 0] == w[0];
    forall j | 0 <= j < k ensures f[o + 1..o + 1 + k][j] == part[j] {
      assert f[o + (1 + j)] == w[1 + j];
    }
    forall j | 0 <= j < |rest| ensures f[o + 1 + k..o + 1 + k + |rest|][j] == rest[j] {
      assert f[o + (1 + k + j)] == w[1 + k + j];
    }
    assert rest != [] ==> f[o + (1 + k)] == w[1 + k];
  }

  /** What stands at o, for one label of an encoded name. */
  ghost predicate LabelStands(f: seq<byte>, o: nat, name: seq<byte>, i: nat, e: nat)
    requires i <= |name|
  {
    && i < e <= |name| && e - i <= 63 && o + 1 + (e - i) < |f| && f[o] == e - i
        && f[o + 1..o + 1 + (e - i)] == name[i..e]
    && (f[o + 1 + (e - i)] == 0 <==> e == |name|)
    && (e < |name| ==> GoodLabels(name, e + 1) && o + 1 + (e - i) + |Encoded(name, e + 1)| <= |f|)
    && (e < |name| ==> f[o + 1 + (e - i)..o + 1 + (e - i) + |Encoded(name, e + 1)|] == Encoded(name, e + 1))
  }

  lemma LabelAt(f: seq<byte>, o: nat, name: seq<byte>, i: nat)
    requires i <= |name| && GoodLabels(name, i) && o + |Encoded(name, i)| <= |f|
        && f[o..o + |Encoded(name, i)|] == Encoded(name, i)
    ensures LabelStands(f, o, name, i, LabelEnd(name, i)) && |Encoded(name, i)| == |name| - i + 2
  {
    hide Encoded, GoodLabels, ShortLabels;
    var e := LabelEnd(name, i);
    hide LabelEnd;
    GoodIsShort(name, i);
    EncodedLength(name, i);
    LabelParts(name, i, e);
    var part, rest := name[i..e], if e < |name| then Encoded(name, e + 1) else [0];
    assert |part| == e - i;
    ThreeParts(f, o, e - i, part, rest, Encoded(name, i));
  }

  lemma ReadLabel(f: seq<byte>, o: nat, n: nat, query: nat -> byte, q: nat)
    requires o + 1 + n < |f| && f[o] == n <= 63 && SameBytes(f, o + 1, query, q, n)
    ensures Compare(f, o, query, q) == if f[o + 1 + n] == 0 then o + n + 2 else Compare(f, o + 1 + n, query, q + n + 1)
    ensures SkipName(f, o) == if f[o + 1 + n] == 0 then o + n + 2 else SkipName(f, o + 1 + n)
  {
    hide SameBytes;
  }

  lemma LabelRead(f: seq<byte>, o: nat, name: seq<byte>, i: nat, e: nat, query: nat -> byte)
    requires i <= e <= |name| && o + (e - i) <= |f| && f[o..o + (e - i)] == name[i..e]
        && forall k :: 0 <= k < |name| ==> query(k) == name[k]
    ensures SameBytes(f, o, query, i, e - i)
  {
    forall k | 0 <= k < e - i ensures query(i + k) == name[i..e][k] {
    }
    SameBytesIs(f, o, query, i, name[i..e]);
  }

  /** An encoded name matches itself, and both readers find the offset just behind it. */
  lemma {:induction false} NameFound(f: seq<byte>, o: nat, name: seq<byte>, i: nat, query: nat -> byte)
    requires i <= |name| && GoodLabels(name, i) && o + |Encoded(name, i)| <= |f|
        && f[o..o + |Encoded(name, i)|] == Encoded(name, i)
    requires forall k :: 0 <= k < |name| ==> query(k) == name[k]
    ensures |Encoded(name, i)| == |name| - i + 2
    ensures Compare(f, o, query, i) == o + |name| - i + 2 && SkipName(f, o) == o + |name| - i + 2
    decreases |name| - i
  {
    hide Encoded, LabelEnd, Compare, SkipName, SameBytes;
    var e := LabelEnd(name, i);
    LabelAt(f, o, name, i);
    LabelRead(f, o + 1, name, i, e, query);
    ReadLabel(f, o, e - i, query, i);
    if e < |name| {
      NameFound(f, o + 1 + (e - i), name, e + 1, query);
    }
  }

  // ----- what a match means

  /** A whole uncompressed name stands at o. */
  ghost predicate Whole(f: seq<byte>, o: nat)
    decreases |f| - o
  {
    o < |f| && !Compressed(f[o]) && o + 1 + f[o] < |f| && (f[o + 1 + f[o]] == 0 || Whole(f, o + 1 + f[o]))
  }

  /** Byte k belongs to a label of the name at o. */
  ghost predicate InLabel(f: seq<byte>, o: nat, k: nat)
    requires Whole(f, o)
    decreases |f| - o
  {
    o < k <= o + f[o] || (f[o + 1 + f[o]] != 0 && InLabel(f, o + 1 + f[o], k))
  }

  /** Byte k of f is the one the query holds `shift` further on. */
  ghost predicate Same(f: seq<byte>, query: nat -> byte, k: nat, shift: int) {
    k < |f| && 0 <= k + shift && query(k + shift) == f[k]
  }

  /**
   The labels of the name at o read like the query, byte by byte; what stands between them is not
   compared.
   */
  ghost predicate LabelsAgree(f: seq<byte>, o: nat, query: nat -> byte, shift: int)
    requires Whole(f, o)
  {
    forall k: nat :: InLabel(f, o, k) ==> Same(f, query, k, shift)
  }

  lemma {:induction false} SameBytesMeans(f: seq<byte>, o: nat, query: nat -> byte, q: nat, n: nat, shift: int)
    requires shift == q - o
    ensures SameBytes(f, o, query, q, n) <==> forall k: nat :: o <= k < o + n ==> Same(f, query, k, shift)
    decreases n
  {
    if 0 < n {
      SameBytesMeans(f, o + 1, query, q + 1, n - 1, shift);
      assert Same(f, query, o, shift) <==> o < |f| && query(q) == f[o];
    }
  }

  lemma LabelsStep(f: seq<byte>, o: nat, query: nat -> byte, q: nat, shift: int)
    requires Whole(f, o) && shift == q - o - 1
    ensures LabelsAgree(f, o, query, shift)
       <==> SameBytes(f, o + 1, query, q, f[o]) && (f[o + 1 + f[o]] != 0 ==> LabelsAgree(f, o + 1 + f[o], query, shift))
  {
    var o' := o + 1 + f[o];
    SameBytesMeans(f, o + 1, query, q, f[o], shift);
    hide Same, SameBytes;
    if LabelsAgree(f, o, query, shift) {
      forall k: nat | o + 1 <= k < o + 1 + f[o] ensures Same(f, query, k, shift) {
        assert InLabel(f, o, k);
      }
      forall k: nat | f[o'] != 0 && InLabel(f, o', k) ensures Same(f, query, k, shift) {
        assert InLabel(f, o, k);
      }
    }
  }

  /**
   A match means that a whole name stands there whose labels agree with the query, and nothing more;
   the result is the offset behind the name.
   */
  lemma {:induction false} MatchMeans(f: seq<byte>, o: nat, query: nat -> byte, q: nat)
    requires |f| < NO_NAME
    ensures Compare(f, o, query, q) != NO_NAME <==> Whole(f, o) && LabelsAgree(f, o, query, q - o - 1)
    ensures Compare(f, o, query, q) != NO_NAME ==> Compare(f, o, query, q) == SkipName(f, o)
    decreases |f| - o
  {
    if o < |f| && !Compressed(f[o]) && o + 1 + f[o] < |f| {
      var o' := o + 1 + f[o];
      if f[o'] != 0 {
        MatchMeans(f, o', query, q + f[o] + 1);
        assert q + f[o] + 1 - o' - 1 == q - o - 1;
      }
      if Whole(f, o) {
        hide LabelsAgree, InLabel;
        LabelsStep(f, o, query, q, q - o - 1);
      }
    }
  }

  /** So the response a.b matches the query a-b, and goes on to match whatever follows the text. */
  lemma MatchMisleads(query: nat -> byte)
    requires query(0) == 97 && query(1) == 45 && query(2) == 98
    ensures Compare([1, 97, 1, 98, 0], 0, query, 0) == 5
  {
    var f := [1, 97, 1, 98, 0];
    assert SameBytes(f, 2, query, 1, 0) && SameBytes(f, 1, query, 0, 1);
    assert SameBytes(f, 4, query, 3, 0) && SameBytes(f, 3, query, 2, 1);
    assert Compare(f, 2, query, 2) == 5;
  }

  // ----- names that end in a pointer, and the name of the root

  /** Labels as they stand in a packet. */
  function Labels(labels: seq<seq<byte>>): seq<byte> {
    if labels == [] then [] else [|labels[0]| % 256] + labels[0] + Labels(labels[1..])
  }

  /** Labels that the readers take for some: only the first can be empty. */
  predicate Readable(labels: seq<seq<byte>>) {
    forall j :: 0 <= j < |labels| ==> |labels[j]| < 192 && (labels[j] == [] ==> j == 0)
  }

  /** What ends a name: the zero byte, or the first byte of a compression pointer. */
  predicate Finishes(labels: seq<seq<byte>>, last: byte) {
    192 <= last || (last == 0 && labels != [])
  }

  /** Labels and what ends them stand at o. */
  predicate NameAt(f: seq<byte>, o: nat, labels: seq<seq<byte>>, last: byte) {
    var w := Labels(labels) + [last];
    o + |w| <= |f| && f[o..o + |w|] == w && Readable(labels) && Finishes(labels, last)
  }

  /** The offset behind a name; a pointer has two bytes, of which only the first is read. */
  function Behind(o: nat, labels: seq<seq<byte>>, last: byte): nat {
    o + |Labels(labels)| + if last == 0 then 1 else 2
  }

  lemma SkipStep(f: seq<byte>, o: nat)
    ensures |f| <= o ==> SkipName(f, o) == NO_NAME
    ensures o < |f| && 192 <= f[o] ==> SkipName(f, o) == (o + 2) % 0x1_0000
    ensures o < |f| && f[o] < 192 ==> var o' := o + 1 + f[o];
        SkipName(f, o) == if |f| <= o' then NO_NAME else if f[o'] == 0 then o' + 1 else SkipName(f, o')
  {
  }

  /** The first label of a name, and the rest. */
  lemma FirstOf(f: seq<byte>, o: nat, labels: seq<seq<byte>>, last: byte)
    requires NameAt(f, o, labels, last) && labels != []
    ensures var n := |labels[0]|; var o' := o + 1 + n;
      && n < 192 && o' < |f| && f[o] == n && (f[o'] == 0 <==> |labels| == 1 && last == 0)
      && Behind(o, labels, last) == Behind(o', labels[1..], last)
      && (f[o'] != 0 ==> NameAt(f, o', labels[1..], last))
  {
    var part, rest := labels[0], Labels(labels[1..]) + [last];
    var w := Labels(labels) + [last];
    assert w == [|part|] + part + rest;
    ThreeParts(f, o, |part|, part, rest, w);
    assert rest[0] == if labels[1..] == [] then last else |labels[1]|;
    assert labels[1..] != [] ==> labels[1] == labels[1..][0];
  }

  lemma LastOf(f: seq<byte>, o: nat, last: byte)
    requires NameAt(f, o, [], last)
    ensures o < |f| && f[o] == last && 192 <= last && Behind(o, [], last) == o + 2
  {
    assert f[o] == f[o..o + 1][0];
  }

  /** Whatever name stands at o, the reader returns the offset behind it, in 16 bits. */
  lemma {:induction false} SkipsName(f: seq<byte>, o: nat, labels: seq<seq<byte>>, last: byte)
    requires |f| <= 0xffff && NameAt(f, o, labels, last)
    ensures SkipName(f, o) == Behind(o, labels, last) % 0x1_0000
    decreases |labels|
  {
    hide SkipName, NameAt, Labels, Behind;
    SkipStep(f, o);
    if labels == [] {
      LastOf(f, o, last);
    } else {
      FirstOf(f, o, labels, last);
      var o' := o + 1 + |labels[0]|;
      if f[o'] == 0 {
        assert labels[1..] == [];
        BehindNone(o');
      } else {
        SkipsName(f, o', labels[1..], last);
      }
    }
  }

  lemma BehindNone(o: nat)
    ensures Behind(o, [], 0) == o + 1
  {
  }

  /** One label more in front. */
  lemma MoreOf(f: seq<byte>, o: nat, labels: seq<seq<byte>>, last: byte) returns (all: seq<seq<byte>>)
    requires o < |f| && f[o] < 192 && o + 1 + f[o] < |f| && Readable(labels) && [] !in labels
    requires var o', w := o + 1 + f[o], Labels(labels) + [last]; o' + |w| <= |f| && f[o'..o' + |w|] == w
    requires 192 <= last || last == 0
    ensures NameAt(f, o, all, last) && all != [] && (f[o] != 0 ==> [] !in all)
  {
    var o', w := o + 1 + f[o], Labels(labels) + [last];
    var part := f[o + 1..o'];
    all := [part] + labels;
    assert all[1..] == labels;
    assert Labels(all) + [last] == [f[o]] + part + w;
    hide Labels;
    JoinParts(f, o, f[o], part, w);
    assert forall j :: 0 < j < |all| ==> all[j] == labels[j - 1] && all[j] in labels;
  }

  lemma LabelsNone(last: byte)
    ensures Labels([]) + [last] == [last] && Readable([])
  {
  }

  /** And if it returns an offset, a name stands there. */
  lemma {:induction false} FindsName(f: seq<byte>, o: nat) returns (labels: seq<seq<byte>>, last: byte)
    requires |f| <= 0xfffd && SkipName(f, o) != NO_NAME
    ensures NameAt(f, o, labels, last) && (o < |f| && f[o] != 0 ==> [] !in labels)
    decreases |f| - o
  {
    hide SkipName, NameAt, Labels, Readable;
    SkipStep(f, o);
    LabelsNone(f[o]);
    if 192 <= f[o] {
      labels, last := [], f[o];
      PointerAt(f, o);
    } else {
      var o' := o + 1 + f[o];
      if f[o'] == 0 {
        LabelsNone(0);
        assert f[o'..o' + 1] == [0];
        last := 0;
        labels := MoreOf(f, o, [], 0);
      } else {
        var rest;
        rest, last := FindsName(f, o');
        NameAtSays(f, o', rest, last);
        labels := MoreOf(f, o, rest, last);
      }
    }
  }

  /** An offset is returned exactly if a name stands at o, and then it is the one behind the name. */
  lemma SkipExactly(f: seq<byte>, o: nat)
    requires |f| <= 0xfffd
    ensures SkipName(f, o) != NO_NAME <==> exists labels, last :: NameAt(f, o, labels, last)
    ensures forall labels, last :: NameAt(f, o, labels, last) ==> SkipName(f, o) == Behind(o, labels, last)
  {
    hide SkipName;
    forall labels, last | NameAt(f, o, labels, last)
      ensures SkipName(f, o) == Behind(o, labels, last) < NO_NAME
    {
      SkipsName(f, o, labels, last);
    }
    if SkipName(f, o) != NO_NAME {
      var labels, last := FindsName(f, o);
    }
  }

  lemma PointerAt(f: seq<byte>, o: nat)
    requires o < |f| && 192 <= f[o]
    ensures NameAt(f, o, [], f[o])
  {
  }

  lemma NameAtSays(f: seq<byte>, o: nat, labels: seq<seq<byte>>, last: byte)
    requires NameAt(f, o, labels, last)
    ensures var w := Labels(labels) + [last];
      o + |w| <= |f| && f[o..o + |w|] == w && Readable(labels) && Finishes(labels, last) && o < |f|
  {
  }

  /** The name of the root, a zero byte alone, is never skipped rightly: whatever follows is taken to belong to it. */
  lemma SkipsTooMuch(f: seq<byte>, o: nat)
    requires |f| <= 0xfffd && o < |f| && f[o] == 0
    ensures o + 1 < SkipName(f, o)
  {
    if o + 1 < |f| && f[o + 1] != 0 {
      SkipsForward(f, o + 1);
    }
  }

  lemma {:induction false} SkipsForward(f: seq<byte>, o: nat)
    requires |f| <= 0xfffd
    ensures o < |f| ==> o < SkipName(f, o)
    ensures |f| <= o ==> SkipName(f, o) == NO_NAME
    decreases |f| - o
  {
    if o < |f| {
      SkipsForward(f, o + 1 + f[o]);
    }
  }

  // ----- when a match is right

  /** The query has a dot wherever two labels meet, and ends with the last. */
  ghost predicate Separated(f: seq<byte>, o: nat, query: nat -> byte, q: nat)
    requires Whole(f, o)
    decreases |f| - o
  {
    var o' := o + 1 + f[o];
    if f[o'] == 0 then query(q + f[o]) == 0 else query(q + f[o]) == DOT && Separated(f, o', query, q + f[o] + 1)
  }

  /** No label holds a dot or a NUL. */
  ghost predicate PlainLabels(f: seq<byte>, o: nat)
    requires Whole(f, o)
    decreases |f| - o
  {
    var o' := o + 1 + f[o];
    (forall k :: o < k < o' ==> f[k] != DOT && f[k] != 0) && (f[o'] != 0 ==> PlainLabels(f, o'))
  }

  /** The encoding of the name from position i on stands at o. */
  ghost predicate Stands(f: seq<byte>, o: nat, name: seq<byte>, i: nat)
    requires i <= |name|
  {
    o + |name| - i + 2 <= |f| && f[o..o + |name| - i + 2] == Encoded(name, i)
  }

  /** The query text is the name. */
  ghost predicate Spells(query: nat -> byte, name: seq<byte>) {
    0 !in name && query(|name|) == 0 && forall k :: 0 <= k < |name| ==> query(k) == name[k]
  }

  /** The first label of the response ends where the first label of the name does. */
  lemma SameEnd(f: seq<byte>, o: nat, name: seq<byte>, i: nat, query: nat -> byte)
    requires i <= |name| && GoodLabels(name, i) && Spells(query, name) && Whole(f, o)
    requires Separated(f, o, query, i) && PlainLabels(f, o) && SameBytes(f, o + 1, query, i, f[o])
    ensures var e := LabelEnd(name, i); f[o] == e - i && f[o + 1..o + 1 + f[o]] == name[i..e]
    ensures f[o + 1 + f[o]] == 0 <==> LabelEnd(name, i) == |name|
  {
    var e, n := LabelEnd(name, i), f[o];
    SameBytesMeans(f, o + 1, query, i, n, i - o - 1);
    hide LabelEnd, Separated, PlainLabels, SameBytes;
    FirstSeparator(f, o, query, i);
    assert forall k :: 0 <= k < e - i ==> name[i..e][k] == name[i + k];
    var behind := o + 1 + (e - i);
    assert e - i < n ==> Same(f, query, behind, i - o - 1);
    assert n == e - i;
    forall k | 0 <= k < n ensures f[o + 1..o + 1 + n][k] == name[i..e][k] {
      assert Same(f, query, o + 1 + k, i - o - 1);
    }
  }

  lemma FirstSeparator(f: seq<byte>, o: nat, query: nat -> byte, q: nat)
    requires Whole(f, o) && Separated(f, o, query, q) && PlainLabels(f, o)
    ensures query(q + f[o]) == if f[o + 1 + f[o]] == 0 then 0 else DOT
    ensures forall k :: o < k < o + 1 + f[o] ==> f[k] != DOT && f[k] != 0
  {
  }

  /**
   A match is a match of names exactly if the query has its dots and its end where the response has its
   labels, and no label holds a dot or a NUL.
   */
  lemma {:induction false} MatchIsName(f: seq<byte>, o: nat, name: seq<byte>, i: nat, query: nat -> byte)
    requires |f| < NO_NAME && i <= |name| && GoodLabels(name, i) && Spells(query, name)
    ensures Stands(f, o, name, i) <==>
        Compare(f, o, query, i) != NO_NAME && Whole(f, o) && Separated(f, o, query, i) && PlainLabels(f, o)
    decreases |name| - i
  {
    hide Stands, Compare, Separated, PlainLabels, Whole, GoodLabels;
    if Stands(f, o, name, i) {
      StandsReads(f, o, name, i, query);
    } else if Compare(f, o, query, i) != NO_NAME && Whole(f, o) && Separated(f, o, query, i) && PlainLabels(f, o) {
      ReadsStands(f, o, name, i, query);
    }
  }

  /** The bytes of one label. */
  lemma LabelPlain(f: seq<byte>, o: nat, name: seq<byte>, i: nat, e: nat)
    requires i <= e <= |name| && o + 1 + (e - i) <= |f| && f[o + 1..o + 1 + (e - i)] == name[i..e]
    requires DOT !in name[i..e] && 0 !in name
    ensures forall k :: o < k < o + 1 + (e - i) ==> f[k] != DOT && f[k] != 0
  {
    forall k | o < k < o + 1 + (e - i) ensures f[k] != DOT && f[k] != 0 {
      assert f[k] == f[o + 1..o + 1 + (e - i)][k - o - 1] == name[i..e][k - o - 1] == name[i + k - o - 1];
    }
  }

  /** One label more in front. */
  lemma ReadsFirst(f: seq<byte>, o: nat, query: nat -> byte, q: nat, n: nat)
    requires n <= 63 && o + 1 + n < |f| && f[o] == n
    requires forall k :: o < k < o + 1 + n ==> f[k] != DOT && f[k] != 0
    requires query(q + n) == if f[o + 1 + n] == 0 then 0 else DOT
    requires f[o + 1 + n] != 0 ==>
        Whole(f, o + 1 + n) && Separated(f, o + 1 + n, query, q + n + 1) && PlainLabels(f, o + 1 + n)
    ensures Whole(f, o) && Separated(f, o, query, q) && PlainLabels(f, o)
  {
  }

  /** What follows the first label. */
  lemma ReadsRest(f: seq<byte>, o: nat, query: nat -> byte, q: nat)
    requires Compare(f, o, query, q) != NO_NAME && Whole(f, o) && Separated(f, o, query, q) && PlainLabels(f, o)
    ensures var o' := o + 1 + f[o];
      && SameBytes(f, o + 1, query, q, f[o]) && o' < |f|
      && (f[o'] != 0 ==>
          Compare(f, o', query, q + f[o] + 1) != NO_NAME && Whole(f, o')
          && Separated(f, o', query, q + f[o] + 1) && PlainLabels(f, o'))
  {
  }

  lemma StandsSays(f: seq<byte>, o: nat, name: seq<byte>, i: nat)
    requires i <= |name| && GoodLabels(name, i)
    ensures |Encoded(name, i)| == |name| - i + 2
    ensures Stands(f, o, name, i) <==>
        o + |Encoded(name, i)| <= |f| && f[o..o + |Encoded(name, i)|] == Encoded(name, i)
  {
    GoodIsShort(name, i);
    EncodedLength(name, i);
  }

  lemma SpellsSays(query: nat -> byte, name: seq<byte>)
    requires Spells(query, name)
    ensures 0 !in name && query(|name|) == 0 && forall k :: 0 <= k < |name| ==> query(k) == name[k]
  {
  }

  lemma {:induction false} StandsReads(f: seq<byte>, o: nat, name: seq<byte>, i: nat, query: nat -> byte)
    requires |f| < NO_NAME && i <= |name| && GoodLabels(name, i) && Spells(query, name) && Stands(f, o, name, i)
    ensures Compare(f, o, query, i) != NO_NAME && Whole(f, o) && Separated(f, o, query, i) && PlainLabels(f, o)
    decreases |name| - i
  {
    hide *;
    StandsSays(f, o, name, i);
    SpellsSays(query, name);
    NameFound(f, o, name, i, query);
    LabelAt(f, o, name, i);
    var e := LabelEnd(name, i);
    LabelStandsSays(f, o, name, i, e);
    LabelPlain(f, o, name, i, e);
    if e < |name| {
      StandsSays(f, o + 1 + (e - i), name, e + 1);
      StandsReads(f, o + 1 + (e - i), name, e + 1, query);
    }
    ReadsFirst(f, o, query, i, e - i);
  }

  lemma LabelStandsSays(f: seq<byte>, o: nat, name: seq<byte>, i: nat, e: nat)
    requires i <= |name| && LabelStands(f, o, name, i, e)
    ensures i < e <= |name| && e - i <= 63 && o + 1 + (e - i) < |f| && f[o] == e - i
        && f[o + 1..o + 1 + (e - i)] == name[i..e] && (f[o + 1 + (e - i)] == 0 <==> e == |name|)
    ensures e < |name| ==>
        GoodLabels(name, e + 1) && o + 1 + (e - i) + |Encoded(name, e + 1)| <= |f|
        && f[o + 1 + (e - i)..o + 1 + (e - i) + |Encoded(name, e + 1)|] == Encoded(name, e + 1)
  {
  }

  lemma {:induction false} ReadsStands(f: seq<byte>, o: nat, name: seq<byte>, i: nat, query: nat -> byte)
    requires |f| < NO_NAME && i <= |name| && GoodLabels(name, i) && Spells(query, name)
    requires Compare(f, o, query, i) != NO_NAME && Whole(f, o) && Separated(f, o, query, i) && PlainLabels(f, o)
    ensures Stands(f, o, name, i)
    decreases |name| - i
  {
    hide *;
    StandsSays(f, o, name, i);
    WholeSays(f, o);
    ReadsRest(f, o, query, i);
    SameEnd(f, o, name, i, query);
    var e, o' := LabelEnd(name, i), o + 1 + f[o];
    LabelParts(name, i, e);
    var rest := if e < |name| then Encoded(name, e + 1) else [0];
    if e < |name| {
      ReadsStands(f, o', name, e + 1, query);
      StandsSays(f, o', name, e + 1);
    }
    assert f[o'..o' + |rest|] == rest;
    JoinParts(f, o, f[o], name[i..e], rest);
  }

  lemma WholeSays(f: seq<byte>, o: nat)
    requires Whole(f, o)
    ensures o < |f| && o + 1 + f[o] < |f|
  {
  }

  lemma JoinParts(f: seq<byte>, o: nat, n: byte, part: seq<byte>, rest: seq<byte>)
    requires o + 1 + |part| + |rest| <= |f| && f[o] == n && f[o + 1..o + 1 + |part|] == part
    requires f[o + 1 + |part|..o + 1 + |part| + |rest|] == rest
    ensures f[o..o + 1 + |part| + |rest|] == [n] + part + rest
  {
  }

  /** A label may hold a dot: the one label a.b matches the query for the two labels a and b. */
  lemma DotInside(query: nat -> byte)
    requires Spells(query, [97, DOT, 98])
    ensures var f := [3, 97, DOT, 98, 0];
      Compare(f, 0, query, 0) == 5 && Whole(f, 0) && Separated(f, 0, query, 0) && !Stands(f, 0, [97, DOT, 98], 0)
  {
    var f, name := [3, 97, DOT, 98, 0], [97, DOT, 98];
    assert SameBytes(f, 4, query, 3, 0) && SameBytes(f, 3, query, 2, 1) && SameBytes(f, 2, query, 1, 2);
    assert LabelEnd(name, 1) == 1 && LabelEnd(name, 0) == 1;
    assert Encoded(name, 0)[0] == 1;
  }

  /** The query `dns_send` writes, however it is cut into pbufs, is read back by both readers. */
  method RoundTrip(b: Buffers, p: nat, hdr: seq<byte>, name: seq<byte>, query: seq<byte>, text: nat -> byte,
          ghost c: seq<nat>)
    returns (idx: nat, compared: nat, skipped: nat)
    requires IsChain(b.mem, p, c) && AllIn(b.mem, c) && Exact(b.mem, c) && |hdr| == HDR && |query| == QUERY
    requires |Flat(b.mem, c)| == HDR + |name| + 2 + QUERY <= 0xffff && GoodLabels(name, 0)
    requires forall k :: 0 <= k < |name| ==> text(k) == name[k]
    modifies b
    ensures idx == compared == skipped == HDR + |name| + 2
  {
    hide IsChain, Flat, AllIn, Exact, Only, GoodLabels, ShortLabels, Encoded, Compare, SkipName;
    ghost var m := b.mem;
    GoodIsShort(name, 0);
    idx := WriteQuery(b, p, hdr, name, query, c);
    NameStands(hdr, Encoded(name, 0), query);
    NameFound(Flat(b.mem, c), HDR, name, 0, text);
    compared := CompareName(b, text, p, HDR, c);
    skipped := SkipOver(b, p, HDR, c);
  }

  lemma NameStands(hdr: seq<byte>, enc: seq<byte>, query: seq<byte>)
    requires |hdr| == HDR
    ensures (hdr + enc + query)[HDR..HDR + |enc|] == enc
  {
  }
}
