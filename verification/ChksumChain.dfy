/**
 LwIP/src/core/inet_chksum.c: checksums over pbuf chains, with and without a pseudo header. Bytes of a
 pbuf that starts at an odd position count in the other half of their words; the code swaps the sum
 instead.
 */
module ChksumChain {
  import opened Bytes
  import opened PbufChain
  import opened Checksum

  /** What the accumulator stands for: t, or t with the bytes of its words exchanged. */
  ghost function Turn(swapped: bool, t: nat): nat {
    if swapped then 256 * t else t
  }

  /** `acc` has been folded and stands for the sum of `init` and the words of a. */
  ghost predicate Holds(acc: u32, swapped: bool, init: nat, a: seq<byte>) {
    acc <= 0xffff && Cong(acc, Turn(swapped, init + WordSum(a)))
  }

  /**
   Adding the sum of b without regard to where it stands is
   right if the flag tells the parity of what precedes it.
   */
  lemma AddPiece(acc: u16, swapped: bool, init: nat, a: seq<byte>, b: seq<byte>)
    requires Cong(acc, Turn(swapped, init + WordSum(a))) && swapped == (|a| % 2 == 1)
    ensures Cong(acc + InternetSum(b), Turn(swapped, init + WordSum(a + b)))
  {
    hide Cong, WordSum;
    var s, t, u := init + WordSum(a), WordSum(b), init + WordSum(a + b);
    AppendSum(a, b);
    CongRefl(init);
    CongAdd(init, init, WordSum(a + b), WordSum(a) + (if |a| % 2 == 0 then t else 256 * t));
    CongCanonSelf(t);
    CongAdd(acc, Turn(swapped, s), InternetSum(b), t);
    if swapped {
      TurnedPiece(u, s, t);
      CongTrans(acc + InternetSum(b), 256 * s + t, 256 * u);
    } else {
      CongSym(u, s + t);
      CongTrans(acc + InternetSum(b), s + t, u);
    }
  }

  lemma TurnedPiece(u: nat, s: nat, t: nat)
    requires Cong(u, s + 256 * t)
    ensures Cong(256 * s + t, 256 * u)
  {
    CongScale(u, s + 256 * t);
    CongHigh(t, 256 * s);
  }

  lemma CongCanonSelf(s: nat)
    ensures Cong(Canon(s), s)
  {
  }

  /** Exchanging the bytes of the accumulator exchanges what it stands for. */
  lemma TurnOver(acc: u16, swapped: bool, t: nat)
    requires Cong(acc, Turn(swapped, t))
    ensures Cong(Swap(acc), Turn(!swapped, t))
  {
    SwapCanon(acc, Turn(swapped, t));
    CongHigh(t, 0);
  }

  /** One round of the loops: the sum of one pbuf's bytes, one fold, and the swap if the pbuf is odd. */
  method AddPbuf(addr: nat, acc: u32, swapped: bool, b: seq<byte>, odd: bool, ghost init: nat, ghost a: seq<byte>)
    returns (acc': u32, swapped': bool)
    requires Holds(acc, swapped, init, a) && swapped == (|a| % 2 == 1) && |b| <= 0x2_0000
    ensures Holds(acc', swapped', init, a + b) && swapped' == (swapped != odd)
  {
    hide Cong;
    var s := StandardChksum2(addr, b);
    AddPiece(acc, swapped, init, a, b);
    FoldCong(acc + s);
    acc', swapped' := Fold(acc + s), swapped;
    CongTrans(acc', acc + s, Turn(swapped, init + WordSum(a + b)));
    if odd {
      TurnOver(acc', swapped, init + WordSum(a + b));
      acc', swapped' := Swap(acc'), !swapped;
    }
  }

  /** The swap after the loops. */
  method Unswap(acc: u32, swapped: bool, ghost init: nat, ghost a: seq<byte>) returns (r: u32)
    requires Holds(acc, swapped, init, a)
    ensures Holds(r, false, init, a)
  {
    r := acc;
    if swapped {
      TurnOver(acc, swapped, init + WordSum(a));
      r := Swap(acc);
    }
  }

  lemma ChainDone(m: Memory, c: seq<nat>, i: nat)
    requires i <= |c| && IsChain(m, NULL, c[i..])
    ensures c[..i] == c
  {
  }

  /** The loop over a whole chain, starting from `acc0`; `place` says where each payload lies. */
  method ChainSum(mem: Memory, p: nat, acc0: u32, place: nat -> nat, ghost c: seq<nat>, ghost init: nat)
    returns (acc: u32)
    requires IsChain(mem, p, c) && AllIn(mem, c) && Holds(acc0, false, init, [])
    ensures Holds(acc, false, init, Flat(mem, c))
  {
    var q, swapped := p, false;
    ghost var i: nat := 0;
    acc := acc0;
    assert c[0..] == c && Flat(mem, c[..0]) == [];
    hide Holds, Flat, IsChain, AllIn;
    while q != NULL
      invariant i <= |c| && IsChain(mem, q, c[i..]) && Holds(acc, swapped, init, Flat(mem, c[..i]))
      invariant swapped == (|Flat(mem, c[..i])| % 2 == 1)
      decreases |c| - i
    {
      ChainStep(mem, q, c[i..]);
      FlatGrow(mem, c, i);
      acc, swapped := AddPbuf(place(q), acc, swapped, mem[q].payload, mem[q].Len() % 2 != 0, init, Flat(mem, c[..i]));
      assert c[i..][1..] == c[i + 1..];
      q, i := mem[q].next, i + 1;
    }
    ChainDone(mem, c, i);
    acc := Unswap(acc, swapped, init, Flat(mem, c));
  }

  /** After i pbufs the bytes `done` have been summed, and up to `rest` bytes of the others are still to be. */
  ghost predicate Summing(mem: Memory, c: seq<nat>, i: nat, q: nat, len: nat, rest: nat, done: seq<byte>) {
    i <= |c| && AllIn(mem, c) && IsChain(mem, q, c[i..])
        && Slice(Flat(mem, c), 0, len) == done + Slice(Flat(mem, c[i..]), 0, rest)
  }

  lemma SummingStart(mem: Memory, p: nat, c: seq<nat>, len: nat)
    requires IsChain(mem, p, c) && AllIn(mem, c)
    ensures Summing(mem, c, 0, p, len, len, [])
  {
    assert c[0..] == c;
  }

  lemma SummingStep(mem: Memory, c: seq<nat>, i: nat, q: nat, len: nat, rest: nat, done: seq<byte>)
    requires Summing(mem, c, i, q, len, rest, done) && q != NULL
    ensures q in mem && i < |c| && mem[q].Len() < 0x1_0000
    ensures var k := if rest < mem[q].Len() then rest else mem[q].Len();
      Summing(mem, c, i + 1, mem[q].next, len, rest - k, done + mem[q].payload[..k])
  {
    ChainStep(mem, q, c[i..]);
    assert c[i..][1..] == c[i + 1..];
    hide IsChain, Flat;
    SliceTake(mem[q].payload, Flat(mem, c[i + 1..]), 0, rest);
  }

  lemma SummingEnd(mem: Memory, c: seq<nat>, i: nat, q: nat, len: nat, rest: nat, done: seq<byte>)
    requires Summing(mem, c, i, q, len, rest, done) && (q == NULL || rest == 0)
    ensures AllIn(mem, c) && done == Slice(Flat(mem, c), 0, len)
  {
  }

  /** What is left of n bytes behind the first pbuf. */
  function BehindFirst(mem: Memory, p: nat, n: nat): nat {
    if p in mem && mem[p].Len() < n then n - mem[p].Len() else 0
  }

  /**
   The loop over the first `chksumLen` bytes of a chain. It tests the parity of the pbuf, not of what it
   adds. `sane` is what the assertions in the loop test.
   */
  method PartialSum(mem: Memory, p: nat, chksumLen: u16, acc0: u32, place: nat -> nat, ghost c: seq<nat>,
          ghost init: nat)
    returns (acc: u32, sane: bool)
    requires IsChain(mem, p, c) && AllIn(mem, c) && Holds(acc0, false, init, [])
    ensures Holds(acc, false, init, Slice(Flat(mem, c), 0, chksumLen))
    ensures sane <==> p == NULL || BehindFirst(mem, p, chksumLen) < 0x7fff
  {
    hide IsChain, AllIn, Flat, Slice, Holds, Summing;
    var q, swapped, rest: nat := p, false, chksumLen;
    ghost var i: nat, done := 0, [];
    acc, sane := acc0, true;
    SummingStart(mem, p, c, chksumLen);
    while q != NULL && 0 < rest
      invariant i <= |c| && Summing(mem, c, i, q, chksumLen, rest, done) && Holds(acc, swapped, init, done)
      invariant 0 < rest ==> swapped == (|done| % 2 == 1)
      invariant i == 0 ==> sane && q == p && rest == chksumLen
      invariant 0 < i ==>
          p != NULL && rest <= BehindFirst(mem, p, chksumLen) && (sane <==> BehindFirst(mem, p, chksumLen) < 0x7fff)
      decreases |c| - i
    {
      SummingStep(mem, c, i, q, chksumLen, rest, done);
      var chklen := if rest < mem[q].Len() then rest else mem[q].Len();
      acc, swapped := AddPbuf(place(q), acc, swapped, mem[q].payload[..chklen], mem[q].Len() % 2 != 0, init, done);
      done := done + mem[q].payload[..chklen];
      rest := rest - chklen;
      sane := sane && rest < 0x7fff;
      q, i := mem[q].next, i + 1;
    }
    SummingEnd(mem, c, i, q, chksumLen, rest, done);
    acc := Unswap(acc, swapped, init, done);
  }

  // ----- pseudo headers

  /** `ip4_addr_get_u32` of an address in network order. */
  function Addr32(a: seq<byte>): u32
    requires |a| == 4
  {
    a[0] + 256 * a[1] as int + 0x1_0000 * (a[2] + 256 * a[3] as int)
  }

  /** The pseudo header of section 3.1 of RFC 793. */
  function PseudoHeader(src: seq<byte>, dest: seq<byte>, proto: byte, protoLen: u16): seq<byte> {
    src + dest + [0, proto, protoLen / 256, protoLen % 256]
  }

  lemma AddrHalves(a: seq<byte>)
    requires |a| == 4
    ensures Addr32(a) % 0x1_0000 == a[0] + 256 * a[1] as int
        && Addr32(a) / 0x1_0000 % 0x1_0000 == a[2] + 256 * a[3] as int
  {
  }

  /** The address part of the sum, folded twice. */
  method AddressSum(src: seq<byte>, dest: seq<byte>) returns (acc: u32)
    requires |src| == 4 && |dest| == 4
    ensures Holds(acc, false, WordSum(src + dest), [])
  {
    hide Cong, WordSum, Fold, Addr32;
    AddrHalves(src);
    AddrHalves(dest);
    var addr := Addr32(src);
    acc := addr % 0x1_0000;
    acc := acc + addr / 0x1_0000 % 0x1_0000;
    addr := Addr32(dest);
    acc := acc + addr % 0x1_0000;
    acc := acc + addr / 0x1_0000 % 0x1_0000;
    AddressWords(src, dest);
    FoldCong(acc);
    FoldCong(Fold(acc));
    CongTrans(Fold(Fold(acc)), Fold(acc), acc);
    acc := Fold(acc);
    acc := Fold(acc);
    NoWords(WordSum(src + dest));
  }

  lemma NoWords(s: nat)
    ensures Turn(false, s + WordSum([])) == s
  {
  }

  lemma AddressWords(src: seq<byte>, dest: seq<byte>)
    requires |src| == 4 && |dest| == 4
    ensures WordSum(src + dest)
        == src[0] + 256 * src[1] as int + src[2] + 256 * src[3] as int + dest[0] + 256 * dest[1] as int + dest[2]
        + 256 * dest[3] as int
  {
    var d := src + dest;
    SumStep(d, 0);
    SumStep(d, 2);
    SumStep(d, 4);
    SumStep(d, 6);
    assert d[0..] == d && d[8..] == [];
  }

  /** The ending of the pseudo header versions: protocol and length, two folds, complement. */
  method FinishPseudo(acc: u32, proto: byte, protoLen: u16, ghost src: seq<byte>, ghost dest: seq<byte>,
          ghost data: seq<byte>) returns (r: u16)
    requires |src| == 4 && |dest| == 4 && Holds(acc, false, WordSum(src + dest), data)
    ensures r == Invert(InternetSum(PseudoHeader(src, dest, proto, protoLen) + data))
  {
    var sum: u32 := acc + 256 * proto as int;
    sum := sum + Swap(protoLen);
    PseudoWords(src, dest, proto, protoLen, data);
    ghost var total := WordSum(PseudoHeader(src, dest, proto, protoLen) + data);
    ghost var fields := 256 * proto as int + Swap(protoLen);
    CongAdd(acc, WordSum(src + dest) + WordSum(data), fields, fields);
    hide Cong, WordSum, Fold, PseudoHeader, Swap;
    CongTrans(sum, WordSum(src + dest) + WordSum(data) + fields, total);
    FoldCong(sum);
    FoldCong(Fold(sum));
    CongTrans(Fold(sum), sum, total);
    CongTrans(Fold(Fold(sum)), Fold(sum), total);
    sum := Fold(sum);
    sum := Fold(sum);
    CongCanon(sum, total);
    r := 0xffff - sum;
  }

  lemma FieldWords(a: byte, b: byte, c: byte, d: byte)
    ensures WordSum([a, b, c, d]) == a + 256 * b as int + c + 256 * d as int
  {
    var f := [a, b, c, d];
    SumStep(f, 0);
    SumStep(f, 2);
    assert f[0..] == f && f[4..] == [];
  }

  lemma PseudoWords(src: seq<byte>, dest: seq<byte>, proto: byte, protoLen: u16, data: seq<byte>)
    requires |src| == 4 && |dest| == 4
    ensures Cong(WordSum(src + dest) + WordSum(data) + (256 * proto as int + Swap(protoLen)),
        WordSum(PseudoHeader(src, dest, proto, protoLen) + data))
  {
    hide Cong, WordSum;
    var f, h := [0, proto, protoLen / 256, protoLen % 256], PseudoHeader(src, dest, proto, protoLen);
    FieldWords(0, proto, protoLen / 256, protoLen % 256);
    assert h == src + dest + f && |src + dest| == 8 && |h| == 12;
    AppendSum(src + dest, f);
    AppendSum(h, data);
    var a, w := WordSum(src + dest) + WordSum(f), WordSum(data);
    CongRefl(w);
    CongSym(WordSum(h), a);
    CongAdd(a, WordSum(h), w, w);
    CongSym(WordSum(h + data), WordSum(h) + w);
    CongTrans(a + w, WordSum(h) + w, WordSum(h + data));
  }

  // ----- the entry points

  /** `inet_chksum`. */
  method InetChksum(addr: nat, data: seq<byte>) returns (r: u16)
    requires |data| < 0x1_0000
    ensures r == Invert(InternetSum(data))
  {
    var s := StandardChksum2(addr, data);
    r := 0xffff - s;
  }

  /** `inet_chksum_pbuf`: however the bytes are cut into pbufs, the checksum is that of the flat bytes. */
  method InetChksumPbuf(mem: Memory, p: nat, place: nat -> nat, ghost c: seq<nat>) returns (r: u16)
    requires IsChain(mem, p, c) && AllIn(mem, c)
    ensures r == Invert(InternetSum(Flat(mem, c)))
  {
    var acc := ChainSum(mem, p, 0, place, c, 0);
    CongCanon(acc, WordSum(Flat(mem, c)));
    r := 0xffff - acc;
  }

  /** `inet_chksum_pseudo`. */
  method InetChksumPseudo(mem: Memory, p: nat, proto: byte, protoLen: u16, src: seq<byte>, dest: seq<byte>,
          place: nat -> nat, ghost c: seq<nat>)
    returns (r: u16)
    requires IsChain(mem, p, c) && AllIn(mem, c) && |src| == 4 && |dest| == 4
    ensures r == Invert(InternetSum(PseudoHeader(src, dest, proto, protoLen) + Flat(mem, c)))
  {
    var acc := AddressSum(src, dest);
    acc := ChainSum(mem, p, acc, place, c, WordSum(src + dest));
    r := FinishPseudo(acc, proto, protoLen, src, dest, Flat(mem, c));
  }

  /**
   `inet_chksum_pseudo_partial`: only the first chksumLen payload
   bytes count. Builds with assertions go on just if `sane`.
   */
  method InetChksumPseudoPartial(mem: Memory, p: nat, proto: byte, protoLen: u16, chksumLen: u16, src: seq<byte>,
          dest: seq<byte>, place: nat -> nat, ghost c: seq<nat>)
    returns (r: u16, sane: bool)
    requires IsChain(mem, p, c) && AllIn(mem, c) && |src| == 4 && |dest| == 4
    ensures r == Invert(InternetSum(PseudoHeader(src, dest, proto, protoLen) + Slice(Flat(mem, c), 0, chksumLen)))
    ensures sane <==> p == NULL || BehindFirst(mem, p, chksumLen) < 0x7fff
  {
    var acc := AddressSum(src, dest);
    acc, sane := PartialSum(mem, p, chksumLen, acc, place, c, WordSum(src + dest));
    r := FinishPseudo(acc, proto, protoLen, src, dest, Slice(Flat(mem, c), 0, chksumLen));
  }
}
