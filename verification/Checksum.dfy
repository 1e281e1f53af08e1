/**
 LwIP/src/core/inet_chksum.c: the Internet checksum (RFC 1071). `u32_t` arithmetic wraps at 2^32 and
 is written out; the host is little-endian.
 */
module Checksum {
  import opened Bytes

  const U32: nat := 0x1_0000_0000

  type u32 = x: int | 0 <= x < 0x1_0000_0000

  // ----- the definition: one's-complement sum of the 16-bit words

  /** Sum of the 16-bit words of d as the host reads them; an odd last byte is padded with zero. */
  function WordSum(d: seq<byte>): nat {
    if d == [] then 0 else if |d| == 1 then d[0] else d[0] + 256 * d[1] as int + WordSum(d[2..])
  }

  /** The 16-bit representative of s modulo 65535; only 0 itself is represented by 0. */
  function Canon(s: nat): u16 {
    if s == 0 then 0 else (s - 1) % 0xffff + 1
  }

  /** The (non-inverted) Internet sum of d. */
  function InternetSum(d: seq<byte>): u16 {
    Canon(WordSum(d))
  }

  /** FOLD_U32T. */
  function Fold(x: u32): u32 {
    x / 0x1_0000 + x % 0x1_0000
  }

  /** SWAP_BYTES_IN_WORD. */
  function Swap(x: u32): u16 {
    x % 256 * 256 + x / 256 % 256
  }

  function Add32(x: u32, y: u32): u32 {
    (x + y) % U32
  }

  // ----- congruence modulo 65535 that also tells 0 from 65535

  ghost predicate Cong(a: nat, b: nat) {
    a % 0xffff == b % 0xffff && (a == 0 <==> b == 0)
  }

  /** The representative is the remainder, except that it says 65535 for multiples other than 0. */
  lemma CanonIs(s: nat)
    ensures Canon(s) == if s == 0 then 0 else if s % 0xffff == 0 then 0xffff else s % 0xffff
  {
    var q, r := s / 0xffff, s % 0xffff;
    if r != 0 {
      ModEq(s - 1, r - 1, q);
    } else if s != 0 {
      ModEq(s - 1, 0xfffe, q - 1);
    }
  }

  lemma CongCanon(a: nat, b: nat)
    requires Cong(a, b)
    ensures Canon(a) == Canon(b)
    ensures a <= 0xffff ==> a == Canon(b)
  {
    hide Canon;
    CanonIs(a);
    CanonIs(b);
  }

  lemma CongRefl(a: nat)
    ensures Cong(a, a)
  {
  }

  lemma CongSym(a: nat, b: nat)
    requires Cong(a, b)
    ensures Cong(b, a)
  {
  }

  lemma CongTrans(a: nat, b: nat, c: nat)
    requires Cong(a, b) && Cong(b, c)
    ensures Cong(a, c)
  {
  }

  lemma ModEq(a: nat, b: nat, k: int)
    requires a == b + 0xffff * k
    ensures a % 0xffff == b % 0xffff
  {
  }

  lemma CongAdd(a: nat, b: nat, c: nat, d: nat)
    requires Cong(a, b) && Cong(c, d)
    ensures Cong(a + c, b + d)
  {
    ModEq(a + c, b + d, a / 0xffff - b / 0xffff + c / 0xffff - d / 0xffff);
  }

  lemma CongScale(a: nat, b: nat)
    requires Cong(a, b)
    ensures Cong(256 * a, 256 * b)
  {
    ModEq(256 * a, 256 * b, 256 * (a / 0xffff - b / 0xffff));
  }

  /** 2^16 is 1 modulo 65535. */
  lemma CongHigh(a: nat, x: nat)
    ensures Cong(x + 0x1_0000 * a, x + a)
  {
  }

  lemma FoldCong(x: u32)
    ensures Cong(Fold(x), x)
    ensures Fold(x) <= 0x1_fffe && Fold(Fold(x)) <= 0xffff
    ensures x <= 0x1_fffe ==> Fold(x) <= 0xffff
  {
    CongHigh(x / 0x1_0000, x % 0x1_0000);
  }

  lemma SwapCong(x: u16)
    ensures Cong(Swap(x), 256 * x)
  {
    hide Cong;
    var h, l := x / 256, x % 256;
    assert Swap(x) == 256 * l + h && 256 * x == 256 * l + 0x1_0000 * h;
    CongHigh(h, 256 * l);
    CongSym(256 * x, Swap(x));
  }

  lemma SwapCanon(x: u16, s: nat)
    requires Cong(x, s)
    ensures Cong(Swap(x), 256 * s)
  {
    SwapCong(x);
    CongScale(x, s);
  }

  /** Prepending a byte moves all others to the other half of their words. */
  lemma {:induction false} ShiftSum(x: byte, d: seq<byte>)
    ensures Cong(WordSum([x] + d), x + 256 * WordSum(d))
    decreases |d|
  {
    if 2 <= |d| {
      assert ([x] + d)[2..] == [d[1]] + d[2..];
      ShiftSum(d[1], d[2..]);
      var u, w := x + 256 * d[0] as int, WordSum(d[2..]);
      CongAdd(u, u, WordSum([d[1]] + d[2..]), d[1] + 256 * w);
      CongHigh(d[1], u + 256 * w);
    }
  }

  /** The sum of a concatenation, by the parity of the first part. */
  lemma {:induction false} AppendSum(a: seq<byte>, b: seq<byte>)
    ensures Cong(WordSum(a + b), WordSum(a) + (if |a| % 2 == 0 then WordSum(b) else 256 * WordSum(b)))
    decreases |a|
  {
    hide Cong;
    if a == [] {
      assert a + b == b;
      CongRefl(WordSum(b));
    } else if |a| == 1 {
      assert a == [a[0]];
      ShiftSum(a[0], b);
    } else {
      assert (a + b)[2..] == a[2..] + b;
      AppendSum(a[2..], b);
      var u := a[0] + 256 * a[1] as int;
      CongRefl(u);
      CongAdd(u, u, WordSum(a[2..] + b), WordSum(a[2..]) + (if |a| % 2 == 0 then WordSum(b) else 256 * WordSum(b)));
    }
  }

  // ----- version 1: network-order words

  /** Sum of the words read most significant byte first. */
  function BigSum(d: seq<byte>): nat {
    if d == [] then 0 else if |d| == 1 then 256 * d[0] as int else 256 * d[0] as int + d[1] + BigSum(d[2..])
  }

  /** Byte order only swaps the result (section 2 (B) of RFC 1071). */
  lemma {:induction false} BigIsSwapped(d: seq<byte>)
    ensures Cong(BigSum(d), 256 * WordSum(d))
    decreases |d|
  {
    if 2 <= |d| {
      BigIsSwapped(d[2..]);
      var u := 256 * d[0] as int;
      CongAdd(u + d[1], u + d[1], BigSum(d[2..]), 256 * WordSum(d[2..]));
      CongHigh(d[1], u + 256 * WordSum(d[2..]));
    }
  }

  lemma {:induction false} SumBound(d: seq<byte>)
    ensures BigSum(d) <= 0xffff * ((|d| + 1) / 2) && WordSum(d) <= 0xffff * ((|d| + 1) / 2)
    decreases |d|
  {
    if 2 <= |d| {
      SumBound(d[2..]);
    }
  }

  lemma SumStep(d: seq<byte>, i: nat)
    requires i + 1 < |d|
    ensures WordSum(d[i..]) == d[i] + 256 * d[i + 1] as int + WordSum(d[i + 2..])
    ensures BigSum(d[i..]) == 256 * d[i] as int + d[i + 1] + BigSum(d[i + 2..])
  {
    assert d[i..][2..] == d[i + 2..];
  }

  /** `lwip_standard_chksum`, version 1. */
  method StandardChksum1(d: seq<byte>) returns (r: u16)
    requires |d| <= 0x2_0000
    ensures r == InternetSum(d)
  {
    var acc: u32, i := 0, 0;
    assert BigSum(d) < U32 by {
      SumBound(d);
    }
    while 1 < |d| - i
      invariant i <= |d| && acc + BigSum(d[i..]) == BigSum(d)
    {
      SumStep(d, i);
      acc := Add32(acc, 256 * d[i] as int + d[i + 1]);
      i := i + 2;
    }
    if 0 < |d| - i {
      acc := Add32(acc, 256 * d[i] as int);
    }
    assert acc == BigSum(d);
    r := FinishBig(d, acc);
  }

  /** The ending of version 1: fold the carries in and reorder to host order. */
  method FinishBig(d: seq<byte>, total: u32) returns (r: u16)
    requires total == BigSum(d)
    ensures r == InternetSum(d)
  {
    hide Cong, Canon, WordSum, BigSum, Fold, Swap;
    ghost var w := WordSum(d);
    var acc := Fold(total);
    FoldCong(total);
    if 0xffff < acc {
      FoldCong(acc);
      CongTrans(Fold(acc), acc, total);
      acc := Fold(acc);
    }
    BigIsSwapped(d);
    CongTrans(acc, total, 256 * w);
    SwapCanon(acc, 256 * w);
    CongHigh(w, 0);
    CongTrans(Swap(acc), 0x1_0000 * w, w);
    r := Swap(acc);
    CongCanon(r, w);
  }

  // ----- version 2: aligned host-order words

  /** What both fast versions do with the accumulated sum of the bytes behind an odd start. */
  lemma OddStart(d: seq<byte>, s: u16)
    requires d != [] && Cong(s, 256 * d[0] as int + WordSum(d[1..]))
    ensures Swap(s) == InternetSum(d)
  {
    var w := WordSum(d[1..]);
    SwapCanon(s, 256 * d[0] as int + w);
    CongHigh(d[0], 256 * w);
    assert [d[0]] + d[1..] == d;
    ShiftSum(d[0], d[1..]);
    CongCanon(Swap(s), WordSum(d));
  }

  /** The word loop and odd last byte of versions 2 and 3, on top of `base`; t1 is the byte of an odd start. */
  method AddWords(base: u32, d: seq<byte>, from: nat, t1: byte) returns (sum: u32)
    requires from <= |d| && base + WordSum(d[from..]) + 256 * t1 as int < U32
    ensures sum == base + WordSum(d[from..]) + 256 * t1 as int
  {
    var i, t0: byte := from, 0;
    sum := base;
    while 1 < |d| - i
      invariant from <= i <= |d| && sum + WordSum(d[i..]) == base + WordSum(d[from..])
    {
      SumStep(d, i);
      sum := Add32(sum, d[i] + 256 * d[i + 1] as int);
      i := i + 2;
    }
    if 0 < |d| - i {
      t0 := d[i];
    }
    sum := Add32(sum, t0 + 256 * t1 as int);
  }

  /** `lwip_standard_chksum`, version 2, for data at address addr; the sum cannot overflow up to length 0x20000. */
  method StandardChksum2(addr: nat, d: seq<byte>) returns (r: u16)
    requires |d| <= 0x2_0000
    ensures r == InternetSum(d)
  {
    var i, t1: byte := 0, 0;
    var odd := addr % 2 == 1;
    if odd && 0 < |d| {
      t1 := d[0];
      i := 1;
    }
    SumBound(d[i..]);
    var sum := AddWords(0, d, i, t1);
    CongRefl(sum);
    r := FinishChksum(odd, d, sum);
  }

  /** The common ending of versions 2 and 3. */
  method FinishChksum(odd: bool, d: seq<byte>, total: u32) returns (r: u16)
    requires Cong(total, if odd && d != [] then 256 * d[0] as int + WordSum(d[1..]) else WordSum(d))
    ensures r == InternetSum(d)
  {
    var sum := Fold(total);
    sum := Fold(sum);
    FoldCong(total);
    FoldCong(Fold(total));
    if odd {
      if d != [] {
        OddStart(d, sum);
      }
      sum := Swap(sum);
    } else {
      CongCanon(sum, WordSum(d));
    }
    r := sum;
  }

  // ----- version 3: eight bytes at a time with end-around carry

  /** The 32-bit load `*pl`. */
  function Load32(d: seq<byte>, i: nat): u32
    requires i + 4 <= |d|
  {
    d[i] + 256 * d[i + 1] as int + 0x1_0000 * (d[i + 2] + 256 * d[i + 3] as int)
  }

  lemma Load32Sum(d: seq<byte>, i: nat)
    requires i + 4 <= |d|
    ensures Cong(Load32(d, i) + WordSum(d[i + 4..]), WordSum(d[i..]))
  {
    SumStep(d, i);
    SumStep(d, i + 2);
    CongHigh(d[i + 2] + 256 * d[i + 3] as int, d[i] + 256 * d[i + 1] as int + WordSum(d[i + 4..]));
  }

  /** Addition with the carry brought back around. */
  method AddCarry(sum: u32, x: u32) returns (tmp: u32)
    ensures Cong(tmp, sum + x)
  {
    tmp := Add32(sum, x);
    if tmp < sum {
      tmp := tmp + 1;
    }
    if U32 <= sum + x {
      ModEq(tmp, sum + x, -0x1_0001);
    }
  }

  /** One load of the inner loop moves four bytes from the rest into the sum. */
  method AddLoad(sum: u32, d: seq<byte>, i: nat, ghost total: nat) returns (tmp: u32)
    requires i + 4 <= |d| && Cong(sum + WordSum(d[i..]), total)
    ensures Cong(tmp + WordSum(d[i + 4..]), total)
  {
    tmp := AddCarry(sum, Load32(d, i));
    CongAdd(tmp, sum + Load32(d, i), WordSum(d[i + 4..]), WordSum(d[i + 4..]));
    Load32Sum(d, i);
    CongAdd(sum, sum, Load32(d, i) + WordSum(d[i + 4..]), WordSum(d[i..]));
  }

  /** The tail of version 3: fold to make room, then at most seven bytes. */
  method AddTail(sum: u32, d: seq<byte>, i: nat, t1: byte, ghost total: nat) returns (s: u32)
    requires i <= |d| <= i + 7 && Cong(sum + WordSum(d[i..]), total)
    ensures Cong(s, total + 256 * t1 as int)
  {
    var folded := Fold(sum);
    FoldCong(sum);
    CongAdd(folded, sum, WordSum(d[i..]), WordSum(d[i..]));
    CongAdd(folded + WordSum(d[i..]), total, 256 * t1 as int, 256 * t1 as int);
    hide Cong, Fold;
    SumBound(d[i..]);
    s := AddWords(folded, d, i, t1);
  }

  /** `lwip_standard_chksum`, version 3, for data of any length at address addr. */
  method StandardChksum3(addr: nat, d: seq<byte>) returns (r: u16)
    ensures r == InternetSum(d)
  {
    var i, sum: u32, t1: byte := 0, 0, 0;
    var odd := addr % 2 == 1;
    if odd && 0 < |d| {
      t1 := d[0];
      i := 1;
    }
    ghost var total := WordSum(d[i..]);
    assert total + 256 * t1 as int == if odd && d != [] then 256 * d[0] as int + WordSum(d[1..]) else WordSum(d);
    hide Cong, InternetSum, Fold;
    CongRefl(total);
    if (addr + i) % 4 != 0 && 1 < |d| - i {
      SumStep(d, i);
      sum := d[i] + 256 * d[i + 1] as int;
      i := i + 2;
    }
    while 7 < |d| - i
      invariant i <= |d| && Cong(sum + WordSum(d[i..]), total)
    {
      sum := AddLoad(sum, d, i, total);
      sum := AddLoad(sum, d, i + 4, total);
      i := i + 8;
    }
    sum := AddTail(sum, d, i, t1, total);
    r := FinishChksum(odd, d, sum);
  }

  /** All versions compute the same value wherever the data lies, within the length bound of the first two. */
  method AllVersionsAgree(addr2: nat, addr3: nat, d: seq<byte>) returns (r1: u16, r2: u16, r3: u16)
    requires |d| <= 0x2_0000
    ensures r1 == r2 == r3
  {
    r1 := StandardChksum1(d);
    r2 := StandardChksum2(addr2, d);
    r3 := StandardChksum3(addr3, d);
  }

  // ----- inet_chksum

  /** Complement to be stored in the protocol header. */
  function Invert(s: u16): u16 {
    0xffff - s
  }

  lemma {:induction false} ZeroSum(d: seq<byte>)
    ensures InternetSum(d) == 0 <==> forall i :: 0 <= i < |d| ==> d[i] == 0
    decreases |d|
  {
    if 2 <= |d| {
      ZeroSum(d[2..]);
      assert forall i :: 0 <= i < |d| - 2 ==> d[2..][i] == d[i + 2];
      assert forall i :: 2 <= i < |d| ==> d[i] == d[2..][i - 2];
    }
  }
}
