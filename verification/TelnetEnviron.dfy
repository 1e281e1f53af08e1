/**
 TcpShell/libtelnet.c: the payload of ENVIRON and NEW-ENVIRON sub-negotiations (section 2 of RFC 1572),
 its decoding, and the decoder that writes the strings back into the buffer it reads from.
 */
module TelnetEnviron {
  import opened Bytes

  const IS: byte := 0
  const SEND: byte := 1
  const INFO: byte := 2

  const VAR: byte := 0
  const VALUE: byte := 1
  const ESC: byte := 2
  const USERVAR: byte := 3

  /** `struct telnet_environ_t`; the strings are what their readers see, up to the first NUL. */
  datatype Var = Var(kind: byte, name: seq<byte>, value: seq<byte>)

  datatype Outcome = Empty | BadCommand | MissingType | EndsWithEsc | Vars(cmd: byte, vars: seq<Var>)

  // ----- the decoding

  predicate Starts(b: byte) {
    b == VAR || b == USERVAR
  }

  predicate Stops(b: byte, inName: bool) {
    Starts(b) || (inName && b == VALUE)
  }

  /** No escape without a byte to escape. */
  predicate NoEscAtEnd(p: seq<byte>) {
    p != [] ==> p[|p| - 1] != ESC
  }

  /** Where the next byte of a string is, behind an escape if there is one. */
  function Next(p: seq<byte>, i: nat): (j: nat)
    requires i < |p| && NoEscAtEnd(p)
    ensures i < j <= |p|
  {
    if p[i] == ESC then i + 2 else i + 1
  }

  /** The end of the string that starts at i. */
  function ScanEnd(p: seq<byte>, i: nat, inName: bool): (j: nat)
    requires i <= |p| && NoEscAtEnd(p)
    ensures i <= j <= |p| && (j < |p| ==> Stops(p[j], inName))
    decreases |p| - i
  {
    if i == |p| || Stops(p[i], inName) then i else ScanEnd(p, Next(p, i), inName)
  }

  /** Its bytes with the escapes resolved. */
  function Scan(p: seq<byte>, i: nat, inName: bool): seq<byte>
    requires i <= |p| && NoEscAtEnd(p)
    decreases |p| - i
  {
    if i == |p| || Stops(p[i], inName) then [] else [p[Next(p, i) - 1]] + Scan(p, Next(p, i), inName)
  }

  /** The C string at the start of s. */
  function CString(s: seq<byte>): seq<byte> {
    if s == [] || s[0] == 0 then [] else [s[0]] + CString(s[1..])
  }

  /** The end of the name of the entry at i, and whether a value follows there. */
  function NameEnd(p: seq<byte>, i: nat): (j: nat)
    requires i < |p| && NoEscAtEnd(p)
    ensures i < j <= |p| && (j < |p| ==> Stops(p[j], true))
  {
    ScanEnd(p, i + 1, true)
  }

  predicate HasValue(p: seq<byte>, i: nat)
    requires i < |p| && NoEscAtEnd(p)
  {
    NameEnd(p, i) < |p| && p[NameEnd(p, i)] == VALUE
  }

  function EntryEnd(p: seq<byte>, i: nat): (j: nat)
    requires i < |p| && NoEscAtEnd(p)
    ensures i < j <= |p| && (j < |p| ==> Starts(p[j]))
  {
    if HasValue(p, i) then ScanEnd(p, NameEnd(p, i) + 1, false) else NameEnd(p, i)
  }

  function EntryAt(p: seq<byte>, i: nat): Var
    requires i < |p| && NoEscAtEnd(p)
  {
    Var(p[i], CString(Scan(p, i + 1, true)), if HasValue(p, i) then CString(Scan(p, NameEnd(p, i) + 1, false)) else [])
  }

  /** The entries from i on, where one starts. */
  function Entries(p: seq<byte>, i: nat): seq<Var>
    requires i <= |p| && NoEscAtEnd(p)
    decreases |p| - i
  {
    if i == |p| then [] else [EntryAt(p, i)] + Entries(p, EntryEnd(p, i))
  }

  function Decoded(p: seq<byte>): Outcome {
    if p == [] then Empty
    else if p[0] != SEND && p[0] != IS && p[0] != INFO then BadCommand
    else if |p| == 1 then Vars(p[0], [])
    else if !Starts(p[1]) then MissingType
    else if !NoEscAtEnd(p) then EndsWithEsc
    else Vars(p[0], Entries(p, 1))
  }

  // ----- the counting pass

  /** Number of unescaped entry starts from i on. */
  function Count(p: seq<byte>, i: nat): nat
    decreases |p| - i
  {
    if |p| <= i then 0 else if Starts(p[i]) then 1 + Count(p, i + 1) else if p[i] == ESC then Count(p, i + 2)
        else Count(p, i + 1)
  }

  lemma {:induction false} CountSkips(p: seq<byte>, i: nat, inName: bool)
    requires i <= |p| && NoEscAtEnd(p)
    ensures Count(p, i) == Count(p, ScanEnd(p, i, inName))
    decreases |p| - i
  {
    if i < |p| && !Stops(p[i], inName) {
      CountSkips(p, Next(p, i), inName);
    }
  }

  lemma CountSkipsEntry(p: seq<byte>, i: nat)
    requires i < |p| && NoEscAtEnd(p) && Starts(p[i])
    ensures Count(p, i) == 1 + Count(p, EntryEnd(p, i))
  {
    hide ScanEnd;
    CountSkips(p, i + 1, true);
    if HasValue(p, i) {
      CountSkips(p, NameEnd(p, i) + 1, false);
    }
  }

  /** The counting pass and the parsing pass see the same entries. */
  lemma {:induction false} CountsEntries(p: seq<byte>, i: nat)
    requires i <= |p| && NoEscAtEnd(p) && (i < |p| ==> Starts(p[i]))
    ensures Count(p, i) == |Entries(p, i)|
    decreases |p| - i
  {
    if i < |p| {
      hide EntryEnd, EntryAt;
      CountSkipsEntry(p, i);
      CountsEntries(p, EntryEnd(p, i));
    }
  }

  method CountEntries(buffer: array<byte>, size: nat) returns (count: nat)
    requires 0 < size <= buffer.Length
    ensures count == Count(buffer[..size], 1)
  {
    ghost var p := buffer[..size];
    var c := 1;
    count := 0;
    while c < size
      invariant 1 <= c && count + Count(p, c) == Count(p, 1)
    {
      if buffer[c] == VAR || buffer[c] == USERVAR {
        count := count + 1;
      } else if buffer[c] == ESC {
        c := c + 1;
      }
      c := c + 1;
    }
  }

  // ----- strings written back into the buffer

  /** A string of b starts at o and is terminated. */
  ghost predicate Terminated(b: seq<byte>, o: nat) {
    exists k :: o <= k < |b| && b[k] == 0
  }

  lemma {:induction false} CStringGrow(s: seq<byte>, t: seq<byte>)
    requires 0 in s
    ensures CString(s + t) == CString(s)
    decreases |s|
  {
    if s[0] != 0 {
      assert s == [s[0]] + s[1..] && (s + t)[1..] == s[1..] + t;
      CStringGrow(s[1..], t);
    }
  }

  /** The string at o is not changed by what is written behind its terminator. */
  lemma StringKept(b: seq<byte>, b': seq<byte>, o: nat)
    requires Terminated(b, o) && b <= b'
    ensures o <= |b| && Terminated(b', o) && CString(b'[o..]) == CString(b[o..])
  {
    var k :| o <= k < |b| && b[k] == 0;
    assert b[o..][k - o] == 0 && b'[k] == 0;
    assert b'[o..] == b[o..] + b'[|b|..];
    CStringGrow(b[o..], b'[|b|..]);
  }

  lemma {:induction false} CStringPlain(s: seq<byte>)
    ensures CString(s + [0]) == CString(s)
    decreases |s|
  {
    if s != [] {
      assert (s + [0])[1..] == s[1..] + [0];
      CStringPlain(s[1..]);
    } else {
      assert s + [0] == [0];
    }
  }

  /** An element of the argument array: offsets of its strings; no value means the empty string. */
  datatype Slot = Slot(kind: byte, name: nat, value: Option<nat>)

  ghost predicate SlotIs(b: seq<byte>, s: Slot, v: Var) {
    && s.kind == v.kind && Terminated(b, s.name) && s.name <= |b| && CString(b[s.name..]) == v.name
    && (s.value.None? ==> v.value == [])
    && (s.value.Some? ==>
        Terminated(b, s.value.value) && s.value.value <= |b| && CString(b[s.value.value..]) == v.value)
  }

  ghost predicate SlotsAre(b: seq<byte>, slots: seq<Slot>, vars: seq<Var>) {
    |slots| == |vars| && forall j :: 0 <= j < |slots| ==> SlotIs(b, slots[j], vars[j])
  }

  lemma SlotsKept(b: seq<byte>, b': seq<byte>, slots: seq<Slot>, vars: seq<Var>)
    requires SlotsAre(b, slots, vars) && b <= b'
    ensures SlotsAre(b', slots, vars)
  {
    forall j | 0 <= j < |slots| ensures SlotIs(b', slots[j], vars[j]) {
      assert SlotIs(b, slots[j], vars[j]);
      StringKept(b, b', slots[j].name);
      if slots[j].value.Some? {
        StringKept(b, b', slots[j].value.value);
      }
    }
  }

  /** In the middle of a copy: b0 is the buffer at its start, p the payload as it arrived. */
  ghost predicate Copying(b0: seq<byte>, b: seq<byte>, p: seq<byte>, c0: nat, out0: nat, inName: bool, c: nat,
          out: nat) {
    && |p| <= |b| == |b0| && NoEscAtEnd(p) && c0 <= c <= |p| && out0 <= out && out + 2 <= c
    && b[c..|p|] == p[c..] && b[..out0] == b0[..out0] && b[|p|..] == b0[|p|..]
    && ScanEnd(p, c, inName) == ScanEnd(p, c0, inName) && b[out0..out] + Scan(p, c, inName) == Scan(p, c0, inName)
  }

  lemma CopyingAt(b0: seq<byte>, b: seq<byte>, p: seq<byte>, c0: nat, out0: nat, inName: bool, c: nat, out: nat)
    requires Copying(b0, b, p, c0, out0, inName, c, out) && c < |p|
    ensures b[c] == p[c] && b[Next(p, c) - 1] == p[Next(p, c) - 1]
  {
    assert b[c] == b[c..|p|][0];
    assert b[Next(p, c) - 1] == b[c..|p|][Next(p, c) - 1 - c];
  }

  lemma CopyingStep(b0: seq<byte>, b: seq<byte>, p: seq<byte>, c0: nat, out0: nat, inName: bool, c: nat, out: nat)
    requires Copying(b0, b, p, c0, out0, inName, c, out) && c < |p| && !Stops(p[c], inName)
    ensures Copying(b0, b[out := b[Next(p, c) - 1]], p, c0, out0, inName, Next(p, c), out + 1)
  {
    CopyingAt(b0, b, p, c0, out0, inName, c, out);
    var n := Next(p, c);
    var b' := b[out := b[n - 1]];
    assert b'[out0..out + 1] == b[out0..out] + [p[n - 1]];
    assert b'[n..|p|] == b[c..|p|][n - c..] && p[n..] == p[c..][n - c..];
    assert b'[out0..out + 1] + Scan(p, n, inName) == b[out0..out] + Scan(p, c, inName);
    assert b'[..out0] == b[..out0] && b'[|p|..] == b[|p|..];
  }

  /** The copy of a whole string with its terminator. */
  ghost predicate Copied(b0: seq<byte>, b: seq<byte>, p: seq<byte>, c0: nat, out0: nat, inName: bool, c: nat,
          out: nat) {
    && |p| <= |b| == |b0| && NoEscAtEnd(p) && c0 <= c <= |p| && out0 < out < c
    && b[c..|p|] == p[c..] && b[..out0] == b0[..out0] && b[|p|..] == b0[|p|..]
    && c == ScanEnd(p, c0, inName) && b[out0..out] == Scan(p, c0, inName) + [0]
  }

  lemma CopyingEnd(b0: seq<byte>, b: seq<byte>, p: seq<byte>, c0: nat, out0: nat, inName: bool, c: nat, out: nat)
    requires Copying(b0, b, p, c0, out0, inName, c, out) && (c < |p| ==> Stops(p[c], inName))
    ensures Copied(b0, b[out := 0], p, c0, out0, inName, c, out + 1)
  {
    var b' := b[out := 0];
    assert b'[out0..out + 1] == b[out0..out] + [0] && b[out0..out] == Scan(p, c0, inName);
    assert b'[c..|p|] == b[c..|p|] && b'[..out0] == b[..out0] && b'[|p|..] == b[|p|..];
  }

  /** Moves one byte, without its escape. */
  method CopyByte(buffer: array<byte>, c: nat, out: nat, size: nat, ghost b0: seq<byte>, ghost p: seq<byte>,
          ghost c0: nat, ghost out0: nat, ghost inName: bool)
    returns (c': nat)
    requires |p| == size <= buffer.Length && out < c < size && Copying(b0, buffer[..], p, c0, out0, inName, c, out)
        && !Stops(p[c], inName)
    modifies buffer
    ensures c < c' <= size && Copying(b0, buffer[..], p, c0, out0, inName, c', out + 1)
  {
    hide Copying;
    CopyingGap(b0, buffer[..], p, c0, out0, inName, c, out);
    CopyingAt(b0, buffer[..], p, c0, out0, inName, c, out);
    CopyingStep(b0, buffer[..], p, c0, out0, inName, c, out);
    ghost var b, n := buffer[..], Next(p, c);
    c' := c;
    if buffer[c'] == ESC {
      c' := c' + 1;
    }
    buffer[out] := buffer[c'];
    c' := c' + 1;
    assert buffer[..] == b[out := b[n - 1]];
  }

  /**
   Copies the string at c0 to out0, unescaped and terminated. What is written ends before what is
   still to be read.
   */
  method CopyString(buffer: array<byte>, c0: nat, out0: nat, inName: bool, size: nat, ghost p: seq<byte>)
    returns (c: nat, out: nat)
    requires |p| == size <= buffer.Length && NoEscAtEnd(p) && out0 + 2 <= c0 <= size && buffer[..][c0..size] == p[c0..]
    modifies buffer
    ensures Copied(old(buffer[..]), buffer[..], p, c0, out0, inName, c, out)
  {
    hide Copying, Copied;
    ghost var b0 := buffer[..];
    c, out := c0, out0;
    CopyingStart(b0, p, c0, out0, inName);
    while c < size && !(buffer[c] == VAR || (inName && buffer[c] == VALUE) || buffer[c] == USERVAR)
      invariant out < c <= size && Copying(b0, buffer[..], p, c0, out0, inName, c, out)
      decreases size - c
    {
      CopyingAt(b0, buffer[..], p, c0, out0, inName, c, out);
      c := CopyByte(buffer, c, out, size, b0, p, c0, out0, inName);
      out := out + 1;
      CopyingGap(b0, buffer[..], p, c0, out0, inName, c, out);
    }
    if c < size {
      CopyingAt(b0, buffer[..], p, c0, out0, inName, c, out);
    }
    CopyingEnd(b0, buffer[..], p, c0, out0, inName, c, out);
    Put(buffer, out, 0);
    out := out + 1;
  }

  method Put(buffer: array<byte>, i: nat, x: byte)
    requires i < buffer.Length
    modifies buffer
    ensures buffer[..] == old(buffer[..])[i := x]
  {
    buffer[i] := x;
  }

  lemma CopyingGap(b0: seq<byte>, b: seq<byte>, p: seq<byte>, c0: nat, out0: nat, inName: bool, c: nat, out: nat)
    requires Copying(b0, b, p, c0, out0, inName, c, out)
    ensures out + 2 <= c <= |p| <= |b|
  {
  }

  lemma CopyingStart(b: seq<byte>, p: seq<byte>, c: nat, out: nat, inName: bool)
    requires |p| <= |b| && NoEscAtEnd(p) && out + 2 <= c <= |p| && b[c..|p|] == p[c..]
    ensures Copying(b, b, p, c, out, inName, c, out)
  {
  }

  /** A copied string reads as the C string of what was decoded. */
  lemma CopiedString(b0: seq<byte>, b: seq<byte>, p: seq<byte>, c0: nat, out0: nat, inName: bool, c: nat, out: nat)
    requires Copied(b0, b, p, c0, out0, inName, c, out)
    ensures Terminated(b[..out], out0) && CString(b[..out][out0..]) == CString(Scan(p, c0, inName))
  {
    var t := Scan(p, c0, inName);
    assert b[..out][out0..] == b[out0..out] == t + [0];
    assert b[..out][out - 1] == (t + [0])[|t|];
    CStringPlain(t);
  }

  /** An entry is parsed: its strings lie between out0 and out. */
  ghost predicate Parsed(b0: seq<byte>, b: seq<byte>, p: seq<byte>, c0: nat, out0: nat, slot: Slot, c: nat, out: nat) {
    && |p| <= |b| == |b0| && NoEscAtEnd(p) && c0 < c <= |p| && out0 < out < c
    && b[c..|p|] == p[c..] && b[..out0] == b0[..out0] && b[|p|..] == b0[|p|..]
    && c == EntryEnd(p, c0) && SlotIs(b[..out], slot, EntryAt(p, c0))
  }

  lemma ParsedName(b0: seq<byte>, b: seq<byte>, p: seq<byte>, c0: nat, out0: nat, c: nat, out: nat)
    requires c0 < |p| && Copied(b0, b, p, c0 + 1, out0, true, c, out) && !(c < |p| && p[c] == VALUE)
    ensures Parsed(b0, b, p, c0, out0, Slot(p[c0], out0, None), c, out)
  {
    CopiedString(b0, b, p, c0 + 1, out0, true, c, out);
  }

  lemma CopiedKeeps(b0: seq<byte>, b: seq<byte>, p: seq<byte>, c0: nat, out0: nat, inName: bool, c: nat, out: nat)
    requires Copied(b0, b, p, c0, out0, inName, c, out)
    ensures out0 < out < c <= |p| <= |b| == |b0| && b0[..out0] <= b[..out] && b[|p|..] == b0[|p|..]
    ensures NoEscAtEnd(p) && b[c..|p|] == p[c..] && c == ScanEnd(p, c0, inName) && c0 <= c
    ensures forall k: nat :: k <= out0 ==> b[..k] == b0[..k]
  {
    hide ScanEnd, Scan;
    forall k: nat | k <= out0 ensures b[..k] == b0[..k] {
      assert b[..k] == b[..out0][..k] && b0[..k] == b0[..out0][..k];
    }
  }

  lemma ValueSlot(b0: seq<byte>, b1: seq<byte>, b2: seq<byte>, p: seq<byte>, c0: nat, out0: nat, c1: nat, out1: nat,
          c2: nat, out2: nat)
    requires c0 < |p| && Copied(b0, b1, p, c0 + 1, out0, true, c1, out1) && c1 < |p| && p[c1] == VALUE
    requires Copied(b1, b2, p, c1 + 1, out1, false, c2, out2)
    ensures out2 <= |b2| && SlotIs(b2[..out2], Slot(p[c0], out0, Some(out1)), EntryAt(p, c0))
  {
    hide Copied, Scan, ScanEnd, CString, Terminated;
    CopiedKeeps(b0, b1, p, c0 + 1, out0, true, c1, out1);
    CopiedKeeps(b1, b2, p, c1 + 1, out1, false, c2, out2);
    CopiedString(b0, b1, p, c0 + 1, out0, true, c1, out1);
    CopiedString(b1, b2, p, c1 + 1, out1, false, c2, out2);
    StringKept(b1[..out1], b2[..out2], out0);
  }

  lemma ParsedValue(b0: seq<byte>, b1: seq<byte>, b2: seq<byte>, p: seq<byte>, c0: nat, out0: nat, c1: nat, out1: nat,
          c2: nat, out2: nat)
    requires c0 < |p| && Copied(b0, b1, p, c0 + 1, out0, true, c1, out1) && c1 < |p| && p[c1] == VALUE
    requires Copied(b1, b2, p, c1 + 1, out1, false, c2, out2)
    ensures Parsed(b0, b2, p, c0, out0, Slot(p[c0], out0, Some(out1)), c2, out2)
  {
    hide Copied, SlotIs, Scan, ScanEnd, CString;
    CopiedKeeps(b0, b1, p, c0 + 1, out0, true, c1, out1);
    CopiedKeeps(b1, b2, p, c1 + 1, out1, false, c2, out2);
    ValueSlot(b0, b1, b2, p, c0, out0, c1, out1, c2, out2);
  }

  /** Parses the entry at c0. */
  method ParseEntry(buffer: array<byte>, c0: nat, out0: nat, size: nat, ghost p: seq<byte>)
    returns (slot: Slot, c: nat, out: nat)
    requires |p| == size <= buffer.Length && NoEscAtEnd(p) && out0 < c0 < size && buffer[..][c0..size] == p[c0..]
    modifies buffer
    ensures Parsed(old(buffer[..]), buffer[..], p, c0, out0, slot, c, out)
  {
    ghost var b0 := buffer[..];
    TailOf(b0, p, c0);
    hide Copied, Parsed;
    slot := Slot(buffer[c0], out0, None);
    c, out := CopyString(buffer, c0 + 1, out0, true, size, p);
    ghost var b1, c1, out1 := buffer[..], c, out;
    CopiedAt(b0, b1, p, c0 + 1, out0, true, c, out);
    if c < size && buffer[c] == VALUE {
      TailOf(b1, p, c);
      var last := out;
      c, out := CopyString(buffer, c + 1, out, false, size, p);
      slot := slot.(value := Some(last));
      ParsedValue(b0, b1, buffer[..], p, c0, out0, c1, out1, c, out);
    } else {
      ParsedName(b0, b1, p, c0, out0, c, out);
    }
  }

  lemma CopiedAt(b0: seq<byte>, b: seq<byte>, p: seq<byte>, c0: nat, out0: nat, inName: bool, c: nat, out: nat)
    requires Copied(b0, b, p, c0, out0, inName, c, out)
    ensures c <= |p| <= |b| && out < c && b[c..|p|] == p[c..] && (c < |p| ==> b[c] == p[c])
  {
    assert c < |p| ==> b[c..|p|][0] == b[c] && p[c..][0] == p[c];
  }

  lemma TailOf(b: seq<byte>, p: seq<byte>, c: nat)
    requires c < |p| <= |b| && b[c..|p|] == p[c..]
    ensures b[c] == p[c] && b[c + 1..|p|] == p[c + 1..]
  {
    assert b[c..|p|][0] == p[c..][0];
    assert b[c..|p|][1..] == b[c + 1..|p|] && p[c..][1..] == p[c + 1..];
  }

  /** What the event handler finds behind the pointers of an argument. */
  function Read(b: seq<byte>, s: Slot): Var
    requires s.name <= |b| && (s.value.Some? ==> s.value.value <= |b|)
  {
    Var(s.kind, CString(b[s.name..]), if s.value.Some? then CString(b[s.value.value..]) else [])
  }

  function ReadAll(b: seq<byte>, slots: seq<Slot>): seq<Var>
    requires forall j :: 0 <= j < |slots| ==>
        slots[j].name <= |b| && (slots[j].value.Some? ==> slots[j].value.value <= |b|)
  {
    seq(|slots|, j requires 0 <= j < |slots| => Read(b, slots[j]))
  }

  lemma ReadSlots(b: seq<byte>, out: nat, slots: seq<Slot>, vars: seq<Var>)
    requires out <= |b| && SlotsAre(b[..out], slots, vars)
    ensures forall j :: 0 <= j < |slots| ==>
        slots[j].name <= |b| && (slots[j].value.Some? ==> slots[j].value.value <= |b|)
    ensures ReadAll(b, slots) == vars
  {
    SlotsKept(b[..out], b, slots, vars);
    forall j | 0 <= j < |slots| ensures slots[j].name <= |b| && (slots[j].value.Some? ==> slots[j].value.value <= |b|)
        && Read(b, slots[j]) == vars[j] {
      assert SlotIs(b, slots[j], vars[j]);
    }
  }

  /** Between entries: `vars` are decoded into the slots, the rest of the payload is as it arrived. */
  ghost predicate Parsing(b0: seq<byte>, b: seq<byte>, p: seq<byte>, slots: seq<Slot>, vars: seq<Var>, c: nat,
          out: nat) {
    && |p| <= |b| == |b0| && NoEscAtEnd(p) && 0 < c <= |p| && out < c && b[c..|p|] == p[c..] && b[|p|..] == b0[|p|..]
    && (c < |p| ==> Starts(p[c])) && vars + Entries(p, c) == Entries(p, 1) && SlotsAre(b[..out], slots, vars)
  }

  lemma ParsingStart(b: seq<byte>, p: seq<byte>)
    requires |p| <= |b| && b[..|p|] == p && NoEscAtEnd(p) && 1 < |p| && Starts(p[1])
    ensures Parsing(b, b, p, [], [], 1, 0)
  {
    assert b[1..|p|] == b[..|p|][1..];
  }

  lemma ParsingStep(b0: seq<byte>, b: seq<byte>, b': seq<byte>, p: seq<byte>, slots: seq<Slot>, vars: seq<Var>, c: nat,
          out: nat, slot: Slot, c': nat, out': nat)
    requires Parsing(b0, b, p, slots, vars, c, out) && c < |p| && Parsed(b, b', p, c, out, slot, c', out')
    ensures Parsing(b0, b', p, slots + [slot], vars + [EntryAt(p, c)], c', out')
  {
    hide SlotIs, EntryAt, EntryEnd, SlotsAre, Entries, ScanEnd;
    EntriesStep(p, c);
    assert b'[..out] == b[..out];
    assert b'[..out] <= b'[..out'];
    SlotsKept(b[..out], b'[..out'], slots, vars);
    SlotsMore(b'[..out'], slots, vars, slot, EntryAt(p, c));
    assert vars + [EntryAt(p, c)] + Entries(p, c') == vars + ([EntryAt(p, c)] + Entries(p, c'));
  }

  lemma SlotsMore(b: seq<byte>, slots: seq<Slot>, vars: seq<Var>, slot: Slot, v: Var)
    requires SlotsAre(b, slots, vars) && SlotIs(b, slot, v)
    ensures SlotsAre(b, slots + [slot], vars + [v])
  {
  }

  lemma ParsingAt(b0: seq<byte>, b: seq<byte>, p: seq<byte>, slots: seq<Slot>, vars: seq<Var>, c: nat, out: nat)
    requires Parsing(b0, b, p, slots, vars, c, out)
    ensures |slots| == |vars| && |vars| + |Entries(p, c)| == |Entries(p, 1)| && out < c <= |p| <= |b| == |b0|
        && b[c..|p|] == p[c..]
    ensures |vars| == |Entries(p, 1)| ==> c == |p| && vars == Entries(p, 1) && SlotsAre(b[..out], slots, vars)
    ensures b[|p|..] == b0[|p|..]
  {
    assert |vars + Entries(p, c)| == |vars| + |Entries(p, c)|;
    assert |vars| == |Entries(p, 1)| ==> vars + Entries(p, c) == vars;
  }

  /** The parsing pass. */
  method Parse(buffer: array<byte>, size: nat, count: nat, ghost p: seq<byte>)
    returns (slots: seq<Slot>, ghost out: nat)
    requires |p| == size <= buffer.Length && buffer[..][..size] == p && NoEscAtEnd(p) && 1 < size && Starts(p[1])
        && count == Count(p, 1)
    modifies buffer
    ensures out <= size && SlotsAre(buffer[..][..out], slots, Entries(p, 1))
        && buffer[..][size..] == old(buffer[..])[size..]
  {
    hide Parsing, Parsed, SlotsAre, Entries;
    ghost var b0, vars := buffer[..], [];
    var c: nat, o: nat, index := 1, 0, 0;
    slots := [];
    ParsingStart(b0, p);
    CountsEntries(p, 1);
    ParsingAt(b0, buffer[..], p, slots, vars, c, o);
    while index != count
      invariant index == |slots| == |vars| <= count && o < c && Parsing(b0, buffer[..], p, slots, vars, c, o)
      decreases count - index
    {
      ghost var b := buffer[..];
      ParsingAt(b0, b, p, slots, vars, c, o);
      ParsingMore(b0, b, p, slots, vars, c, o);
      var slot;
      ghost var c1, o1 := c, o;
      slot, c, o := ParseEntry(buffer, c, o, size, p);
      ParsingStep(b0, b, buffer[..], p, slots, vars, c1, o1, slot, c, o);
      slots, vars, index := slots + [slot], vars + [EntryAt(p, c1)], index + 1;
      ParsingAt(b0, buffer[..], p, slots, vars, c, o);
    }
    ParsingAt(b0, buffer[..], p, slots, vars, c, o);
    out := o;
  }

  lemma ParsingMore(b0: seq<byte>, b: seq<byte>, p: seq<byte>, slots: seq<Slot>, vars: seq<Var>, c: nat, out: nat)
    requires Parsing(b0, b, p, slots, vars, c, out) && |vars| < |Entries(p, 1)|
    ensures c < |p|
  {
    assert |vars + Entries(p, c)| == |vars| + |Entries(p, c)|;
  }

  /** `_environ_telnet`: decodes the first `size` bytes of the buffer in place. */
  method Decode(buffer: array<byte>, size: nat) returns (r: Outcome)
    requires size <= buffer.Length
    modifies buffer
    ensures r == Decoded(old(buffer[..size])) && buffer[size..] == old(buffer[size..])
  {
    hide Entries, SlotsAre;
    if size == 0 {
      return Empty;
    }
    ghost var p, b0 := buffer[..size], buffer[..];
    if buffer[0] != SEND && buffer[0] != IS && buffer[0] != INFO {
      return BadCommand;
    }
    var cmd := buffer[0];
    if size == 1 {
      return Vars(cmd, []);
    }
    if buffer[1] != VAR && buffer[1] != USERVAR {
      return MissingType;
    }
    if buffer[size - 1] == ESC {
      return EndsWithEsc;
    }
    var count := CountEntries(buffer, size);
    assert buffer[..][..size] == p;
    var slots;
    ghost var out;
    slots, out := Parse(buffer, size, count, p);
    ReadSlots(buffer[..], out, slots, Entries(p, 1));
    assert buffer[size..] == buffer[..][size..] && b0[size..] == old(buffer[size..]);
    return Vars(cmd, ReadAll(buffer[..], slots));
  }

  // ----- what the writers send

  datatype Entry = Entry(kind: byte, name: seq<byte>, value: Option<seq<byte>>)

  /** Bytes that need no escape. */
  ghost predicate Plain(s: seq<byte>) {
    forall i :: 0 <= i < |s| ==> 3 < s[i]
  }

  ghost predicate PlainEntry(e: Entry) {
    Starts(e.kind) && Plain(e.name) && (e.value.Some? ==> Plain(e.value.value))
  }

  /** `telnet_newenviron_value` for the name, and again for the value if there is one. */
  function EncodeEntry(e: Entry): seq<byte> {
    [e.kind] + e.name + if e.value.Some? then [VALUE] + e.value.value else []
  }

  function Encode(es: seq<Entry>): seq<byte> {
    if es == [] then [] else EncodeEntry(es[0]) + Encode(es[1..])
  }

  function Meant(e: Entry): Var {
    Var(e.kind, e.name, if e.value.Some? then e.value.value else [])
  }

  function AllMeant(es: seq<Entry>): seq<Var> {
    seq(|es|, i requires 0 <= i < |es| => Meant(es[i]))
  }

  lemma {:induction false} CStringAll(s: seq<byte>)
    requires Plain(s)
    ensures CString(s) == s
    decreases |s|
  {
    if s != [] {
      CStringAll(s[1..]);
      assert s == [s[0]] + s[1..];
    }
  }

  lemma SliceOf(p: seq<byte>, i: nat, w: seq<byte>, a: nat, b: nat)
    requires i + |w| <= |p| && p[i..i + |w|] == w && a <= b <= |w|
    ensures p[i + a..i + b] == w[a..b] && (a < b ==> p[i + a] == w[a])
  {
    forall k | 0 <= k < b - a ensures p[i + a..i + b][k] == w[a..b][k] {
      assert p[i..i + |w|][a + k] == w[a + k];
    }
    assert a < b ==> p[i + a] == p[i + a..i + b][0];
  }

  // ----- strings with escapes

  /** A byte of a string, with an escape in front of it or without. */
  datatype Letter = Letter(escaped: bool, b: byte)

  function Written(s: seq<Letter>): seq<byte> {
    if s == [] then [] else (if s[0].escaped then [ESC, s[0].b] else [s[0].b]) + Written(s[1..])
  }

  function Letters(s: seq<Letter>): seq<byte> {
    seq(|s|, i requires 0 <= i < |s| => s[i].b)
  }

  /** Bytes that mean something are escaped; any others may be. */
  predicate Legal(s: seq<Letter>, inName: bool) {
    forall i :: 0 <= i < |s| ==> s[i].escaped || !(s[i].b == ESC || Stops(s[i].b, inName))
  }

  datatype Item = Item(kind: byte, name: seq<Letter>, value: Option<seq<Letter>>)

  predicate LegalItem(e: Item) {
    Starts(e.kind) && Legal(e.name, true) && (e.value.Some? ==> Legal(e.value.value, false))
  }

  function WrittenItem(e: Item): seq<byte> {
    [e.kind] + Written(e.name) + if e.value.Some? then [VALUE] + Written(e.value.value) else []
  }

  function AllWritten(es: seq<Item>): seq<byte> {
    if es == [] then [] else WrittenItem(es[0]) + AllWritten(es[1..])
  }

  /** The strings as their readers see them, up to the first NUL. */
  function ReadItem(e: Item): Var {
    Var(e.kind, CString(Letters(e.name)), if e.value.Some? then CString(Letters(e.value.value)) else [])
  }

  function AllRead(es: seq<Item>): seq<Var> {
    seq(|es|, i requires 0 <= i < |es| => ReadItem(es[i]))
  }

  lemma ScanStep(p: seq<byte>, i: nat, inName: bool)
    requires i <= |p| && NoEscAtEnd(p)
    ensures i == |p| || Stops(p[i], inName) ==> ScanEnd(p, i, inName) == i && Scan(p, i, inName) == []
    ensures i < |p| && !Stops(p[i], inName) ==>
        var j := Next(p, i);
        ScanEnd(p, i, inName) == ScanEnd(p, j, inName) && Scan(p, i, inName) == [p[j - 1]] + Scan(p, j, inName)
  {
  }

  lemma WrittenStep(s: seq<Letter>)
    requires s != []
    ensures Written(s) == (if s[0].escaped then [ESC, s[0].b] else [s[0].b]) + Written(s[1..])
  {
  }

  /** The first letter of a string, and where the others stand. */
  lemma FirstLetter(p: seq<byte>, i: nat, s: seq<Letter>)
    requires s != [] && i + |Written(s)| <= |p| && p[i..i + |Written(s)|] == Written(s)
    ensures var k := if s[0].escaped then 2 else 1; var n := i + k + |Written(s[1..])|;
      && n == i + |Written(s)| && p[i] == (if s[0].escaped then ESC else s[0].b) && p[i + k - 1] == s[0].b
      && p[i + k..n] == Written(s[1..])
  {
    hide Written;
    WrittenStep(s);
    StretchParts(p, i, if s[0].escaped then [ESC, s[0].b] else [s[0].b], Written(s[1..]));
  }

  lemma StretchParts(p: seq<byte>, i: nat, first: seq<byte>, rest: seq<byte>)
    requires first != [] && i + |first + rest| <= |p| && p[i..i + |first + rest|] == first + rest
    ensures p[i] == first[0] && p[i + |first| - 1] == first[|first| - 1]
    ensures p[i + |first|..i + |first + rest|] == rest
  {
    var w, k := first + rest, |first|;
    SliceOf(p, i, w, 0, 1);
    SliceOf(p, i, w, k - 1, k);
    SliceOf(p, i, w, k, |w|);
    assert w[k..|w|] == rest;
  }

  /** A string is read letter by letter, up to a byte that stops it. */
  lemma {:induction false} ScanWritten(p: seq<byte>, i: nat, s: seq<Letter>, inName: bool)
    requires NoEscAtEnd(p) && Legal(s, inName)
    requires var n := i + |Written(s)|;
      n <= |p| && p[i..n] == Written(s) && (n < |p| ==> Stops(p[n], inName))
    ensures ScanEnd(p, i, inName) == i + |Written(s)| && Scan(p, i, inName) == Letters(s)
    decreases |s|
  {
    hide ScanEnd, Scan, NoEscAtEnd, Written;
    WrittenNone();
    ScanStep(p, i, inName);
    if s != [] {
      FirstLetter(p, i, s);
      assert Legal(s[1..], inName);
      ScanWritten(p, i + if s[0].escaped then 2 else 1, s[1..], inName);
      assert Letters(s) == [s[0].b] + Letters(s[1..]);
    }
  }

  lemma WrittenNone()
    ensures Written([]) == []
  {
  }

  /** Payload p holds the item e at i, and another one or nothing follows. */
  lemma ItemRead(p: seq<byte>, i: nat, e: Item)
    requires NoEscAtEnd(p) && LegalItem(e) && i + |WrittenItem(e)| <= |p|
        && p[i..i + |WrittenItem(e)|] == WrittenItem(e)
    requires i + |WrittenItem(e)| < |p| ==> Starts(p[i + |WrittenItem(e)|])
    ensures i < |p| && EntryAt(p, i) == ReadItem(e) && EntryEnd(p, i) == i + |WrittenItem(e)|
  {
    hide Legal, CString, Scan, ScanEnd, WrittenItem, Written, Letters;
    ItemBytes(p, i, e);
    var n := i + 1 + |Written(e.name)|;
    ScanWritten(p, i + 1, e.name, true);
    assert NameEnd(p, i) == n;
    if e.value.Some? {
      assert HasValue(p, i);
      ScanWritten(p, n + 1, e.value.value, false);
    } else {
      assert !HasValue(p, i);
    }
  }

  lemma ItemBytes(p: seq<byte>, i: nat, e: Item)
    requires i + |WrittenItem(e)| <= |p| && p[i..i + |WrittenItem(e)|] == WrittenItem(e)
    ensures var n := |Written(e.name)|;
      && |WrittenItem(e)| == 1 + n + (if e.value.Some? then 1 + |Written(e.value.value)| else 0)
      && p[i] == e.kind && p[i + 1..i + 1 + n] == Written(e.name)
      && (e.value.Some? ==> p[i + 1 + n] == VALUE
                            && p[i + 2 + n..i + 2 + n + |Written(e.value.value)|] == Written(e.value.value))
  {
    var w, k := WrittenItem(e), |Written(e.name)|;
    hide Written;
    SliceOf(p, i, w, 0, 1);
    SliceOf(p, i, w, 1, 1 + k);
    assert w[1..1 + k] == Written(e.name);
    if e.value.Some? {
      SliceOf(p, i, w, 1 + k, 2 + k);
      SliceOf(p, i, w, 2 + k, |w|);
      assert w[2 + k..|w|] == Written(e.value.value);
    }
  }

  /** A stretch of p up to its end, in two parts. */
  lemma TwoParts(p: seq<byte>, i: nat, w: seq<byte>, rest: seq<byte>)
    requires i <= |p| && p[i..] == w + rest
    ensures i + |w| + |rest| == |p| && p[i..i + |w|] == w && p[i + |w|..] == rest
  {
    assert |p[i..]| == |w| + |rest|;
    forall k | 0 <= k < |w| ensures p[i..i + |w|][k] == w[k] {
      assert p[i..][k] == (w + rest)[k];
    }
    forall k | 0 <= k < |rest| ensures p[i + |w|..][k] == rest[k] {
      assert p[i..][|w| + k] == (w + rest)[|w| + k];
    }
  }

  lemma EntriesStep(p: seq<byte>, i: nat)
    requires i < |p| && NoEscAtEnd(p)
    ensures Entries(p, i) == [EntryAt(p, i)] + Entries(p, EntryEnd(p, i))
  {
    hide EntryAt, EntryEnd;
  }

  lemma ReadFirst(es: seq<Item>)
    ensures es != [] ==> AllRead(es) == [ReadItem(es[0])] + AllRead(es[1..])
    ensures AllRead([]) == []
  {
    hide ReadItem;
  }

  lemma WrittenFirst(es: seq<Item>)
    requires es != [] && LegalItem(es[0])
    ensures AllWritten(es) != [] && Starts(AllWritten(es)[0])
  {
  }

  /** Where the first of the items ends in the payload. */
  lemma FirstEnds(p: seq<byte>, i: nat, es: seq<Item>)
    requires i <= |p| && es != [] && p[i..] == AllWritten(es) && forall j :: 0 <= j < |es| ==> LegalItem(es[j])
    ensures var n := i + |WrittenItem(es[0])|;
      n <= |p| && p[i..n] == WrittenItem(es[0]) && p[n..] == AllWritten(es[1..]) && (n < |p| ==> Starts(p[n]))
  {
    hide WrittenItem, LegalItem, Starts;
    TwoParts(p, i, WrittenItem(es[0]), AllWritten(es[1..]));
    if 1 < |es| {
      WrittenFirst(es[1..]);
      assert p[i + |WrittenItem(es[0])|] == p[i + |WrittenItem(es[0])|..][0];
    }
  }

  lemma {:induction false} EntriesRead(p: seq<byte>, i: nat, es: seq<Item>)
    requires NoEscAtEnd(p) && i <= |p| && p[i..] == AllWritten(es) && forall j :: 0 <= j < |es| ==> LegalItem(es[j])
    ensures Entries(p, i) == AllRead(es)
    decreases |es|
  {
    hide WrittenItem, EntryAt, EntryEnd, LegalItem, Starts, AllRead, ReadItem;
    ReadFirst(es);
    if es != [] {
      FirstEnds(p, i, es);
      ItemRead(p, i, es[0]);
      EntriesStep(p, i);
      hide Entries, AllWritten;
      EntriesRead(p, i + |WrittenItem(es[0])|, es[1..]);
    }
  }

  /**
   Whatever bytes the strings hold, with those escaped that must be and any others that need not, their readers see them
   up to the first NUL; except that a payload whose last byte is an ESC is refused even if that byte is escaped.
   */
  lemma EscapedRoundTrip(cmd: byte, es: seq<Item>)
    requires cmd in {IS, SEND, INFO} && forall j :: 0 <= j < |es| ==> LegalItem(es[j])
    ensures var p := [cmd] + AllWritten(es);
      Decoded(p) == if es != [] && p[|p| - 1] == ESC then EndsWithEsc else Vars(cmd, AllRead(es))
  {
    var p := [cmd] + AllWritten(es);
    if es != [] {
      assert p[1..] == AllWritten(es);
      WrittenFirst(es);
      assert p[1] == p[1..][0];
      if p[|p| - 1] != ESC {
        EntriesRead(p, 1, es);
      }
    }
  }

  /** The letters that a string in the payload is made of. */
  lemma {:induction false} StringOf(p: seq<byte>, i: nat, inName: bool) returns (s: seq<Letter>)
    requires i <= |p| && NoEscAtEnd(p)
    ensures Legal(s, inName) && Written(s) == p[i..ScanEnd(p, i, inName)]
    decreases |p| - i
  {
    hide NoEscAtEnd, Written;
    ScanStep(p, i, inName);
    if i == |p| || Stops(p[i], inName) {
      s := [];
      WrittenNone();
    } else {
      var j, e := Next(p, i), ScanEnd(p, i, inName);
      var rest := StringOf(p, j, inName);
      var first := Letter(p[i] == ESC, p[j - 1]);
      s := [first] + rest;
      WrittenMore(first, rest);
      assert p[i..e] == p[i..j] + p[j..e];
      assert p[i..j] == if p[i] == ESC then [ESC, p[j - 1]] else [p[j - 1]];
    }
  }

  lemma WrittenMore(first: Letter, rest: seq<Letter>)
    ensures Written([first] + rest) == (if first.escaped then [ESC, first.b] else [first.b]) + Written(rest)
  {
    assert ([first] + rest)[1..] == rest;
  }

  /** The item that an entry of the payload is. */
  lemma ItemOf(p: seq<byte>, i: nat) returns (e: Item)
    requires i < |p| && NoEscAtEnd(p) && Starts(p[i])
    ensures LegalItem(e) && WrittenItem(e) == p[i..EntryEnd(p, i)]
  {
    hide ScanEnd, Written, Legal, NoEscAtEnd;
    var name := StringOf(p, i + 1, true);
    var n := NameEnd(p, i);
    if HasValue(p, i) {
      var value := StringOf(p, n + 1, false);
      e := Item(p[i], name, Some(value));
      assert p[i..EntryEnd(p, i)] == [p[i]] + p[i + 1..n] + ([VALUE] + p[n + 1..EntryEnd(p, i)]);
    } else {
      e := Item(p[i], name, None);
      assert p[i..n] == [p[i]] + p[i + 1..n];
    }
  }

  lemma {:induction false} ItemsOf(p: seq<byte>, i: nat) returns (es: seq<Item>)
    requires i <= |p| && NoEscAtEnd(p) && (i < |p| ==> Starts(p[i]))
    ensures (forall j :: 0 <= j < |es| ==> LegalItem(es[j])) && AllWritten(es) == p[i..]
    decreases |p| - i
  {
    es := [];
    if i < |p| {
      hide LegalItem, WrittenItem, EntryEnd, Starts, NoEscAtEnd;
      var e := ItemOf(p, i);
      var rest := ItemsOf(p, EntryEnd(p, i));
      es := [e] + rest;
      assert es[1..] == rest;
      assert p[i..] == p[i..EntryEnd(p, i)] + p[EntryEnd(p, i)..];
    }
  }

  /** A command and legal entries that do not end in an ESC. */
  ghost predicate Spells(p: seq<byte>, cmd: byte, es: seq<Item>) {
    && cmd in {IS, SEND, INFO} && (forall j :: 0 <= j < |es| ==> LegalItem(es[j]))
    && p == [cmd] + AllWritten(es) && (es == [] || p[|p| - 1] != ESC)
  }

  lemma SpelledOf(p: seq<byte>) returns (es: seq<Item>)
    requires Decoded(p).Vars?
    ensures p != [] && Spells(p, p[0], es)
  {
    hide LegalItem, WrittenItem, Entries, Starts;
    es := [];
    if 1 < |p| {
      es := ItemsOf(p, 1);
    }
    assert p == [p[0]] + p[1..];
  }

  /** A payload is accepted exactly if it is made up like that. */
  lemma EnvironExactly(p: seq<byte>)
    ensures Decoded(p).Vars? <==> exists cmd, es :: Spells(p, cmd, es)
  {
    hide Decoded, AllWritten, LegalItem, AllRead;
    if cmd, es :| Spells(p, cmd, es) {
      EscapedRoundTrip(cmd, es);
    }
    if Decoded(p).Vars? {
      var es := SpelledOf(p);
    }
  }

  /** A value that is one escaped ESC is refused. */
  lemma EscapeRefused()
    ensures Decoded([IS, VAR, 65, VALUE, ESC, ESC]) == EndsWithEsc
  {
  }

  // ----- what the writers send, without escapes

  function Bare(s: seq<byte>): seq<Letter> {
    seq(|s|, i requires 0 <= i < |s| => Letter(false, s[i]))
  }

  lemma {:induction false} BareIs(s: seq<byte>)
    ensures Written(Bare(s)) == s && Letters(Bare(s)) == s
    decreases |s|
  {
    if s != [] {
      BareIs(s[1..]);
      assert Bare(s)[1..] == Bare(s[1..]) && Bare(s)[0] == Letter(false, s[0]);
      assert s == [s[0]] + s[1..];
    }
  }

  function BareItem(e: Entry): Item {
    Item(e.kind, Bare(e.name), if e.value.Some? then Some(Bare(e.value.value)) else None)
  }

  function AllBare(es: seq<Entry>): seq<Item> {
    seq(|es|, i requires 0 <= i < |es| => BareItem(es[i]))
  }

  lemma BareItemIs(e: Entry)
    requires PlainEntry(e)
    ensures LegalItem(BareItem(e)) && WrittenItem(BareItem(e)) == EncodeEntry(e) && ReadItem(BareItem(e)) == Meant(e)
  {
    hide Written, Letters, CString;
    BareIs(e.name);
    CStringAll(e.name);
    if e.value.Some? {
      BareIs(e.value.value);
      CStringAll(e.value.value);
    }
  }

  lemma {:induction false} AllBareIs(es: seq<Entry>)
    requires forall j :: 0 <= j < |es| ==> PlainEntry(es[j])
    ensures AllWritten(AllBare(es)) == Encode(es) && AllRead(AllBare(es)) == AllMeant(es)
    ensures forall j :: 0 <= j < |es| ==> LegalItem(AllBare(es)[j])
    decreases |es|
  {
    hide PlainEntry, LegalItem, BareItem, WrittenItem, EncodeEntry, ReadItem, Meant;
    forall j | 0 <= j < |es| ensures LegalItem(AllBare(es)[j]) && ReadItem(AllBare(es)[j]) == Meant(es[j]) {
      BareItemIs(es[j]);
    }
    if es != [] {
      BareItemIs(es[0]);
      assert AllBare(es)[1..] == AllBare(es[1..]);
      AllBareIs(es[1..]);
    }
  }

  /** What the NEW-ENVIRON writers send is recovered exactly if no string holds one of the bytes 0 to 3. */
  lemma EnvironRoundTrip(cmd: byte, es: seq<Entry>)
    requires cmd in {IS, SEND, INFO} && forall j :: 0 <= j < |es| ==> PlainEntry(es[j])
    ensures Decoded([cmd] + Encode(es)) == Vars(cmd, AllMeant(es))
  {
    hide PlainEntry, Decoded, LegalItem, AllRead, AllMeant;
    AllBareIs(es);
    EscapedRoundTrip(cmd, AllBare(es));
    if es != [] {
      EncodeEnd(es);
    }
  }

  lemma {:induction false} EncodeEnd(es: seq<Entry>)
    requires es != [] && forall j :: 0 <= j < |es| ==> PlainEntry(es[j])
    ensures Encode(es) != [] && NoEscAtEnd(Encode(es))
    decreases |es|
  {
    var w := EncodeEntry(es[0]);
    if |es| == 1 {
      assert Encode(es) == w;
    } else {
      EncodeEnd(es[1..]);
    }
  }
}
