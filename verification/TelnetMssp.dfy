/**
 TcpShell/libtelnet.c: the MSSP decoder, which like the one for NEW-ENVIRON copies the strings of a
 payload to its front and terminates them, over bytes that it has already read.
 */
module TelnetMssp {
  import opened Bytes
  import E = TelnetEnviron

  const VAR: byte := 1
  const VAL: byte := 2

  datatype Setting = Setting(name: seq<byte>, value: seq<byte>)

  /** `announced` is the number of settings the event promises. */
  datatype Outcome = Nothing | Invalid | Values(settings: seq<Setting>, announced: nat)

  predicate Marks(b: byte) {
    b == VAR || b == VAL
  }

  /** The end of the string at c. */
  function End(p: seq<byte>, c: nat): (e: nat)
    requires c <= |p|
    ensures c <= e <= |p| && (e < |p| ==> Marks(p[e])) && forall j :: c <= j < e ==> !Marks(p[j])
    decreases |p| - c
  {
    if c == |p| || Marks(p[c]) then c else End(p, c + 1)
  }

  /** The settings from the string at c on; the byte in front of it tells what it is. */
  function Settings(p: seq<byte>, c: nat, name: seq<byte>): seq<Setting>
    requires 0 < c
    decreases |p| - c
  {
    if |p| <= c then [] else
      var e := End(p, c);
      var s := E.CString(p[c..e]);
      if p[c - 1] == VAR then Settings(p, e + 1, s) else [Setting(name, s)] + Settings(p, e + 1, name)
  }

  function Count(p: seq<byte>): nat {
    if p == [] then 0 else (if p[0] == VAL then 1 else 0) + Count(p[1..])
  }

  /** `_mssp_telnet` on the payload p. */
  function Decoded(p: seq<byte>): Outcome {
    if p == [] then Nothing else if p[0] != VAR then Invalid else Values(Settings(p, 1, []), Count(p))
  }

  // ----- the number of settings

  lemma {:induction false} CountAppend(a: seq<byte>, b: seq<byte>)
    ensures Count(a + b) == Count(a) + Count(b)
    decreases |a|
  {
    if a == [] {
      assert a + b == b;
    } else {
      assert (a + b)[1..] == a[1..] + b;
      CountAppend(a[1..], b);
    }
  }

  lemma {:induction false} CountNone(p: seq<byte>)
    requires forall j :: 0 <= j < |p| ==> p[j] != VAL
    ensures Count(p) == 0
    decreases |p|
  {
    if p != [] {
      CountNone(p[1..]);
    }
  }

  lemma SettingsStep(p: seq<byte>, c: nat, name: seq<byte>)
    requires 0 < c < |p|
    ensures var e := End(p, c); var s := E.CString(p[c..e]);
      Settings(p, c, name)
      == if p[c - 1] == VAR then Settings(p, e + 1, s) else [Setting(name, s)] + Settings(p, e + 1, name)
  {
  }

  lemma SettingsNone(p: seq<byte>, c: nat, name: seq<byte>)
    requires 0 < c && |p| <= c
    ensures Settings(p, c, name) == []
  {
  }

  lemma CountFrom(p: seq<byte>, c: nat)
    requires 0 < c <= |p|
    ensures var e := End(p, c); Count(p[c - 1..]) == (if p[c - 1] == VAL then 1 else 0) + Count(p[e..])
  {
    var e, rest := End(p, c), p[c - 1..];
    hide End;
    assert rest[1..] == p[c..e] + p[e..];
    CountNone(p[c..e]);
    CountAppend(p[c..e], p[e..]);
  }

  lemma CountNil(p: seq<byte>, e: nat)
    requires e <= |p|
    ensures e == |p| ==> Count(p[e..]) == 0
  {
  }

  lemma {:induction false} SettingsCount(p: seq<byte>, c: nat, name: seq<byte>)
    requires 0 < c <= |p| && Marks(p[c - 1])
    ensures |Settings(p, c, name)| == Count(p[c - 1..]) - if p[|p| - 1] == VAL then 1 else 0
    decreases |p| - c
  {
    hide Settings, Count, End;
    CountFrom(p, c);
    var e := End(p, c);
    CountNil(p, e);
    if c == |p| {
      SettingsNone(p, c, name);
    } else {
      SettingsStep(p, c, name);
      var s := E.CString(p[c..e]);
      if e < |p| {
        SettingsCount(p, e + 1, if p[c - 1] == VAR then s else name);
      } else {
        SettingsNone(p, e + 1, s);
        SettingsNone(p, e + 1, name);
      }
    }
  }

  /** The event promises as many settings as there are exactly if the payload does not end in a VAL. */
  lemma AnnouncedExactly(p: seq<byte>)
    requires Decoded(p).Values?
    ensures |Decoded(p).settings| == Decoded(p).announced <==> p[|p| - 1] != VAL
    ensures |Decoded(p).settings| <= Decoded(p).announced
  {
    assert p[0..] == p;
    SettingsCount(p, 1, []);
  }

  /** A variable without a value: one setting is promised, and there is none. */
  lemma AnnouncedMisleads()
    ensures Decoded([VAR, 65, VAL]) == Values([], 1)
  {
    var p := [VAR, 65, VAL];
    SettingsStep(p, 1, []);
    assert End(p, 1) == 2;
    SettingsNone(p, 3, E.CString(p[1..2]));
    var one: seq<byte> := [VAL];
    assert one[1..] == [] && Count(one) == 1;
    assert p[1..][1..] == one && Count(p[1..]) == 1;
  }

  // ----- names and values come back

  /** A payload as its sender means it: each name is followed by its values. */
  datatype Part = Name(s: seq<byte>) | Value(s: seq<byte>)

  function Written(parts: seq<Part>): seq<byte> {
    if parts == [] then [] else [if parts[0].Name? then VAR else VAL] + parts[0].s + Written(parts[1..])
  }

  /** Every value with the name in front of it. */
  function Pairs(parts: seq<Part>, name: seq<byte>): seq<Setting> {
    if parts == [] then []
    else if parts[0].Name? then Pairs(parts[1..], parts[0].s)
    else [Setting(name, parts[0].s)] + Pairs(parts[1..], name)
  }

  predicate Readable(s: seq<byte>) {
    forall j :: 0 <= j < |s| ==> s[j] != 0 && !Marks(s[j])
  }

  lemma {:induction false} CStringReadable(s: seq<byte>)
    requires Readable(s)
    ensures E.CString(s) == s
    decreases |s|
  {
    if s != [] {
      CStringReadable(s[1..]);
      assert s == [s[0]] + s[1..];
    }
  }

  lemma {:induction false} EndIs(p: seq<byte>, c: nat, e: nat)
    requires c <= e <= |p| && (forall j :: c <= j < e ==> !Marks(p[j])) && (e < |p| ==> Marks(p[e]))
    ensures End(p, c) == e
    decreases e - c
  {
    if c < e {
      EndIs(p, c + 1, e);
    }
  }

  /** The first part, and where the next one is. */
  lemma FirstPart(p: seq<byte>, c: nat, parts: seq<Part>)
    requires 0 < c <= |p| && parts != [] && p[c - 1..] == Written(parts) && Readable(parts[0].s)
    ensures var e := c + |parts[0].s|;
      && e <= |p| && End(p, c) == e && p[c..e] == parts[0].s == E.CString(p[c..e]) && p[e..] == Written(parts[1..])
      && p[c - 1] == (if parts[0].Name? then VAR else VAL) && (e < |p| <==> 1 < |parts|)
  {
    var w, s, rest, e := Written(parts), parts[0].s, Written(parts[1..]), c + |parts[0].s|;
    assert w == [if parts[0].Name? then VAR else VAL] + s + rest;
    assert |p| - c + 1 == |w| && p[c - 1] == w[0];
    assert rest != [] ==> Marks(rest[0]);
    assert 1 < |parts| <==> rest != [];
    hide Written;
    forall j | 0 <= j < |s| ensures p[c + j] == s[j] {
      assert p[c - 1..][1 + j] == w[1 + j];
    }
    forall j | 0 <= j < |rest| ensures p[e + j] == rest[j] {
      assert p[c - 1..][1 + |s| + j] == w[1 + |s| + j];
    }
    assert p[c..e] == s && p[e..] == rest;
    EndIs(p, c, e);
    CStringReadable(s);
  }

  lemma {:induction false} PartsRead(p: seq<byte>, c: nat, parts: seq<Part>, name: seq<byte>)
    requires 0 < c <= |p| && parts != [] && p[c - 1..] == Written(parts)
    requires forall j :: 0 <= j < |parts| ==> Readable(parts[j].s)
    ensures var all, got := Pairs(parts, name), Settings(p, c, name);
      if p[|p| - 1] == VAL then all != [] && got == all[..|all| - 1] else got == all
    decreases |parts|
  {
    hide Settings, End, Written, Readable;
    FirstPart(p, c, parts);
    var s, e := parts[0].s, c + |parts[0].s|;
    if c == |p| {
      SettingsNone(p, c, name);
    } else {
      SettingsStep(p, c, name);
      var name' := if parts[0].Name? then s else name;
      if e < |p| {
        PartsRead(p, e + 1, parts[1..], name');
      } else {
        SettingsNone(p, e + 1, name');
        assert p[c..] == p[c..e];
        LastReadable(p, c, s);
      }
    }
  }

  lemma LastReadable(p: seq<byte>, c: nat, s: seq<byte>)
    requires c < |p| == c + |s| && Readable(s) && p[c..] == s
    ensures p[|p| - 1] != VAL
  {
    assert p[|p| - 1] == s[|s| - 1];
  }

  /**
   All names and values come back, each value with the name in front of it,
   exactly if the payload does not end in a VAL: an empty value at the end is lost.
   */
  lemma MsspRoundTrip(parts: seq<Part>)
    requires parts != [] && parts[0].Name? && forall j :: 0 <= j < |parts| ==> Readable(parts[j].s)
    ensures var p := Written(parts);
      && Decoded(p).Values? && (Decoded(p).settings == Pairs(parts, []) <==> p[|p| - 1] != VAL)
      && Decoded(p).announced == |Pairs(parts, [])|
  {
    var p := Written(parts);
    assert p[0..] == p;
    PartsRead(p, 1, parts, []);
    SettingsCount(p, 1, []);
  }

  // ----- the decoder

  /** Offsets of the two strings of a setting. */
  datatype Slot = Slot(name: nat, value: nat)

  ghost predicate StringAt(b: seq<byte>, o: nat, s: seq<byte>) {
    o <= |b| && E.Terminated(b, o) && E.CString(b[o..]) == s
  }

  ghost predicate SlotsAre(b: seq<byte>, slots: seq<Slot>, settings: seq<Setting>) {
    |slots| == |settings| && forall j :: 0 <= j < |slots| ==>
      StringAt(b, slots[j].name, settings[j].name) && StringAt(b, slots[j].value, settings[j].value)
  }

  lemma StringGrown(b: seq<byte>, b': seq<byte>, o: nat, s: seq<byte>)
    requires StringAt(b, o, s) && b <= b'
    ensures StringAt(b', o, s)
  {
    E.StringKept(b, b', o);
  }

  lemma SlotsGrown(b: seq<byte>, b': seq<byte>, slots: seq<Slot>, settings: seq<Setting>)
    requires SlotsAre(b, slots, settings) && b <= b'
    ensures SlotsAre(b', slots, settings)
  {
    forall j | 0 <= j < |slots|
      ensures StringAt(b', slots[j].name, settings[j].name) && StringAt(b', slots[j].value, settings[j].value)
    {
      StringGrown(b, b', slots[j].name, settings[j].name);
      StringGrown(b, b', slots[j].value, settings[j].value);
    }
  }

  /** A string just written behind b. */
  lemma StringNew(b: seq<byte>, s: seq<byte>)
    ensures StringAt(b + s + [0], |b|, E.CString(s))
  {
    var b' := b + s + [0];
    assert b'[|b| + |s|] == 0;
    assert b'[|b|..] == s + [0];
    E.CStringPlain(s);
  }

  /**
   Copies the string at c0 to out0 and terminates it, strictly behind the read cursor.
   */
  method CopyString(buffer: array<byte>, c0: nat, out0: nat, size: nat, ghost p: seq<byte>) returns (c: nat, out: nat)
    requires |p| == size <= buffer.Length && out0 < c0 < size && buffer[c0..size] == p[c0..]
    modifies buffer
    ensures c == End(p, c0) && out0 < out <= c && buffer[c..size] == p[c..]
    ensures buffer[..out] == old(buffer[..out0]) + p[c0..c] + [0] && buffer[size..] == old(buffer[size..])
  {
    ghost var b0 := buffer[..];
    c, out := c0, out0;
    while c < size && !Marks(buffer[c])
      invariant c0 <= c <= size && out - out0 == c - c0 && End(p, c) == End(p, c0)
      invariant buffer[c..size] == p[c..] && buffer[..out0] == b0[..out0] && buffer[out0..out] == p[c0..c]
      invariant buffer[size..] == b0[size..]
    {
      assert buffer[c] == buffer[c..size][0] == p[c];
      ghost var b := buffer[..];
      buffer[out] := buffer[c];
      CopyOne(b, buffer[..], p, c0, c, out0, out, size);
      c, out := c + 1, out + 1;
    }
    if c < size {
      assert buffer[c] == buffer[c..size][0] == p[c];
    }
    ghost var b := buffer[..];
    buffer[out] := 0;
    CopyEnd(b, buffer[..], p, c0, c, out0, out, size);
    out := out + 1;
  }

  lemma CopyOne(b: seq<byte>, b': seq<byte>, p: seq<byte>, c0: nat, c: nat, out0: nat, out: nat, size: nat)
    requires |p| == size <= |b| && out0 <= out < c < size && c0 <= c && out - out0 == c - c0
    requires b[c..size] == p[c..] && b[out0..out] == p[c0..c] && b' == b[out := p[c]]
    ensures b'[c + 1..size] == p[c + 1..] && b'[..out0] == b[..out0] && b'[out0..out + 1] == p[c0..c + 1]
    ensures b'[size..] == b[size..]
  {
    assert b'[c + 1..size] == b[c..size][1..];
    assert b'[out0..out + 1] == b[out0..out] + [p[c]];
  }

  lemma CopyEnd(b: seq<byte>, b': seq<byte>, p: seq<byte>, c0: nat, c: nat, out0: nat, out: nat, size: nat)
    requires |p| == size <= |b| && out0 <= out < c <= size && c0 <= c && b[c..size] == p[c..]
    requires b[out0..out] == p[c0..c] && b' == b[out := 0]
    ensures b'[c..size] == p[c..] && b'[..out + 1] == b[..out0] + p[c0..c] + [0] && b'[size..] == b[size..]
  {
    assert b'[c..size] == b[c..size];
    assert b'[..out + 1] == b[..out0] + b[out0..out] + [0];
  }

  /** In front of the string at c: what is decoded, and what is still to be read. */
  ghost predicate Decoding(b: seq<byte>, p: seq<byte>, c: nat, out: nat, slots: seq<Slot>, done: seq<Setting>,
          name: Option<nat>, said: seq<byte>) {
    && 0 < c && out <= |b| && out < c && c - 1 <= |p| <= |b| && (c <= |p| ==> b[c..|p|] == p[c..] && Marks(p[c - 1]))
    && SlotsAre(b[..out], slots, done) && done + Settings(p, c, said) == Settings(p, 1, [])
    && (name.Some? ==> StringAt(b[..out], name.value, said)) && (name.None? ==> c == 1)
  }

  lemma DecodingStart(b: seq<byte>, p: seq<byte>)
    requires p != [] && p <= b && p[0] == VAR
    ensures Decoding(b, p, 1, 0, [], [], None, [])
  {
    assert b[1..|p|] == p[1..];
    assert [] + Settings(p, 1, []) == Settings(p, 1, []);
  }

  /** What one string more leaves of the buffer. */
  ghost predicate Moved(b: seq<byte>, b': seq<byte>, p: seq<byte>, c: nat, out: nat, e: nat, out': nat) {
    && c < |p| <= |b| == |b'| && e == End(p, c) && out < out' <= e && out <= |b|
    && b'[e..|p|] == p[e..] && b'[..out'] == b[..out] + p[c..e] + [0]
  }

  lemma MovedOn(b: seq<byte>, b': seq<byte>, p: seq<byte>, c: nat, out: nat, e: nat, out': nat, slots: seq<Slot>,
          done: seq<Setting>)
    requires Moved(b, b', p, c, out, e, out') && SlotsAre(b[..out], slots, done)
    ensures e + 1 <= |p| ==> b'[e + 1..|p|] == p[e + 1..] && Marks(p[e])
    ensures SlotsAre(b'[..out'], slots, done) && StringAt(b'[..out'], out, E.CString(p[c..e])) && b[..out] <= b'[..out']
  {
    hide SlotsAre, StringAt, End;
    StringNew(b[..out], p[c..e]);
    SlotsGrown(b[..out], b'[..out'], slots, done);
    if e < |p| {
      assert b'[e + 1..|p|] == b'[e..|p|][1..] && p[e + 1..] == p[e..][1..];
    }
  }

  /** A name. */
  lemma DecodingName(b: seq<byte>, b': seq<byte>, p: seq<byte>, c: nat, out: nat, slots: seq<Slot>, done: seq<Setting>,
          name: Option<nat>, said: seq<byte>, e: nat, out': nat)
    requires Decoding(b, p, c, out, slots, done, name, said) && Moved(b, b', p, c, out, e, out') && p[c - 1] == VAR
    ensures Decoding(b', p, e + 1, out', slots, done, Some(out), E.CString(p[c..e]))
  {
    hide Settings, SlotsAre, StringAt, End, E.CString;
    SettingsStep(p, c, said);
    MovedOn(b, b', p, c, out, e, out', slots, done);
  }

  /** A value. */
  lemma DecodingValue(b: seq<byte>, b': seq<byte>, p: seq<byte>, c: nat, out: nat, slots: seq<Slot>,
          done: seq<Setting>, name: nat, said: seq<byte>, e: nat, out': nat)
    requires Decoding(b, p, c, out, slots, done, Some(name), said) && Moved(b, b', p, c, out, e, out')
    requires p[c - 1] != VAR
    ensures Decoding(b', p, e + 1, out', slots + [Slot(name, out)], done + [Setting(said, E.CString(p[c..e]))],
                Some(name), said)
  {
    hide Settings, SlotsAre, StringAt, End, E.CString;
    var s := E.CString(p[c..e]);
    SettingsStep(p, c, said);
    MovedOn(b, b', p, c, out, e, out', slots, done);
    StringGrown(b[..out], b'[..out'], name, said);
    SlotsMore(b'[..out'], slots, done, Slot(name, out), Setting(said, s));
    Assoc(done, [Setting(said, s)], Settings(p, e + 1, said));
  }

  lemma SlotsMore(b: seq<byte>, slots: seq<Slot>, settings: seq<Setting>, slot: Slot, setting: Setting)
    requires SlotsAre(b, slots, settings) && StringAt(b, slot.name, setting.name)
        && StringAt(b, slot.value, setting.value)
    ensures SlotsAre(b, slots + [slot], settings + [setting])
  {
    hide StringAt;
  }

  function Read(b: seq<byte>, s: Slot): Setting
    requires s.name <= |b| && s.value <= |b|
  {
    Setting(E.CString(b[s.name..]), E.CString(b[s.value..]))
  }

  function ReadAll(b: seq<byte>, slots: seq<Slot>): seq<Setting>
    requires forall j :: 0 <= j < |slots| ==> slots[j].name <= |b| && slots[j].value <= |b|
  {
    seq(|slots|, j requires 0 <= j < |slots| => Read(b, slots[j]))
  }

  /** What the event handler finds behind the pointers once everything is decoded. */
  lemma DecodingEnd(b: seq<byte>, p: seq<byte>, c: nat, out: nat, slots: seq<Slot>, done: seq<Setting>,
          name: Option<nat>, said: seq<byte>)
    requires Decoding(b, p, c, out, slots, done, name, said) && |p| <= c
    ensures forall j :: 0 <= j < |slots| ==> slots[j].name <= |b| && slots[j].value <= |b|
    ensures ReadAll(b, slots) == Settings(p, 1, [])
  {
    SlotsGrown(b[..out], b, slots, done);
    assert done + [] == done;
    forall j | 0 <= j < |slots| ensures slots[j].name <= |b| && slots[j].value <= |b| && Read(b, slots[j]) == done[j] {
      assert StringAt(b, slots[j].name, done[j].name) && StringAt(b, slots[j].value, done[j].value);
    }
  }

  method CountValues(buffer: array<byte>, size: nat) returns (count: nat)
    requires size <= buffer.Length
    ensures count == Count(buffer[..size])
  {
    count := 0;
    var i := 0;
    ghost var p := buffer[..size];
    while i != size
      invariant i <= size && Count(p) == count + Count(p[i..])
    {
      assert p[i..][1..] == p[i + 1..];
      if buffer[i] == VAL {
        count := count + 1;
      }
      i := i + 1;
    }
  }

  /** `_mssp_telnet`; allocation succeeds. The byte read behind the last string is not used. */
  method Decode(buffer: array<byte>, size: nat) returns (r: Outcome)
    requires size <= buffer.Length
    modifies buffer
    ensures r == Decoded(old(buffer[..size])) && buffer[size..] == old(buffer[size..])
  {
    hide Settings, SlotsAre, Decoding, Count, Moved, End;
    if size == 0 {
      return Nothing;
    }
    if buffer[0] != VAR {
      return Invalid;
    }
    ghost var p, b0 := buffer[..size], buffer[..];
    var count := CountValues(buffer, size);
    var slots: seq<Slot>, name: Option<nat>, next := [], None, buffer[0];
    var c: nat, out: nat := 1, 0;
    ghost var done: seq<Setting>, said: seq<byte> := [], [];
    DecodingStart(b0, p);
    while c < size
      invariant Decoding(buffer[..], p, c, out, slots, done, name, said) && (c <= size ==> next == p[c - 1])
      invariant buffer[size..] == b0[size..] && (name.None? ==> next == VAR)
      decreases size - c
    {
      ghost var b, c0 := buffer[..], c;
      DecodingSays(b, p, c, out, slots, done, name, said);
      var last := out;
      c, out := CopyString(buffer, c, out, size, p);
      MovedIs(b, buffer[..], p, c0, last, c, out);
      if next == VAR {
        DecodingName(b, buffer[..], p, c0, last, slots, done, name, said, c, out);
        name, said := Some(last), E.CString(p[c0..c]);
      } else {
        DecodingValue(b, buffer[..], p, c0, last, slots, done, name.value, said, c, out);
        slots, done := slots + [Slot(name.value, last)], done + [Setting(said, E.CString(p[c0..c]))];
      }
      if c < size {
        assert buffer[c] == buffer[c..size][0] == p[c];
        next := buffer[c];
      }
      c := c + 1;
    }
    DecodingEnd(buffer[..], p, c, out, slots, done, name, said);
    return Values(ReadAll(buffer[..], slots), count);
  }

  lemma MovedIs(b: seq<byte>, b': seq<byte>, p: seq<byte>, c: nat, out: nat, e: nat, out': nat)
    requires c < |p| <= |b| == |b'| && e == End(p, c) && out < out' <= e && out <= |b|
    requires b'[e..|p|] == p[e..] && b'[..out'] == b[..out] + p[c..e] + [0]
    ensures Moved(b, b', p, c, out, e, out')
  {
  }

  lemma DecodingSays(b: seq<byte>, p: seq<byte>, c: nat, out: nat, slots: seq<Slot>, done: seq<Setting>,
          name: Option<nat>, said: seq<byte>)
    requires Decoding(b, p, c, out, slots, done, name, said)
    ensures 0 < c && out < c && c - 1 <= |p| <= |b| && (c <= |p| ==> b[c..|p|] == p[c..] && Marks(p[c - 1]))
    ensures name.None? ==> c == 1
  {
  }
}
