/**
 TcpShell/libtelnet.c: what the writers put on the wire, and that the tracker on the other side gets
 back what was written.
 */
module TelnetCodec {
  import opened Bytes
  import opened O = TelnetOption
  import E = TelnetEnviron
  import S = TelnetMssp
  import opened TelnetTracker

  /** The bytes `telnet_send` sends. */
  function Escape(d: seq<byte>): seq<byte> {
    if d == [] then [] else (if d[0] == IAC then [IAC, IAC] else [d[0]]) + Escape(d[1..])
  }

  /** The bytes `telnet_send_text` sends; `tx` tells whether we transmit in binary. */
  function Text(tx: bool, d: seq<byte>): seq<byte> {
    if d == [] then [] else TextByte(tx, d[0]) + Text(tx, d[1..])
  }

  function TextByte(tx: bool, b: byte): seq<byte> {
    if b == IAC then [IAC, IAC]
    else if !tx && b == CR then [CR, 0]
    else if !tx && b == LF then [CR, LF]
    else [b]
  }

  /** The bytes `telnet_subnegotiation` sends. */
  function Sub(opt: byte, d: seq<byte>): seq<byte> {
    [IAC, SB, opt] + Escape(d) + [IAC, SE]
  }

  // ----- recursion from either end

  lemma {:induction false} EscapeAppend(a: seq<byte>, b: seq<byte>)
    ensures Escape(a + b) == Escape(a) + Escape(b)
    decreases |a|
  {
    if a == [] {
      assert a + b == b;
    } else {
      assert (a + b)[1..] == a[1..] + b;
      EscapeAppend(a[1..], b);
    }
  }

  lemma {:induction false} TextAppend(tx: bool, a: seq<byte>, b: seq<byte>)
    ensures Text(tx, a + b) == Text(tx, a) + Text(tx, b)
    decreases |a|
  {
    if a == [] {
      assert a + b == b;
    } else {
      assert (a + b)[1..] == a[1..] + b;
      TextAppend(tx, a[1..], b);
    }
  }

  lemma EscapeOne(b: byte)
    ensures Escape([b]) == if b == IAC then [IAC, IAC] else [b]
  {
    assert Escape([b][1..]) == [];
  }

  lemma TextOne(tx: bool, b: byte)
    ensures Text(tx, [b]) == TextByte(tx, b)
  {
    assert Text(tx, [b][1..]) == [];
  }

  lemma {:induction false} EscapeNone(s: seq<byte>)
    requires IAC !in s
    ensures Escape(s) == s
    decreases |s|
  {
    if s != [] {
      EscapeNone(s[1..]);
      assert s == [s[0]] + s[1..];
    }
  }

  lemma {:induction false} TextNone(tx: bool, s: seq<byte>)
    requires forall i :: 0 <= i < |s| ==> TextByte(tx, s[i]) == [s[i]]
    ensures Text(tx, s) == s
    decreases |s|
  {
    if s != [] {
      TextNone(tx, s[1..]);
      assert s == [s[0]] + s[1..];
    }
  }

  /** The bytes of all SEND events. */
  function Wire(es: seq<Event>): seq<byte> {
    if es == [] then [] else (if es[0].Send? then es[0].bytes else []) + Wire(es[1..])
  }

  lemma {:induction false} WireAppend(a: seq<Event>, b: seq<Event>)
    ensures Wire(a + b) == Wire(a) + Wire(b)
    decreases |a|
  {
    if a == [] {
      assert a + b == b;
    } else {
      assert (a + b)[1..] == a[1..] + b;
      WireAppend(a[1..], b);
    }
  }

  lemma WireOne(es: seq<Event>, w: seq<byte>)
    ensures Wire(es + [Send(w)]) == Wire(es) + w
  {
    WireAppend(es, [Send(w)]);
    assert Wire([Send(w)][1..]) == [];
  }

  function Concat(chunks: seq<seq<byte>>): seq<byte> {
    if chunks == [] then [] else chunks[0] + Concat(chunks[1..])
  }

  // ----- round trips

  /** Two bytes in a row. */
  lemma RunTwo(cfg: Config, t: Tracker, a: byte, b: byte)
    ensures var o := Step(cfg, t, a);
        Run(cfg, t, [a, b]) == Out(Step(cfg, o.t, b).t, o.events + Step(cfg, o.t, b).events)
    ensures NoMccp1(cfg, t, [a, b]) <==> !Mccp1(t, a) && !Mccp1(Step(cfg, t, a).t, b)
  {
    hide Run, NoMccp1, Step;
    RunByte(cfg, t, a);
    RunByte(cfg, Step(cfg, t, a).t, b);
    RunAppend(cfg, t, [a], [b]);
    NoMccp1Append(cfg, t, [a], [b]);
    assert [a] + [b] == [a, b];
  }

  /** The stretch w of the stream leaves the tracker as it was and yields the one byte b. */
  ghost predicate Yields(cfg: Config, t: Tracker, w: seq<byte>, b: byte) {
    Run(cfg, t, w) == Out(t, [Data([b])]) && NoMccp1(cfg, t, w)
  }

  lemma DataByteArrives(cfg: Config, t: Tracker, b: byte)
    requires t.state == SData && (!cfg.nvtEol || t.rx)
    ensures Yields(cfg, t, if b == IAC then [IAC, IAC] else [b], b)
  {
    RunByte(cfg, t, b);
    RunTwo(cfg, t, IAC, IAC);
    hide Run, NoMccp1;
    assert t.(state := SData) == t;
  }

  /** Data sent by `telnet_send` arrives unchanged where no end-of-line translation is done. */
  lemma {:induction false} DataArrives(cfg: Config, t: Tracker, d: seq<byte>)
    requires t.state == SData && (!cfg.nvtEol || t.rx)
    ensures Run(cfg, t, Escape(d)).t == t && Flat(Run(cfg, t, Escape(d)).events) == Singles(d)
        && NoMccp1(cfg, t, Escape(d))
    decreases |d|
  {
    if d != [] {
      DataByteArrives(cfg, t, d[0]);
      hide Run, NoMccp1, Flat, Yields;
      DataArrives(cfg, t, d[1..]);
      Piece(cfg, t, if d[0] == IAC then [IAC, IAC] else [d[0]], Escape(d[1..]), d[0], d[1..]);
      assert d == [d[0]] + d[1..];
    }
  }

  /** Such a stretch, and what follows it. */
  lemma Piece(cfg: Config, t: Tracker, w: seq<byte>, rest: seq<byte>, b: byte, d: seq<byte>)
    requires Yields(cfg, t, w, b)
    requires Run(cfg, t, rest).t == t && Flat(Run(cfg, t, rest).events) == Singles(d) && NoMccp1(cfg, t, rest)
    ensures Run(cfg, t, w + rest).t == t && Flat(Run(cfg, t, w + rest).events) == Singles([b] + d)
        && NoMccp1(cfg, t, w + rest)
  {
    hide Run, NoMccp1, Flat, Singles;
    RunAppend(cfg, t, w, rest);
    NoMccp1Append(cfg, t, w, rest);
    FlatAppend([Data([b])], Run(cfg, t, rest).events);
    FlatOne(Data([b]));
    SinglesAppend([b], d);
  }

  /**
   Text sent by `telnet_send_text` arrives as the same bytes at a
   non-binary receiver (RFC 854, "The NVT Printer and Keyboard").
   */
  lemma {:induction false} TextArrives(cfg: Config, t: Tracker, d: seq<byte>)
    requires t.state == SData && cfg.nvtEol && !t.rx
    ensures Run(cfg, t, Text(false, d)).t == t && Flat(Run(cfg, t, Text(false, d)).events) == Singles(d)
        && NoMccp1(cfg, t, Text(false, d))
    decreases |d|
  {
    if d != [] {
      TextByteArrives(cfg, t, d[0]);
      hide Run, NoMccp1, Flat, Yields, TextByte;
      TextArrives(cfg, t, d[1..]);
      Piece(cfg, t, TextByte(false, d[0]), Text(false, d[1..]), d[0], d[1..]);
      assert d == [d[0]] + d[1..];
    }
  }

  lemma TextByteArrives(cfg: Config, t: Tracker, b: byte)
    requires t.state == SData && cfg.nvtEol && !t.rx
    ensures Yields(cfg, t, TextByte(false, b), b)
  {
    var w := TextByte(false, b);
    RunByte(cfg, t, b);
    RunTwo(cfg, t, w[0], if |w| == 2 then w[1] else 0);
    hide Run, NoMccp1;
    assert w == if |w| == 2 then [w[0], w[1]] else [b];
    assert t.(state := SData) == t;
  }

  lemma PayloadByteArrives(cfg: Config, t: Tracker, b: byte)
    requires t.state == SSbData && t.opt != COMPRESS && |t.sub| < MAX_SUB
    ensures var w := if b == IAC then [IAC, IAC] else [b];
        Run(cfg, t, w) == Out(t.(sub := t.sub + [b]), []) && NoMccp1(cfg, t, w)
  {
    RunByte(cfg, t, b);
    RunTwo(cfg, t, IAC, IAC);
    hide Run, NoMccp1;
  }

  lemma PayloadStep(cfg: Config, t: Tracker, b: byte, rest: seq<byte>, d: seq<byte>)
    requires t.state == SSbData && t.opt != COMPRESS && |t.sub| < MAX_SUB
    requires var u := t.(sub := t.sub + [b]);
        Run(cfg, u, rest) == Out(u.(sub := u.sub + d), []) && NoMccp1(cfg, u, rest)
    ensures var w := (if b == IAC then [IAC, IAC] else [b]) + rest;
      Run(cfg, t, w) == Out(t.(sub := t.sub + ([b] + d)), []) && NoMccp1(cfg, t, w)
  {
    hide Run, NoMccp1, Step;
    var w := if b == IAC then [IAC, IAC] else [b];
    PayloadByteArrives(cfg, t, b);
    RunAppend(cfg, t, w, rest);
    NoMccp1Append(cfg, t, w, rest);
    assert t.sub + [b] + d == t.sub + ([b] + d);
  }

  /** An escaped payload is buffered whole, across every size of the buffer. */
  lemma {:induction false} PayloadArrives(cfg: Config, t: Tracker, d: seq<byte>)
    requires t.state == SSbData && t.opt != COMPRESS && |t.sub| + |d| <= MAX_SUB
    ensures Run(cfg, t, Escape(d)) == Out(t.(sub := t.sub + d), []) && NoMccp1(cfg, t, Escape(d))
    decreases |d|
  {
    if d == [] {
      assert t.sub + d == t.sub;
    } else {
      hide Run, NoMccp1;
      PayloadArrives(cfg, t.(sub := t.sub + [d[0]]), d[1..]);
      PayloadStep(cfg, t, d[0], Escape(d[1..]), d[1..]);
      assert [d[0]] + d[1..] == d;
    }
  }

  /** A sub-negotiation of up to MAX_SUB bytes arrives as one event with the same payload. */
  lemma SubArrives(cfg: Config, t: Tracker, opt: byte, d: seq<byte>)
    requires t.state == SData && opt != COMPRESS && |d| <= MAX_SUB && t.sub == []
    ensures Run(cfg, t, Sub(opt, d)) == Out(t.(opt := opt), SubEvents(opt, d)) && NoMccp1(cfg, t, Sub(opt, d))
  {
    var u := t.(state := SSbData, opt := opt, sub := []);
    var v := u.(sub := d);
    SubHead(cfg, t, opt);
    PayloadArrives(cfg, u, d);
    assert [] + d == d;
    SubTail(cfg, v);
    hide Run, Step, NoMccp1, SubEvents;
    RunAppend(cfg, u, Escape(d), [IAC, SE]);
    NoMccp1Append(cfg, u, Escape(d), [IAC, SE]);
    RunAppend(cfg, t, [IAC, SB, opt], Escape(d) + [IAC, SE]);
    NoMccp1Append(cfg, t, [IAC, SB, opt], Escape(d) + [IAC, SE]);
    assert Sub(opt, d) == [IAC, SB, opt] + (Escape(d) + [IAC, SE]);
  }

  lemma SubHead(cfg: Config, t: Tracker, opt: byte)
    requires t.state == SData
    ensures Run(cfg, t, [IAC, SB, opt]) == Out(t.(state := SSbData, opt := opt, sub := []), [])
        && NoMccp1(cfg, t, [IAC, SB, opt])
  {
    var u := t.(state := SSb);
    RunTwo(cfg, t, IAC, SB);
    RunByte(cfg, u, opt);
    hide Run, NoMccp1;
    RunAppend(cfg, t, [IAC, SB], [opt]);
    NoMccp1Append(cfg, t, [IAC, SB], [opt]);
    assert [IAC, SB] + [opt] == [IAC, SB, opt];
  }

  lemma SubTail(cfg: Config, t: Tracker)
    requires t.state == SSbData
    ensures Run(cfg, t, [IAC, SE]) == Out(t.(state := SData, sub := []), SubEvents(t.opt, t.sub))
        && NoMccp1(cfg, t, [IAC, SE])
  {
    RunTwo(cfg, t, IAC, SE);
    hide Run, NoMccp1, SubEvents;
    assert [] + SubEvents(t.opt, t.sub) == SubEvents(t.opt, t.sub);
  }

  // ----- ZMP

  /** The payload of `telnet_send_zmp`: every argument with its NUL. */
  function ZmpPayload(args: seq<seq<byte>>): seq<byte> {
    if args == [] then [] else args[0] + [0] + ZmpPayload(args[1..])
  }

  lemma {:induction false} CStringOf(s: seq<byte>, rest: seq<byte>)
    requires 0 !in s
    ensures E.CString(s + [0] + rest) == s
    decreases |s|
  {
    var w := s + [0] + rest;
    if s != [] {
      assert w[1..] == s[1..] + [0] + rest;
      CStringOf(s[1..], rest);
      assert s == [s[0]] + s[1..];
    }
  }

  lemma {:induction false} ArgsOf(args: seq<seq<byte>>)
    requires forall i :: 0 <= i < |args| ==> 0 !in args[i]
    ensures Args(ZmpPayload(args)) == args
    ensures args != [] ==> ZmpPayload(args) != [] && ZmpPayload(args)[|ZmpPayload(args)| - 1] == 0
    decreases |args|
  {
    if args != [] {
      var s, rest := args[0], ZmpPayload(args[1..]);
      CStringOf(s, rest);
      ArgsOf(args[1..]);
      assert ZmpPayload(args) == s + [0] + rest && (s + [0] + rest)[|s| + 1..] == rest;
      assert args == [s] + args[1..];
      if |args| == 1 {
        assert rest == [];
      }
    }
  }

  lemma {:induction false} CStringEnds(p: seq<byte>)
    ensures var s := E.CString(p);
      |s| <= |p| && s == p[..|s|] && 0 !in s && (|s| < |p| ==> p[|s|] == 0)
    decreases |p|
  {
    if p != [] && p[0] != 0 {
      CStringEnds(p[1..]);
      var s := E.CString(p[1..]);
      assert p[..1 + |s|] == [p[0]] + p[1..][..|s|];
    }
  }

  /** The first argument of such a payload, and the payload of the others. */
  lemma FirstArg(p: seq<byte>)
    requires p != [] && p[|p| - 1] == 0
    ensures var s := E.CString(p);
      && |s| < |p| && 0 !in s && var rest := p[|s| + 1..];
      p == s + [0] + rest && Args(p) == [s] + Args(rest) && (rest != [] ==> rest[|rest| - 1] == 0)
  {
    hide E.CString;
    CStringEnds(p);
    var s := E.CString(p);
    assert 0 in p && s != p;
  }

  /** The arguments of a payload that ends in a NUL make up the payload. */
  lemma {:induction false} ArgsBack(p: seq<byte>)
    requires p != [] ==> p[|p| - 1] == 0
    ensures ZmpPayload(Args(p)) == p && forall i :: 0 <= i < |Args(p)| ==> 0 !in Args(p)[i]
    decreases |p|
  {
    if p != [] {
      hide E.CString, Args;
      FirstArg(p);
      var s := E.CString(p);
      var rest := p[|s| + 1..];
      ArgsBack(rest);
      assert ([s] + Args(rest))[1..] == Args(rest);
    } else {
      assert Args(p) == [];
    }
  }

  lemma NoArgs()
    ensures ZmpPayload([]) == []
  {
  }

  /** The ZMP event is raised for exactly the payloads that some arguments make up, with these. */
  lemma ZmpExactly(p: seq<byte>, args: seq<seq<byte>>)
    ensures ZmpEvents(p) == [Zmp(args)] <==>
        args != [] && (forall i :: 0 <= i < |args| ==> 0 !in args[i]) && p == ZmpPayload(args)
    ensures !(p != [] && p[|p| - 1] == 0) <==> ZmpEvents(p) == [Warning(ZmpIncomplete)]
  {
    hide Args, ZmpPayload;
    if p != [] && p[|p| - 1] == 0 {
      ArgsBack(p);
      NoArgs();
    }
    if args != [] && (forall i :: 0 <= i < |args| ==> 0 !in args[i]) && p == ZmpPayload(args) {
      ArgsOf(args);
    }
  }

  /** A ZMP argument list comes back with the same arguments. */
  lemma ZmpArrives(cfg: Config, t: Tracker, args: seq<seq<byte>>)
    requires t.state == SData && t.sub == [] && args != [] && (forall i :: 0 <= i < |args| ==> 0 !in args[i])
        && |ZmpPayload(args)| <= MAX_SUB
    ensures Run(cfg, t, Sub(ZMP, ZmpPayload(args)))
        == Out(t.(opt := ZMP), [Subnegotiation(ZMP, ZmpPayload(args)), Zmp(args)])
  {
    SubArrives(cfg, t, ZMP, ZmpPayload(args));
    ArgsOf(args);
  }

  // ----- NEW-ENVIRON

  /** Entries written by the NEW-ENVIRON writers come back as one event with the same names and values. */
  lemma EnvironArrives(cfg: Config, t: Tracker, cmd: byte, es: seq<E.Entry>)
    requires t.state == SData && t.sub == [] && cmd in {E.IS, E.SEND, E.INFO}
    requires (forall i :: 0 <= i < |es| ==> E.PlainEntry(es[i])) && |[cmd] + E.Encode(es)| <= MAX_SUB
    ensures Run(cfg, t, Sub(NEW_ENVIRON, [cmd] + E.Encode(es)))
         == Out(t.(opt := NEW_ENVIRON),
             [Subnegotiation(NEW_ENVIRON, [cmd] + E.Encode(es)), Environ(cmd, E.AllMeant(es))])
  {
    hide Run, Step, Sub, NoMccp1, E.Encode, E.Decoded, E.AllMeant;
    SubArrives(cfg, t, NEW_ENVIRON, [cmd] + E.Encode(es));
    E.EnvironRoundTrip(cmd, es);
    EnvironEvent([cmd] + E.Encode(es), cmd, E.AllMeant(es));
  }

  lemma EnvironEvent(p: seq<byte>, cmd: byte, vars: seq<E.Var>)
    requires E.Decoded(p) == E.Vars(cmd, vars)
    ensures SubEvents(NEW_ENVIRON, p) == [Subnegotiation(NEW_ENVIRON, p), Environ(cmd, vars)]
  {
  }

  // ----- MSSP and the terminal type

  /** Settings come back as one event, unless an empty value at the end of the payload is lost. */
  lemma MsspArrives(cfg: Config, t: Tracker, parts: seq<S.Part>)
    requires t.state == SData && t.sub == [] && parts != [] && parts[0].Name?
    requires (forall i :: 0 <= i < |parts| ==> S.Readable(parts[i].s)) && |S.Written(parts)| <= MAX_SUB
    ensures S.Written(parts) != []
    ensures var p, all := S.Written(parts), S.Pairs(parts, []);
      p[|p| - 1] != S.VAL <==>
        Run(cfg, t, Sub(MSSP, p)) == Out(t.(opt := MSSP), [Subnegotiation(MSSP, p), Mssp(all, |all|)])
  {
    var p := S.Written(parts);
    SubArrives(cfg, t, MSSP, p);
    S.MsspRoundTrip(parts);
    hide Run, Sub, S.Written, S.Readable, S.Pairs;
    assert SubEvents(MSSP, p) == [Subnegotiation(MSSP, p), Mssp(S.Decoded(p).settings, S.Decoded(p).announced)];
  }

  lemma {:induction false} CStringAll(s: seq<byte>)
    requires 0 !in s
    ensures E.CString(s) == s
    decreases |s|
  {
    if s != [] {
      CStringAll(s[1..]);
      assert s == [s[0]] + s[1..];
    }
  }

  /** The terminal type told comes back as it was, and so does the question for it. */
  lemma TtypeArrives(cfg: Config, t: Tracker, name: seq<byte>)
    requires t.state == SData && t.sub == [] && 0 !in name && |name| < MAX_SUB
    ensures var p := [TTYPE_IS] + name;
      Run(cfg, t, Sub(TTYPE, p)) == Out(t.(opt := TTYPE), [Subnegotiation(TTYPE, p), Ttype(TTYPE_IS, name)])
    ensures Run(cfg, t, Sub(TTYPE, [TTYPE_SEND]))
         == Out(t.(opt := TTYPE), [Subnegotiation(TTYPE, [TTYPE_SEND]), Ttype(TTYPE_SEND, [])])
  {
    var p := [TTYPE_IS] + name;
    SubArrives(cfg, t, TTYPE, p);
    SubArrives(cfg, t, TTYPE, [TTYPE_SEND]);
    CStringAll(name);
    assert p[1..] == name;
  }

  /** NEW-ENVIRON entries with any bytes in them come back, too, if those that must be are escaped. */
  lemma EscapedArrives(cfg: Config, t: Tracker, cmd: byte, es: seq<E.Item>)
    requires t.state == SData && t.sub == [] && cmd in {E.IS, E.SEND, E.INFO} && es != []
    requires (forall i :: 0 <= i < |es| ==> E.LegalItem(es[i])) && |[cmd] + E.AllWritten(es)| <= MAX_SUB
    ensures var p := [cmd] + E.AllWritten(es);
      Run(cfg, t, Sub(NEW_ENVIRON, p))
      == Out(t.(opt := NEW_ENVIRON), [Subnegotiation(NEW_ENVIRON, p),
             if p[|p| - 1] == E.ESC then Warning(EnvironEsc) else Environ(cmd, E.AllRead(es))])
  {
    hide Run, Step, Sub, NoMccp1, E.AllWritten, E.Decoded, E.AllRead, E.LegalItem;
    SubArrives(cfg, t, NEW_ENVIRON, [cmd] + E.AllWritten(es));
    E.EscapedRoundTrip(cmd, es);
  }
}
