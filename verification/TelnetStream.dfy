/**
 TcpShell/libtelnet.c: what a whole input stream means. A stream is a list of characters, commands,
 negotiations and sub-negotiations, each with its spelling on the wire; the tracker hands over exactly
 these, in their order, however they are mixed.
 */
module TelnetStream {
  import opened Bytes
  import opened O = TelnetOption
  import E = TelnetEnviron
  import S = TelnetMssp
  import opened TelnetStore
  import opened TelnetTracker
  import opened TelnetCodec

  /**
   One thing a stream says. `Bare` is CR followed by a byte that makes no end of line. `Torn` is a
   sub-negotiation broken off by a command, `Lost` one after whose ENVIRON values that byte is lost,
   and `Endless` the first byte too many of one.
   */
  datatype Item =
    | Char(b: byte) | Bare(b: byte) | Plain(cmd: byte) | Ask(verb: Verb, opt: byte)
    | Whole(opt: byte, bytes: seq<byte>) | Torn(opt: byte, bytes: seq<byte>, cmd: byte)
    | Lost(opt: byte, bytes: seq<byte>, b: byte, cmd: byte) | Endless(opt: byte, bytes: seq<byte>, b: byte)

  /** A command without arguments. */
  predicate IsPlain(b: byte) {
    b !in {SB, WILL, WONT, DO, DONT, IAC}
  }

  /** Ends of line are translated. */
  predicate Translates(cfg: Config, t: Tracker) {
    cfg.nvtEol && !t.rx
  }

  /** The bytes of an item on the wire; text is written as the receiver reads it. */
  function Spelled(cfg: Config, t: Tracker, it: Item): seq<byte> {
    match it {
      case Char(b) => TextByte(!Translates(cfg, t), b)
      case Bare(b) => [CR, b]
      case Plain(cmd) => [IAC, cmd]
      case Ask(verb, opt) => [IAC, Code(verb), opt]
      case Whole(opt, bytes) => [IAC, SB, opt] + Escape(bytes) + [IAC, SE]
      case Torn(opt, bytes, cmd) => [IAC, SB, opt] + Escape(bytes) + [IAC, cmd]
      case Lost(opt, bytes, b, cmd) => [IAC, SB, opt] + Escape(bytes) + [IAC, b, cmd]
      case Endless(opt, bytes, b) => [IAC, SB, opt] + Escape(bytes) + Escape([b])
    }
  }

  /**
   A payload is read until something ends it; whether it holds
   ENVIRON values tells what a byte that breaks it off is.
   */
  predicate Legal(cfg: Config, t: Tracker, it: Item) {
    match it {
      case Char(_) => true
      case Bare(b) => Translates(cfg, t) && b != LF && b != 0
      case Plain(cmd) => IsPlain(cmd)
      case Ask(_, _) => true
      case Whole(opt, bytes) => opt != COMPRESS && |bytes| <= MAX_SUB
      case Torn(opt, bytes, cmd) =>
        opt != COMPRESS && |bytes| <= MAX_SUB && IsPlain(cmd) && cmd != SE && !SubAgain(opt, bytes)
      case Lost(opt, bytes, b, cmd) =>
        |bytes| <= MAX_SUB && b != SE && b != IAC && IsPlain(cmd) && SubAgain(opt, bytes)
      case Endless(opt, bytes, _) => opt != COMPRESS && |bytes| == MAX_SUB
    }
  }

  /** What the application is to hear of an item, apart from answers to it. */
  function Meant(it: Item): seq<Event> {
    match it {
      case Char(b) => [Data([b])]
      case Bare(b) => [Data([CR]), Data([b])]
      case Plain(cmd) => [Iac(cmd)]
      case Ask(_, _) => []
      case Whole(opt, bytes) => [Subnegotiation(opt, bytes)]
      case Torn(opt, bytes, cmd) => [Warning(UnexpectedByte(cmd)), Subnegotiation(opt, bytes), Iac(cmd)]
      case Lost(opt, bytes, b, cmd) => [Warning(UnexpectedByte(b)), Subnegotiation(opt, bytes), Iac(cmd)]
      case Endless(_, _, _) => [Warning(Overflow)]
    }
  }

  /** What is left of an item in the tracker. */
  function Effect(cfg: Config, t: Tracker, it: Item): Tracker {
    match it {
      case Char(_) | Bare(_) | Plain(_) => t
      case Ask(verb, opt) => Negotiate(cfg, t, verb, opt).t
      case Whole(_, _) | Torn(_, _, _) | Lost(_, _, _, _) | Endless(_, _, _) => t.(opt := it.opt)
    }
  }

  // ----- several items

  function AllSpelled(cfg: Config, t: Tracker, items: seq<Item>): seq<byte>
    decreases |items|
  {
    if items == [] then [] else Spelled(cfg, t, items[0]) + AllSpelled(cfg, Effect(cfg, t, items[0]), items[1..])
  }

  predicate AllLegal(cfg: Config, t: Tracker, items: seq<Item>)
    decreases |items|
  {
    items == [] || (Legal(cfg, t, items[0]) && AllLegal(cfg, Effect(cfg, t, items[0]), items[1..]))
  }

  function AllMeant(items: seq<Item>): seq<Event> {
    if items == [] then [] else Meant(items[0]) + AllMeant(items[1..])
  }

  function AllEffects(cfg: Config, t: Tracker, items: seq<Item>): Tracker
    decreases |items|
  {
    if items == [] then t else AllEffects(cfg, Effect(cfg, t, items[0]), items[1..])
  }

  // ----- what the application hears of a trace

  /** Input and what is wrong with it, but not answers, option events and decoded payloads. */
  predicate Raw(e: Event) {
    match e {
      case Data(_) | Iac(_) | Subnegotiation(_, _) | Overrun => true
      case Warning(c) => c.UnexpectedByte? || c.Overflow?
      case _ => false
    }
  }

  function Heard(es: seq<Event>): seq<Event> {
    if es == [] then [] else
      (if es[0].Data? then Singles(es[0].bytes) else if Raw(es[0]) then [es[0]] else []) + Heard(es[1..])
  }

  lemma {:induction false} HeardAppend(a: seq<Event>, b: seq<Event>)
    ensures Heard(a + b) == Heard(a) + Heard(b)
    decreases |a|
  {
    if a == [] {
      assert a + b == b;
    } else {
      assert (a + b)[1..] == a[1..] + b;
      HeardAppend(a[1..], b);
    }
  }

  lemma HeardOne(e: Event)
    ensures Heard([e]) == if e.Data? then Singles(e.bytes) else if Raw(e) then [e] else []
  {
    assert Heard([e][1..]) == [];
  }

  lemma {:induction false} HeardNone(es: seq<Event>)
    requires forall i :: 0 <= i < |es| ==> !Raw(es[i])
    ensures Heard(es) == []
    decreases |es|
  {
    if es != [] {
      HeardNone(es[1..]);
    }
  }

  /** A decoded payload adds nothing to that. */
  lemma SubHeard(opt: byte, p: seq<byte>)
    ensures Heard(SubEvents(opt, p)) == [Subnegotiation(opt, p)]
  {
    var rest := SubEvents(opt, p)[1..];
    hide E.Decoded, S.Decoded, Args;
    assert SubEvents(opt, p) == [Subnegotiation(opt, p)] + rest;
    HeardNone(rest);
    HeardOne(Subnegotiation(opt, p));
    HeardAppend([Subnegotiation(opt, p)], rest);
  }

  /** Nor does a negotiation. */
  lemma AskHeard(cfg: Config, t: Tracker, verb: Verb, opt: byte)
    ensures Heard(Negotiate(cfg, t, verb, opt).events) == []
    ensures var u := Negotiate(cfg, t, verb, opt).t; u.state == t.state && u.sub == t.sub
  {
    hide Supports, Lookup, AskedUs, AskedHim, Stored, Heard;
    HeardNone(Negotiate(cfg, t, verb, opt).events);
  }

  // ----- one item

  /** The stretch w of the stream leaves u, and that is heard of it. */
  ghost predicate Says(cfg: Config, t: Tracker, w: seq<byte>, u: Tracker, heard: seq<Event>) {
    Run(cfg, t, w).t == u && Heard(Run(cfg, t, w).events) == heard && NoMccp1(cfg, t, w)
  }

  lemma CharArrives(cfg: Config, t: Tracker, b: byte)
    requires t.state == SData
    ensures Says(cfg, t, TextByte(!Translates(cfg, t), b), t, [Data([b])])
  {
    if Translates(cfg, t) {
      TextByteArrives(cfg, t, b);
    } else {
      DataByteArrives(cfg, t, b);
    }
    hide Run, NoMccp1;
    HeardOne(Data([b]));
    assert Singles([b]) == [Data([b])];
  }

  lemma BareArrives(cfg: Config, t: Tracker, b: byte)
    requires t.state == SData && Translates(cfg, t) && b != LF && b != 0
    ensures Says(cfg, t, [CR, b], t, [Data([CR]), Data([b])])
  {
    hide Run, NoMccp1, Command, Negotiate, Broken, SubEvents, Heard, Raw;
    RunTwo(cfg, t, CR, b);
    assert t.(state := SData) == t;
    assert Run(cfg, t, [CR, b]).events == [Data([CR])] + [Data([b])];
    HeardAppend([Data([CR])], [Data([b])]);
    HeardOne(Data([CR]));
    HeardOne(Data([b]));
    assert Singles([CR]) == [Data([CR])] && Singles([b]) == [Data([b])];
  }

  /** IAC and a byte that is no part of anything else. */
  lemma PlainArrives(cfg: Config, t: Tracker, cmd: byte)
    requires t.state == SData && IsPlain(cmd)
    ensures Run(cfg, t, [IAC, cmd]) == Out(t, [Iac(cmd)]) && NoMccp1(cfg, t, [IAC, cmd])
    ensures Says(cfg, t, [IAC, cmd], t, [Iac(cmd)])
  {
    RunTwo(cfg, t, IAC, cmd);
    hide Run, NoMccp1;
    assert t.(state := SData) == t;
    HeardOne(Iac(cmd));
  }

  lemma AskArrives(cfg: Config, t: Tracker, verb: Verb, opt: byte)
    requires t.state == SData
    ensures Says(cfg, t, [IAC, Code(verb), opt], Negotiate(cfg, t, verb, opt).t, [])
  {
    NegotiationArrives(cfg, t, verb, opt);
    AskHeard(cfg, t, verb, opt);
    AskFree(cfg, t, verb, opt);
  }

  lemma AskFree(cfg: Config, t: Tracker, verb: Verb, opt: byte)
    requires t.state == SData
    ensures NoMccp1(cfg, t, [IAC, Code(verb), opt])
  {
    var u := t.(state := SVerb(verb));
    assert Step(cfg, t, IAC).t == t.(state := SIac) && Step(cfg, t.(state := SIac), Code(verb)).t == u;
    RunTwo(cfg, t, IAC, Code(verb));
    RunByte(cfg, u, opt);
    hide Run, NoMccp1, Step;
    NoMccp1Append(cfg, t, [IAC, Code(verb)], [opt]);
    assert [IAC, Code(verb)] + [opt] == [IAC, Code(verb), opt];
  }

  /** The start of a sub-negotiation, whatever ends it. */
  lemma PayloadHeld(cfg: Config, t: Tracker, opt: byte, d: seq<byte>)
    requires t.state == SData && opt != COMPRESS && |d| <= MAX_SUB
    ensures var w := [IAC, SB, opt] + Escape(d);
      Run(cfg, t, w) == Out(t.(state := SSbData, opt := opt, sub := d), []) && NoMccp1(cfg, t, w)
  {
    var u := t.(state := SSbData, opt := opt, sub := []);
    SubHead(cfg, t, opt);
    PayloadArrives(cfg, u, d);
    assert [] + d == d;
    hide Run, NoMccp1, Step;
    RunAppend(cfg, t, [IAC, SB, opt], Escape(d));
    NoMccp1Append(cfg, t, [IAC, SB, opt], Escape(d));
  }

  /** A sub-negotiation with what ends it. */
  lemma PayloadEnds(cfg: Config, t: Tracker, opt: byte, d: seq<byte>, tail: seq<byte>, u: Tracker, heard: seq<Event>)
    requires t.state == SData && opt != COMPRESS && |d| <= MAX_SUB
    requires Says(cfg, t.(state := SSbData, opt := opt, sub := d), tail, u, heard)
    ensures Says(cfg, t, [IAC, SB, opt] + Escape(d) + tail, u, heard)
  {
    PayloadHeld(cfg, t, opt, d);
    hide Run, NoMccp1, Heard;
    RunAppend(cfg, t, [IAC, SB, opt] + Escape(d), tail);
    NoMccp1Append(cfg, t, [IAC, SB, opt] + Escape(d), tail);
    assert forall es: seq<Event> :: [] + es == es;
  }

  lemma TailWhole(cfg: Config, t: Tracker)
    requires t.state == SSbData
    ensures Says(cfg, t, [IAC, SE], t.(state := SData, sub := []), [Subnegotiation(t.opt, t.sub)])
  {
    SubTail(cfg, t);
    SubHeard(t.opt, t.sub);
  }

  lemma TailTorn(cfg: Config, t: Tracker, cmd: byte)
    requires t.state == SSbData && t.opt != COMPRESS && IsPlain(cmd) && cmd != SE && !SubAgain(t.opt, t.sub)
    ensures Says(cfg, t, [IAC, cmd], t.(state := SData, sub := []),
        [Warning(UnexpectedByte(cmd)), Subnegotiation(t.opt, t.sub), Iac(cmd)])
  {
    var es := SubEvents(t.opt, t.sub);
    RunTwo(cfg, t, IAC, cmd);
    SubHeard(t.opt, t.sub);
    hide Run, NoMccp1, SubEvents, Heard;
    assert Run(cfg, t, [IAC, cmd]).events == [Warning(UnexpectedByte(cmd))] + es + [Iac(cmd)];
    HeardAppend([Warning(UnexpectedByte(cmd))] + es, [Iac(cmd)]);
    HeardAppend([Warning(UnexpectedByte(cmd))], es);
    HeardOne(Warning(UnexpectedByte(cmd)));
    HeardOne(Iac(cmd));
  }

  lemma TailLost(cfg: Config, t: Tracker, b: byte, cmd: byte)
    requires t.state == SSbData && b != SE && b != IAC && IsPlain(cmd) && SubAgain(t.opt, t.sub)
    ensures Says(cfg, t, [IAC, b, cmd], t.(state := SData, sub := []),
        [Warning(UnexpectedByte(b)), Subnegotiation(t.opt, t.sub), Iac(cmd)])
  {
    var es, u := SubEvents(t.opt, t.sub), t.(state := SIac, sub := []);
    RunTwo(cfg, t, IAC, b);
    RunByte(cfg, u, cmd);
    SubHeard(t.opt, t.sub);
    hide Run, NoMccp1, SubEvents, Heard, SubAgain;
    RunAppend(cfg, t, [IAC, b], [cmd]);
    NoMccp1Append(cfg, t, [IAC, b], [cmd]);
    assert [IAC, b] + [cmd] == [IAC, b, cmd];
    assert Run(cfg, t, [IAC, b]) == Out(u, [Warning(UnexpectedByte(b))] + es);
    HeardAppend([Warning(UnexpectedByte(b))] + es, [Iac(cmd)]);
    HeardAppend([Warning(UnexpectedByte(b))], es);
    HeardOne(Warning(UnexpectedByte(b)));
    HeardOne(Iac(cmd));
  }

  lemma TailEndless(cfg: Config, t: Tracker, b: byte)
    requires t.state == SSbData && t.opt != COMPRESS && |t.sub| == MAX_SUB
    ensures Says(cfg, t, Escape([b]), t.(state := SData, sub := []), [Warning(Overflow)])
  {
    EscapeOne(b);
    RunByte(cfg, t, b);
    RunTwo(cfg, t, IAC, IAC);
    hide Run, NoMccp1, Escape;
    assert Run(cfg, t, if b == IAC then [IAC, IAC] else [b]).events == [Warning(Overflow)];
    HeardOne(Warning(Overflow));
  }

  lemma ItemArrives(cfg: Config, t: Tracker, it: Item)
    requires t.state == SData && t.sub == [] && Legal(cfg, t, it)
    ensures Says(cfg, t, Spelled(cfg, t, it), Effect(cfg, t, it), Meant(it))
    ensures Effect(cfg, t, it).state == SData && Effect(cfg, t, it).sub == []
  {
    hide Says, Negotiate, Escape, TextByte, E.Decoded;
    match it {
      case Char(b) => CharArrives(cfg, t, b);
      case Bare(b) => BareArrives(cfg, t, b);
      case Plain(cmd) => PlainArrives(cfg, t, cmd);
      case Ask(verb, opt) =>
        AskArrives(cfg, t, verb, opt);
        AskHeard(cfg, t, verb, opt);
      case Whole(opt, bytes) =>
        TailWhole(cfg, t.(state := SSbData, opt := opt, sub := bytes));
        PayloadEnds(cfg, t, opt, bytes, [IAC, SE], t.(opt := opt), Meant(it));
      case Torn(opt, bytes, cmd) =>
        TailTorn(cfg, t.(state := SSbData, opt := opt, sub := bytes), cmd);
        PayloadEnds(cfg, t, opt, bytes, [IAC, cmd], t.(opt := opt), Meant(it));
      case Lost(opt, bytes, b, cmd) =>
        TailLost(cfg, t.(state := SSbData, opt := opt, sub := bytes), b, cmd);
        PayloadEnds(cfg, t, opt, bytes, [IAC, b, cmd], t.(opt := opt), Meant(it));
      case Endless(opt, bytes, b) =>
        TailEndless(cfg, t.(state := SSbData, opt := opt, sub := bytes), b);
        PayloadEnds(cfg, t, opt, bytes, Escape([b]), t.(opt := opt), Meant(it));
    }
  }

  // ----- the stream

  /** The application hears exactly what the stream says, in its order. */
  lemma {:induction false} StreamArrives(cfg: Config, t: Tracker, items: seq<Item>)
    requires t.state == SData && t.sub == [] && AllLegal(cfg, t, items)
    ensures Says(cfg, t, AllSpelled(cfg, t, items), AllEffects(cfg, t, items), AllMeant(items))
    ensures AllEffects(cfg, t, items).state == SData && AllEffects(cfg, t, items).sub == []
    decreases |items|
  {
    if items != [] {
      hide Run, NoMccp1, Heard, Spelled, Effect, Legal, Meant;
      ItemArrives(cfg, t, items[0]);
      var u, w := Effect(cfg, t, items[0]), Spelled(cfg, t, items[0]);
      StreamArrives(cfg, u, items[1..]);
      RunAppend(cfg, t, w, AllSpelled(cfg, u, items[1..]));
      NoMccp1Append(cfg, t, w, AllSpelled(cfg, u, items[1..]));
      HeardAppend(Run(cfg, t, w).events, Run(cfg, u, AllSpelled(cfg, u, items[1..])).events);
    }
  }

  /** The invalid sequence that starts version 1 of the compression protocol is taken away whole. */
  lemma Mccp1Discarded(cfg: Config, t: Tracker)
    requires t.state == SData && t.sub == []
    ensures Run(cfg, t, [IAC, SB, COMPRESS, WILL, SE]) == Out(t.(opt := COMPRESS), [])
  {
    var u := t.(state := SSbData, opt := COMPRESS);
    SubHead(cfg, t, COMPRESS);
    RunTwo(cfg, u, WILL, SE);
    hide Run, NoMccp1;
    RunAppend(cfg, t, [IAC, SB, COMPRESS], [WILL, SE]);
    assert [IAC, SB, COMPRESS] + [WILL, SE] == [IAC, SB, COMPRESS, WILL, SE];
  }

  lemma HeardSingles(d: seq<byte>)
    ensures Heard(Singles(d)) == Singles(d)
    decreases |d|
  {
    if d != [] {
      HeardSingles(d[1..]);
      assert Singles(d)[1..] == Singles(d[1..]);
      assert Singles([d[0]]) == [Data([d[0]])];
      assert Singles(d) == [Data([d[0]])] + Singles(d[1..]);
    }
  }

  /** How data was joined does not show. */
  lemma {:induction false} HeardFlat(es: seq<Event>)
    ensures Heard(Flat(es)) == Heard(es)
    decreases |es|
  {
    if es != [] {
      HeardFlat(es[1..]);
      var one := if es[0].Data? then Singles(es[0].bytes) else [es[0]];
      HeardAppend(one, Flat(es[1..]));
      if es[0].Data? {
        HeardSingles(es[0].bytes);
      } else {
        HeardOne(es[0]);
      }
    }
  }

  /** A trace to which what a stream says has been added. */
  lemma HeardMore(before: seq<Event>, after: seq<Event>, es: seq<Event>)
    requires Flat(after) == Flat(before) + Flat(es)
    ensures Heard(after) == Heard(before) + Heard(es)
  {
    HeardFlat(before);
    HeardFlat(after);
    HeardFlat(es);
    HeardAppend(Flat(before), Flat(es));
  }
}
