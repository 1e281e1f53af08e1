/**
 TcpShell/libtelnet.c: what the state tracker makes of a byte stream, one byte at a time, and why it
 does not matter how the stream is cut.
 */
module TelnetTracker {
  import opened Bytes
  import opened O = TelnetOption
  import opened TelnetStore
  import E = TelnetEnviron
  import S = TelnetMssp

  const LF: byte := 10
  const CR: byte := 13

  const SE: byte := 240
  const SB: byte := 250
  const WILL: byte := 251
  const WONT: byte := 252
  const DO: byte := 253
  const DONT: byte := 254
  const IAC: byte := 255

  const TTYPE: byte := 24
  const ENVIRON: byte := 36
  const NEW_ENVIRON: byte := 39
  const MSSP: byte := 70
  const COMPRESS: byte := 85
  const ZMP: byte := 93

  const TTYPE_IS: byte := 0
  const TTYPE_SEND: byte := 1

  /** The largest of the sub-negotiation buffer sizes. */
  const MAX_SUB: nat := 16384

  datatype Complaint =
    | Overflow | UnexpectedByte(b: byte) | EnvironCommand | EnvironType | EnvironEsc
    | MsspInvalid | ZmpIncomplete | TtypeIncomplete | TtypeInvalid | DontByWill | WontByDo

  /**
   `telnet_event_t`. `announced` is the number of settings an MSSP event promises; `Overrun` is a DATA
   event whose size is -1 as a `size_t`.
   */
  datatype Event =
    | Data(bytes: seq<byte>) | Send(bytes: seq<byte>) | Iac(cmd: byte) | Negotiated(verb: Verb, opt: byte)
    | Subnegotiation(opt: byte, bytes: seq<byte>) | Environ(cmd: byte, vars: seq<E.Var>)
        | Ttype(cmd: byte, name: seq<byte>)
    | Zmp(args: seq<seq<byte>>) | Mssp(settings: seq<S.Setting>, announced: nat) | Overrun
        | Warning(complaint: Complaint)

  /** `SSkip` is the data state when pending data is taken to start behind the next byte. */
  datatype State = SData | SSkip | SEol | SIac | SVerb(verb: Verb) | SSb | SSbData | SSbIac

  /** `telnet_telopt_t`: an option with whether we support it and whether we want it of the other end. */
  datatype TelOpt = TelOpt(opt: byte, us: bool, him: bool)

  /** The table, a flag, and what memory allocated for the option states holds. */
  datatype Config = Config(table: seq<TelOpt>, nvtEol: bool, left: Leftover)

  /** `telnet_t`; `sub` is the buffered payload while a sub-negotiation is read, and empty otherwise. */
  datatype Tracker = Tracker(state: State, opt: byte, sub: seq<byte>, tx: bool, rx: bool, options: Store)

  datatype Out = Out(t: Tracker, events: seq<Event>)

  // ----- options

  function Code(verb: Verb): byte {
    match verb { case Will => WILL case Wont => WONT case Do => DO case Dont => DONT }
  }

  /** `_check_telopt`. */
  function Supports(table: seq<TelOpt>, opt: byte, us: bool): bool {
    table != [] && if table[0].opt == opt then (if us then table[0].us else table[0].him)
        else Supports(table[1..], opt, us)
  }

  function Lookup(t: Tracker, opt: byte): Pair {
    Held(t.options.q, opt)
  }

  /** `_set_rfc1143`: the BINARY flags follow the option only when an element for it is found. */
  function Set(cfg: Config, t: Tracker, opt: byte, q: Pair): Tracker {
    var found := opt == BINARY && Find(t.options.q, opt) < |t.options.q|;
    t.(options := Stored(cfg.left, t.options, Entry(opt, q)), tx := if found then q.us == Yes else t.tx,
        rx := if found then q.him == Yes else t.rx)
  }

  /**
   When BINARY is stored the flags say what is stored exactly if there was an element for it, or
   they said so before; when another option is stored they stay as they are.
   */
  lemma BinaryFlags(cfg: Config, t: Tracker, opt: byte, q: Pair)
    ensures var t' := Set(cfg, t, opt, q);
      && (opt != BINARY ==> t'.tx == t.tx && t'.rx == t.rx)
      && (opt == BINARY ==>
           ((t'.tx <==> q.us == Yes) && (t'.rx <==> q.him == Yes)
            <==> (exists i :: 0 <= i < |t.options.q| && t.options.q[i].opt == BINARY)
                 || ((t.tx <==> q.us == Yes) && (t.rx <==> q.him == Yes))))
  {
    hide Stored;
    var i := Find(t.options.q, BINARY);
    assert i < |t.options.q| ==> t.options.q[i].opt == BINARY;
  }

  /** A tracker for which BINARY is the first option agrees to it and goes on to send and read text. */
  lemma BinaryMissed(cfg: Config, t: Tracker)
    requires t.options == EMPTY && !t.tx && Supports(cfg.table, BINARY, true)
    ensures var o := Negotiate(cfg, t, Do, BINARY);
      Lookup(o.t, BINARY).us == Yes && !o.t.tx && o.events == [Send([IAC, WILL, BINARY]), Negotiated(Do, BINARY)]
  {
    StoredTidy(cfg.left, cfg.left, t.options, Entry(BINARY, UNSET.(us := Yes)));
    assert Lookup(t, BINARY) == UNSET;
    hide Supports, Stored;
  }

  function NoteEvent(n: Note, opt: byte): Event {
    match n {
      case Told(verb) => Negotiated(verb, opt)
      case DontAnsweredByWill => Warning(DontByWill)
      case WontAnsweredByDo => Warning(WontByDo)
    }
  }

  function MoveEvents(m: Move, opt: byte): seq<Event> {
    seq(|m.sends|, i requires 0 <= i < |m.sends| => Send([IAC, Code(m.sends[i]), opt]))
    + seq(|m.notes|, i requires 0 <= i < |m.notes| => NoteEvent(m.notes[i], opt))
  }

  /** `_negotiate`, for the verb in the state. */
  function Negotiate(cfg: Config, t: Tracker, verb: Verb, opt: byte): Out {
    var q := Lookup(t, opt);
    if verb == Do || verb == Dont then
      var m := AskedUs(q.us, verb, Supports(cfg.table, opt, true));
      Out(if m.stored then Set(cfg, t, opt, q.(us := m.next)) else t, MoveEvents(m, opt))
    else
      var m := AskedHim(q.him, verb, Supports(cfg.table, opt, false));
      Out(if m.stored then Set(cfg, t, opt, q.(him := m.next)) else t, MoveEvents(m, opt))
  }

  /** `telnet_negotiate`. */
  function Request(cfg: Config, t: Tracker, verb: Verb, opt: byte): Out {
    var q := Lookup(t, opt);
    if verb == Will || verb == Wont then
      var m := Called(q.us, verb == Will, Will, Wont);
      Out(if m.stored then Set(cfg, t, opt, q.(us := m.next)) else t, MoveEvents(m, opt))
    else
      var m := Called(q.him, verb == Do, Do, Dont);
      Out(if m.stored then Set(cfg, t, opt, q.(him := m.next)) else t, MoveEvents(m, opt))
  }

  /** Our end of the option (`us`) or the other one. */
  function End(t: Tracker, opt: byte, us: bool): Q {
    if us then Lookup(t, opt).us else Lookup(t, opt).him
  }

  /** The tracker after that end's state has changed, if it has. */
  function Switched(cfg: Config, t: Tracker, opt: byte, us: bool, q: Q): Tracker {
    if q == End(t, opt, us) then t
    else Set(cfg, t, opt, if us then Lookup(t, opt).(us := q) else Lookup(t, opt).(him := q))
  }

  function AllNotes(notes: seq<Note>, opt: byte): seq<Event> {
    seq(|notes|, i requires 0 <= i < |notes| => NoteEvent(notes[i], opt))
  }

  function AllSends(verbs: seq<Verb>, opt: byte): seq<Event> {
    seq(|verbs|, i requires 0 <= i < |verbs| => Send([IAC, Code(verbs[i]), opt]))
  }

  /** What section 7 of RFC 1143 makes of a verb received, but for a request that the code does not send. */
  ghost predicate ReceivedByRfc(cfg: Config, t: Tracker, verb: Verb, opt: byte, o: Out) {
    var us, on := verb == Do || verb == Dont, Positive(verb);
    var q := End(t, opt, us);
    if q.Junk? then o == Out(t, []) else
      var r := RfcReceives(RfcOf(q), on, Supports(cfg.table, opt, us));
      && o.t == Switched(cfg, t, opt, us, CodeOf(r.0))
      && o.events == AllSends(if Skips(us, q, on) then [] else Replies(us, r.1), opt)
          + AllNotes(Tells(us, q, on, CodeOf(r.0)), opt)
  }

  /** And of a verb the application wants to send. */
  ghost predicate WantedByRfc(cfg: Config, t: Tracker, verb: Verb, opt: byte, o: Out) {
    var us := verb == Will || verb == Wont;
    var q := End(t, opt, us);
    if q.Junk? then o == Out(t, []) else
      var r := RfcWants(RfcOf(q), Positive(verb));
      o == Out(Switched(cfg, t, opt, us, CodeOf(r.0)), AllSends(Replies(us, r.1), opt))
  }

  /** A decision about one end, carried out. */
  lemma NegotiateMoves(cfg: Config, t: Tracker, verb: Verb, opt: byte)
    ensures var us := verb == Do || verb == Dont; var q := End(t, opt, us);
      var m := Receives(us, q, Positive(verb), Supports(cfg.table, opt, us));
      && (m.stored ==> m.next != q ==> Negotiate(cfg, t, verb, opt).t == Switched(cfg, t, opt, us, m.next))
      && (!m.stored ==> Negotiate(cfg, t, verb, opt).t == t)
      && Negotiate(cfg, t, verb, opt).events == AllSends(m.sends, opt) + AllNotes(m.notes, opt)
  {
    hide AskedUs, AskedHim, Supports, Lookup, Set, NoteEvent, Code;
  }

  lemma NegotiateByRfc(cfg: Config, t: Tracker, verb: Verb, opt: byte)
    ensures ReceivedByRfc(cfg, t, verb, opt, Negotiate(cfg, t, verb, opt))
  {
    hide Receives, Supports, End, Negotiate, RfcOf, RfcReceives, Tells, Replies, CodeOf, Skips, AllSends, AllNotes, Set;
    var us, on := verb == Do || verb == Dont, Positive(verb);
    var q, ok := End(t, opt, us), Supports(cfg.table, opt, us);
    NegotiateMoves(cfg, t, verb, opt);
    NothingSaid(opt);
    if q.Junk? {
      Ignored(us, q, on, ok);
    } else {
      ReceivesByRfc(us, q, on, ok);
      ReceivesTells(us, q, on, ok);
    }
  }

  lemma NothingSaid(opt: byte)
    ensures AllSends([], opt) == [] == AllNotes([], opt)
  {
  }

  /** A command for the state the option is in stores, sends and tells nothing. */
  lemma AlreadySo(cfg: Config, t: Tracker, verb: Verb, opt: byte)
    requires End(t, opt, verb == Do || verb == Dont) == if Positive(verb) then Yes else No
    ensures Negotiate(cfg, t, verb, opt) == Out(t, [])
  {
    Ignored(verb == Do || verb == Dont, End(t, opt, verb == Do || verb == Dont), Positive(verb), true);
  }

  lemma RequestByRfc(cfg: Config, t: Tracker, verb: Verb, opt: byte)
    ensures WantedByRfc(cfg, t, verb, opt, Request(cfg, t, verb, opt))
  {
    var us := verb == Will || verb == Wont;
    if !End(t, opt, us).Junk? {
      CallsByRfc(us, End(t, opt, us), Positive(verb));
    }
    hide Lookup, Set;
  }

  // ----- sub-negotiations

  /** The NUL-terminated strings of a ZMP payload. */
  function Args(p: seq<byte>): seq<seq<byte>>
    decreases |p|
  {
    var s := E.CString(p);
    if |p| <= |s| then [] else [s] + Args(p[|s| + 1..])
  }

  /** `_zmp_telnet`. */
  function ZmpEvents(p: seq<byte>): seq<Event> {
    if p == [] || p[|p| - 1] != 0 then [Warning(ZmpIncomplete)] else [Zmp(Args(p))]
  }

  /** `_ttype_telnet`. */
  function TtypeEvents(p: seq<byte>): seq<Event> {
    if p == [] then [Warning(TtypeIncomplete)]
    else if p[0] == TTYPE_IS then [Ttype(TTYPE_IS, E.CString(p[1..]))]
    else if p[0] == TTYPE_SEND then [Ttype(TTYPE_SEND, [])]
    else [Warning(TtypeInvalid)]
  }

  function EnvironEvents(r: E.Outcome): seq<Event> {
    match r {
      case Empty => []
      case BadCommand => [Warning(EnvironCommand)]
      case MissingType => [Warning(EnvironType)]
      case EndsWithEsc => [Warning(EnvironEsc)]
      case Vars(cmd, vars) => [Environ(cmd, vars)]
    }
  }

  function MsspEvents(r: S.Outcome): seq<Event> {
    match r {
      case Nothing => []
      case Invalid => [Warning(MsspInvalid)]
      case Values(settings, announced) => [Mssp(settings, announced)]
    }
  }

  /** `_subnegotiate`. */
  function SubEvents(opt: byte, p: seq<byte>): seq<Event> {
    [Subnegotiation(opt, p)]
    + if opt == ZMP then ZmpEvents(p)
      else if opt == TTYPE then TtypeEvents(p)
      else if opt == ENVIRON || opt == NEW_ENVIRON then EnvironEvents(E.Decoded(p))
      else if opt == MSSP then MsspEvents(S.Decoded(p))
      else []
  }

  /** Whether the caller is told to process the rest of its input anew: only ENVIRON events do that. */
  function SubAgain(opt: byte, p: seq<byte>): bool {
    (opt == ENVIRON || opt == NEW_ENVIRON) && E.Decoded(p).Vars?
  }

  // ----- one byte

  /** `_buffer_byte`: the payload grows by b, or the sub-negotiation is given up. */
  function Buffered(t: Tracker, b: byte): Out {
    if |t.sub| < MAX_SUB then Out(t.(state := SSbData, sub := t.sub + [b]), [])
    else Out(t.(state := SData, sub := []), [Warning(Overflow)])
  }

  /** The byte behind IAC. */
  function Command(t: Tracker, b: byte): Out {
    if b == SB then Out(t.(state := SSb), [])
    else if b == WILL then Out(t.(state := SVerb(Will)), [])
    else if b == WONT then Out(t.(state := SVerb(Wont)), [])
    else if b == DO then Out(t.(state := SVerb(Do)), [])
    else if b == DONT then Out(t.(state := SVerb(Dont)), [])
    else if b == IAC then Out(t.(state := SData), [Data([b])])
    else Out(t.(state := SData), [Iac(b)])
  }

  /**
   A byte other than SE and IAC behind IAC in a payload: the
   sub-negotiation ends, and the byte is a command unless it is lost.
   */
  function Broken(t: Tracker, b: byte): Out {
    var u := t.(state := SIac, sub := []);
    var c := if SubAgain(t.opt, t.sub) then Out(u, []) else Command(u, b);
    Out(c.t, [Warning(UnexpectedByte(b))] + SubEvents(t.opt, t.sub) + c.events)
  }

  /** The MCCPv1 start: the byte behind it is to be skipped. */
  predicate Mccp1(t: Tracker, b: byte) {
    t.state == SSbData && t.opt == COMPRESS && b == WILL
  }

  function Step(cfg: Config, t: Tracker, b: byte): Out {
    match t.state {
      case SData =>
        if b == IAC then Out(t.(state := SIac), [])
        else if b == CR && cfg.nvtEol && !t.rx then Out(t.(state := SEol), [])
        else Out(t, [Data([b])])
      case SSkip =>
        if b == IAC then Out(t.(state := SIac), [Overrun])
        else if b == CR && cfg.nvtEol && !t.rx then Out(t.(state := SEol), [Overrun])
        else Out(t.(state := SData), [])
      case SEol =>
        Out(t.(state := SData), (if b != LF then [Data([CR])] else []) + (if b != 0 then [Data([b])] else []))
      case SIac => Command(t, b)
      case SVerb(verb) => var r := Negotiate(cfg, t, verb, b); Out(r.t.(state := SData), r.events)
      case SSb => Out(t.(state := SSbData, opt := b, sub := []), [])
      case SSbData =>
        if b == IAC then Out(t.(state := SSbIac), [])
        else if Mccp1(t, b) then Out(t.(state := SSkip, sub := []), [])
        else Buffered(t, b)
      case SSbIac =>
        if b == SE then Out(t.(state := SData, sub := []), SubEvents(t.opt, t.sub))
        else if b == IAC then Buffered(t, b)
        else Broken(t, b)
    }
  }

  // ----- a stream

  function Run(cfg: Config, t: Tracker, d: seq<byte>): Out
    decreases |d|
  {
    if d == [] then Out(t, []) else
      var o := Step(cfg, t, d[0]);
      var r := Run(cfg, o.t, d[1..]);
      Out(r.t, o.events + r.events)
  }

  /** At the end of a piece of input, too, everything pending is passed on. */
  function Ended(o: Out): Out {
    if o.t.state == SSkip then Out(o.t.(state := SData), o.events + [Overrun]) else o
  }

  function OnePiece(cfg: Config, t: Tracker, d: seq<byte>): Out {
    Ended(Run(cfg, t, d))
  }

  /** Pieces of input one after the other. */
  function AllPieces(cfg: Config, t: Tracker, chunks: seq<seq<byte>>): Out
    decreases |chunks|
  {
    if chunks == [] then Out(t, []) else
      var o := OnePiece(cfg, t, chunks[0]);
      var r := AllPieces(cfg, o.t, chunks[1..]);
      Out(r.t, o.events + r.events)
  }

  ghost predicate NoMccp1(cfg: Config, t: Tracker, d: seq<byte>)
    decreases |d|
  {
    d != [] ==> !Mccp1(t, d[0]) && NoMccp1(cfg, Step(cfg, t, d[0]).t, d[1..])
  }

  lemma {:induction false} RunAppend(cfg: Config, t: Tracker, a: seq<byte>, b: seq<byte>)
    ensures var r, s := Run(cfg, t, a), Run(cfg, Run(cfg, t, a).t, b);
        Run(cfg, t, a + b) == Out(s.t, r.events + s.events)
    decreases |a|
  {
    hide Step;
    if a == [] {
      assert a + b == b;
    } else {
      assert (a + b)[1..] == a[1..] + b;
      var o := Step(cfg, t, a[0]);
      RunAppend(cfg, o.t, a[1..], b);
      var r := Run(cfg, o.t, a[1..]);
      assert o.events + (r.events + Run(cfg, r.t, b).events) == o.events + r.events + Run(cfg, r.t, b).events;
    }
  }

  lemma {:induction false} NoMccp1Append(cfg: Config, t: Tracker, a: seq<byte>, b: seq<byte>)
    ensures NoMccp1(cfg, t, a + b) <==> NoMccp1(cfg, t, a) && NoMccp1(cfg, Run(cfg, t, a).t, b)
    decreases |a|
  {
    if a == [] {
      assert a + b == b;
    } else {
      assert (a + b)[1..] == a[1..] + b;
      NoMccp1Append(cfg, Step(cfg, t, a[0]).t, a[1..], b);
    }
  }

  lemma RunByte(cfg: Config, t: Tracker, b: byte)
    ensures Run(cfg, t, [b]) == Step(cfg, t, b) && (NoMccp1(cfg, t, [b]) <==> !Mccp1(t, b))
  {
    assert NoMccp1(cfg, Step(cfg, t, b).t, [b][1..]);
    assert Run(cfg, Step(cfg, t, b).t, [b][1..]) == Out(Step(cfg, t, b).t, []);
  }

  lemma RunCons(cfg: Config, t: Tracker, b: byte, d: seq<byte>)
    ensures var o := Step(cfg, t, b);
        Run(cfg, t, [b] + d) == Out(Run(cfg, o.t, d).t, o.events + Run(cfg, o.t, d).events)
  {
    assert ([b] + d)[1..] == d;
  }

  // ----- traces with adjacent data joined, which is the same as data taken byte by byte

  function Singles(d: seq<byte>): seq<Event> {
    seq(|d|, i requires 0 <= i < |d| => Data([d[i]]))
  }

  function Flat(es: seq<Event>): seq<Event> {
    if es == [] then [] else (if es[0].Data? then Singles(es[0].bytes) else [es[0]]) + Flat(es[1..])
  }

  lemma {:induction false} FlatAppend(a: seq<Event>, b: seq<Event>)
    ensures Flat(a + b) == Flat(a) + Flat(b)
    decreases |a|
  {
    if a == [] {
      assert a + b == b;
    } else {
      assert (a + b)[1..] == a[1..] + b;
      FlatAppend(a[1..], b);
    }
  }

  lemma SinglesAppend(a: seq<byte>, b: seq<byte>)
    ensures Singles(a + b) == Singles(a) + Singles(b)
  {
  }

  lemma FlatOne(e: Event)
    ensures Flat([e]) == if e.Data? then Singles(e.bytes) else [e]
  {
    assert Flat([e][1..]) == [];
  }

  // ----- negotiation over the wire

  /** A negotiation command on the wire reaches the option state of the receiver. */
  lemma NegotiationArrives(cfg: Config, t: Tracker, verb: Verb, opt: byte)
    requires t.state == SData
    ensures Run(cfg, t, [IAC, Code(verb), opt]) == Negotiate(cfg, t, verb, opt)
  {
    var u := t.(state := SVerb(verb));
    assert Step(cfg, t, IAC) == Out(t.(state := SIac), []) && Step(cfg, t.(state := SIac), Code(verb)) == Out(u, []);
    NegotiateState(cfg, t, u, verb, opt);
    assert Step(cfg, u, opt) == Negotiate(cfg, t, verb, opt);
    hide Step, Run, Negotiate;
    RunCons(cfg, t, IAC, [Code(verb)] + [opt]);
    RunCons(cfg, t.(state := SIac), Code(verb), [opt]);
    RunByte(cfg, u, opt);
    assert [IAC, Code(verb), opt] == [IAC] + ([Code(verb)] + [opt]);
    assert [] + ([] + Negotiate(cfg, t, verb, opt).events) == Negotiate(cfg, t, verb, opt).events;
  }

  lemma NegotiateState(cfg: Config, t: Tracker, u: Tracker, verb: Verb, opt: byte)
    requires t.state == SData && u == t.(state := SVerb(verb))
    ensures Negotiate(cfg, u, verb, opt).events == Negotiate(cfg, t, verb, opt).events
    ensures Negotiate(cfg, u, verb, opt).t.(state := SData) == Negotiate(cfg, t, verb, opt).t
  {
  }
}
