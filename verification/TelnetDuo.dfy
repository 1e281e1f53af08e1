/**
 TcpShell/libtelnet.c: two trackers that negotiate options over byte channels. One makes the calls, the
 other only answers; bytes are delivered one by one, which covers every way of cutting the channels.
 Each option, at either end, is shown to go through the steps of the abstract parties of TelnetOption.
 */
module TelnetDuo {
  import opened Bytes
  import opened O = TelnetOption
  import opened TelnetStore
  import opened TelnetTracker
  import opened TelnetCodec

  /** The caller a, its peer b, and the bytes on their way. */
  datatype Duo = Duo(a: Tracker, b: Tracker, ab: seq<byte>, ba: seq<byte>)

  datatype Turn = Call(verb: Verb, opt: byte) | ByteToB | ByteToA

  const FRESH: Tracker := Tracker(SData, 0, [], false, false, EMPTY)

  const QUIET: Duo := Duo(FRESH, FRESH, [], [])

  predicate CanTurn(s: Duo, t: Turn) {
    (t == ByteToB ==> s.ab != []) && (t == ByteToA ==> s.ba != [])
  }

  function Turned(ca: Config, cb: Config, s: Duo, t: Turn): Duo
    requires CanTurn(s, t)
  {
    match t {
      case Call(verb, opt) => var r := Request(ca, s.a, verb, opt); s.(a := r.t, ab := s.ab + Wire(r.events))
      case ByteToB => var r := Step(cb, s.b, s.ab[0]); s.(b := r.t, ab := s.ab[1..], ba := s.ba + Wire(r.events))
      case ByteToA => var r := Step(ca, s.a, s.ba[0]); s.(a := r.t, ba := s.ba[1..], ab := s.ab + Wire(r.events))
    }
  }

  ghost predicate CanRun(ca: Config, cb: Config, s: Duo, turns: seq<Turn>)
    decreases |turns|
  {
    turns != [] ==> CanTurn(s, turns[0]) && CanRun(ca, cb, Turned(ca, cb, s, turns[0]), turns[1..])
  }

  ghost function Ran(ca: Config, cb: Config, s: Duo, turns: seq<Turn>): Duo
    requires CanRun(ca, cb, s, turns)
    decreases |turns|
  {
    if turns == [] then s else Ran(ca, cb, Turned(ca, cb, s, turns[0]), turns[1..])
  }

  // ----- messages on the wire

  datatype Message = Message(verb: Verb, opt: byte)

  predicate IsCode(b: byte) {
    b == WILL || b == WONT || b == DO || b == DONT
  }

  function VerbOf(b: byte): Verb {
    if b == WILL then Will else if b == WONT then Wont else if b == DO then Do else Dont
  }

  /** Whole negotiation commands. */
  ghost predicate Proper(w: seq<byte>)
    decreases |w|
  {
    w == [] || (3 <= |w| && w[0] == IAC && IsCode(w[1]) && Proper(w[3..]))
  }

  function Parsed(w: seq<byte>): seq<Message>
    decreases |w|
  {
    if |w| < 3 then [] else [Message(VerbOf(w[1]), w[2])] + Parsed(w[3..])
  }

  function OnWire(m: Message): seq<byte> {
    [IAC, Code(m.verb), m.opt]
  }

  /** What a tracker has read of a command that is not complete yet. */
  function Head(q: State): seq<byte> {
    match q {
      case SIac => [IAC]
      case SVerb(verb) => [IAC, Code(verb)]
      case _ => []
    }
  }

  predicate Negotiates(q: State) {
    q.SData? || q.SIac? || q.SVerb?
  }

  /** The messages a tracker has still to receive from a channel. */
  function Pending(t: Tracker, w: seq<byte>): seq<Message> {
    Parsed(Head(t.state) + w)
  }

  ghost predicate Wired(s: Duo) {
    && Negotiates(s.a.state) && Negotiates(s.b.state)
    && Proper(Head(s.b.state) + s.ab) && Proper(Head(s.a.state) + s.ba)
  }

  lemma ParsedStep(w: seq<byte>)
    requires 3 <= |w|
    ensures Parsed(w) == [Message(VerbOf(w[1]), w[2])] + Parsed(w[3..])
  {
  }

  lemma {:induction false} ProperAppend(w: seq<byte>, v: seq<byte>)
    requires Proper(w) && Proper(v)
    ensures Proper(w + v) && Parsed(w + v) == Parsed(w) + Parsed(v)
    decreases |w|
  {
    if w == [] {
      assert w + v == v;
    } else {
      hide IsCode, VerbOf;
      assert (w + v)[3..] == w[3..] + v && (w + v)[0] == w[0] && (w + v)[1] == w[1] && (w + v)[2] == w[2];
      ProperAppend(w[3..], v);
      ParsedStep(w);
      ParsedStep(w + v);
      Assoc([Message(VerbOf(w[1]), w[2])], Parsed(w[3..]), Parsed(v));
    }
  }

  lemma ProperOne(m: Message)
    ensures Proper(OnWire(m)) && Parsed(OnWire(m)) == [m]
  {
    assert OnWire(m)[3..] == [];
  }

  /** What a decision sends is at most one command. */
  lemma MoveWire(m: O.Move, opt: byte)
    requires |m.sends| <= 1 && |m.notes| <= 2
    ensures Wire(MoveEvents(m, opt)) == if m.sends == [] then [] else OnWire(Message(m.sends[0], opt))
  {
    var sent := seq(|m.sends|, i requires 0 <= i < |m.sends| => Event.Send([IAC, Code(m.sends[i]), opt]));
    var told := seq(|m.notes|, i requires 0 <= i < |m.notes| => NoteEvent(m.notes[i], opt));
    assert MoveEvents(m, opt) == sent + told;
    WireAppend(sent, told);
    NoWire(told);
    if m.sends == [] {
      assert sent == [];
    } else {
      assert sent == [Event.Send(OnWire(Message(m.sends[0], opt)))];
      assert sent[1..] == [];
    }
  }

  lemma {:induction false} NoWire(es: seq<Event>)
    requires forall i :: 0 <= i < |es| ==> !es[i].Send?
    ensures Wire(es) == []
    decreases |es|
  {
    if es != [] {
      NoWire(es[1..]);
    }
  }

  /** A byte that does not complete a command. */
  lemma HeadByte(cfg: Config, t: Tracker, w: seq<byte>)
    requires w != [] && Negotiates(t.state) && !t.state.SVerb? && Proper(Head(t.state) + w)
    ensures var r := Step(cfg, t, w[0]);
      r == Out(t.(state := r.t.state), []) && Negotiates(r.t.state) && Head(r.t.state) + w[1..] == Head(t.state) + w
  {
    var all := Head(t.state) + w;
    assert all[|Head(t.state)|] == w[0];
    HeadStep(cfg, t, w[0]);
    hide Step, Proper;
    assert w == [w[0]] + w[1..];
  }

  lemma HeadStep(cfg: Config, t: Tracker, b: byte)
    requires if t.state == SData then b == IAC else t.state == SIac && IsCode(b)
    ensures Step(cfg, t, b) == Out(t.(state := if t.state == SData then SIac else SVerb(VerbOf(b))), [])
    ensures Code(VerbOf(b)) == if IsCode(b) then b else DONT
  {
    hide Negotiate, Broken, Buffered, SubEvents;
  }

  /** A byte that completes one. */
  lemma LastByte(t: Tracker, w: seq<byte>)
    requires w != [] && t.state.SVerb? && Proper(Head(t.state) + w)
    ensures var v := t.state.verb;
      && Proper(w[1..]) && Parsed(Head(t.state) + w) == [Message(v, w[0])] + Parsed(w[1..])
  {
    var all := Head(t.state) + w;
    assert all[1] == Code(t.state.verb) && all[2] == w[0] && all[3..] == w[1..];
  }

  // ----- one option, at one end

  /** The message is about an option at its receiver's own end. */
  predicate Yours(verb: Verb) {
    verb == Do || verb == Dont
  }

  lemma YoursIs(verb: Verb, end: bool)
    ensures Yours(verb) == end <==> verb == On(end) || verb == Off(end)
  {
  }

  /** The message as one about option o at that end, if it is one. */
  function Of(m: Message, o: byte, end: bool): seq<Verb> {
    if m.opt == o && Yours(m.verb) == end then [m.verb] else []
  }

  /** The messages about an option at the receiver's own end or at the other one. */
  function Pick(ms: seq<Message>, o: byte, end: bool): seq<Verb> {
    if ms == [] then [] else Of(ms[0], o, end) + Pick(ms[1..], o, end)
  }

  lemma {:induction false} PickAppend(a: seq<Message>, b: seq<Message>, o: byte, end: bool)
    ensures Pick(a + b, o, end) == Pick(a, o, end) + Pick(b, o, end)
    decreases |a|
  {
    if a == [] {
      assert a + b == b;
    } else {
      assert (a + b)[1..] == a[1..] + b;
      PickAppend(a[1..], b, o, end);
    }
  }

  lemma PickOne(m: Message, o: byte, end: bool)
    ensures Pick([m], o, end) == Of(m, o, end)
  {
    assert Pick([m][1..], o, end) == [];
  }

  function Side(t: Tracker, o: byte, us: bool): Q {
    if us then Lookup(t, o).us else Lookup(t, o).him
  }

  /** The abstract parties seen in the trackers and channels; `remote` tells whose end of the option it is. */
  function Seen(s: Duo, o: byte, remote: bool, last: bool): Net {
    Net(remote, Side(s.a, o, !remote), Side(s.b, o, remote),
        Pick(Pending(s.b, s.ab), o, remote), Pick(Pending(s.a, s.ba), o, !remote), last)
  }

  /** The tracker completes a message about option o at its own (`end`) or the other end. */
  predicate Hears(t: Tracker, w: seq<byte>, o: byte, end: bool)
    requires w != []
  {
    t.state.SVerb? && w[0] == o && Yours(t.state.verb) == end
  }

  /** The abstract action a turn is for this option and end, if any. */
  function Mirrored(s: Duo, t: Turn, o: byte, remote: bool): (acts: seq<Action>)
    requires CanTurn(s, t)
    ensures |acts| <= 1
  {
    match t {
      case Call(verb, opt) =>
        if opt != o || Yours(verb) != remote then [] else if verb == On(remote) then [CallOn] else [CallOff]
      case ByteToB => if Hears(s.b, s.ab, o, remote) then [PeerReceives] else []
      case ByteToA => if Hears(s.a, s.ba, o, !remote) then [IReceive] else []
    }
  }

  function Reflected(ca: Config, cb: Config, s: Duo, turns: seq<Turn>, o: byte, remote: bool): seq<Action>
    requires CanRun(ca, cb, s, turns)
    decreases |turns|
  {
    if turns == [] then [] else
      Mirrored(s, turns[0], o, remote) + Reflected(ca, cb, Turned(ca, cb, s, turns[0]), turns[1..], o, remote)
  }

  // ----- decisions and channels

  function Decision(cfg: Config, t: Tracker, verb: Verb, opt: byte): O.Move {
    Asked(Yours(verb), Side(t, opt, Yours(verb)), verb, Supports(cfg.table, opt, Yours(verb)))
  }

  function CallDecision(t: Tracker, verb: Verb, opt: byte): O.Move {
    var remote := Yours(verb);
    Called(Side(t, opt, !remote), verb == On(remote), On(remote), Off(remote))
  }

  /** The state that is stored, if any: for our end or the other one. */
  function Kept(t: Tracker, opt: byte, us: bool, m: O.Move): seq<Entry> {
    var q := Lookup(t, opt);
    if m.stored then [Entry(opt, if us then q.(us := m.next) else q.(him := m.next))] else []
  }

  /** What a tracker stores for a message that a byte completes. */
  function ByteStores(cfg: Config, t: Tracker, b: byte): seq<Entry> {
    if t.state.SVerb? then Kept(t, b, Yours(t.state.verb), Decision(cfg, t, t.state.verb, b)) else []
  }

  /** What a turn makes the caller (`me`) or the peer store. */
  function TurnStores(ca: Config, cb: Config, s: Duo, t: Turn, me: bool): (es: seq<Entry>)
    requires CanTurn(s, t)
    ensures |es| <= 1
  {
    match t {
      case Call(verb, opt) => if me then Kept(s.a, opt, !Yours(verb), CallDecision(s.a, verb, opt)) else []
      case ByteToB => if me then [] else ByteStores(cb, s.b, s.ab[0])
      case ByteToA => if me then ByteStores(ca, s.a, s.ba[0]) else []
    }
  }

  ghost function Stores(ca: Config, cb: Config, s: Duo, turns: seq<Turn>, me: bool): seq<Entry>
    requires CanRun(ca, cb, s, turns)
    decreases |turns|
  {
    if turns == [] then [] else
      TurnStores(ca, cb, s, turns[0], me) + Stores(ca, cb, Turned(ca, cb, s, turns[0]), turns[1..], me)
  }

  /** The array takes these options without being enlarged again. */
  predicate Fit(q: seq<Entry>, es: seq<Entry>) {
    Tidy(q) && if q == [] then OneOption(es) else forall i :: 0 <= i < |es| ==> Roomy(q, es[i].opt)
  }

  function StoredAll(left: Leftover, o: Store, es: seq<Entry>): Store
    decreases |es|
  {
    if es == [] then o else StoredAll(left, Stored(left, o, es[0]), es[1..])
  }

  lemma FitFirst(left: Leftover, o: Store, es: seq<Entry>, rest: seq<Entry>)
    requires |es| <= 1 && Fit(o.q, es + rest)
    ensures Fit(o.q, es) && Fit(StoredAll(left, o, es).q, rest)
    ensures forall left': Leftover :: StoredAll(left', o, es) == StoredAll(left, o, es)
  {
    if es == [] {
      assert es + rest == rest;
    } else {
      assert (es + rest)[0] == es[0] && forall i :: 0 <= i < |rest| ==> (es + rest)[i + 1] == rest[i];
      assert es[1..] == [];
      forall left': Leftover ensures StoredAll(left', o, es) == StoredAll(left, o, es) {
        StoredTidy(left, left', o, es[0]);
      }
      StoredTidy(left, left, o, es[0]);
    }
  }

  /** The state of an option after a store that fits. */
  lemma KeptSide(cfg: Config, t: Tracker, opt: byte, mine: bool, m: O.Move, o: byte, us: bool)
    requires Fit(t.options.q, Kept(t, opt, mine, m)) && (!m.stored ==> m.next == Side(t, opt, mine))
    ensures var t' := t.(options := StoredAll(cfg.left, t.options, Kept(t, opt, mine, m)));
      Side(t', o, us) == if o == opt && us == mine then m.next else Side(t, o, us)
  {
    var es := Kept(t, opt, mine, m);
    hide Held;
    if m.stored {
      assert es[1..] == [];
      StoredTidy(cfg.left, cfg.left, t.options, es[0]);
    }
  }

  /** The bytes of at most one command. */
  function CommandOf(sends: seq<Verb>, opt: byte): seq<byte> {
    if sends == [] then [] else OnWire(Message(sends[0], opt))
  }

  /** Answers are about the other end of the option they answer for. */
  lemma DecisionSends(cfg: Config, t: Tracker, verb: Verb, opt: byte)
    ensures var m := Decision(cfg, t, verb, opt);
      |m.sends| <= 1 && |m.notes| <= 2 && (m.sends != [] ==> Yours(m.sends[0]) == !Yours(verb))
  {
    hide Supports, Side;
  }

  lemma NegotiateIs(cfg: Config, t: Tracker, verb: Verb, opt: byte)
    ensures Negotiate(cfg, t, verb, opt).events == MoveEvents(Decision(cfg, t, verb, opt), opt)
    ensures Negotiate(cfg, t, verb, opt).t.state == t.state
    ensures Negotiate(cfg, t, verb, opt).t.options
        == StoredAll(cfg.left, t.options, Kept(t, opt, Yours(verb), Decision(cfg, t, verb, opt)))
  {
    hide Supports, MoveEvents, AskedUs, AskedHim, Held, Stored, Find;
    var es := Kept(t, opt, Yours(verb), Decision(cfg, t, verb, opt));
    assert es != [] ==> es[1..] == [];
  }

  lemma NegotiateSide(cfg: Config, t: Tracker, verb: Verb, opt: byte, o: byte, us: bool)
    requires Fit(t.options.q, Kept(t, opt, Yours(verb), Decision(cfg, t, verb, opt)))
    ensures Side(Negotiate(cfg, t, verb, opt).t, o, us)
         == if o == opt && us == Yours(verb) then Decision(cfg, t, verb, opt).next else Side(t, o, us)
  {
    NegotiateIs(cfg, t, verb, opt);
    NotStored(cfg, t, verb, opt);
    hide Negotiate, Decision, Supports, MoveEvents, Fit, Kept, StoredAll, Held;
    KeptSide(cfg, t, opt, Yours(verb), Decision(cfg, t, verb, opt), o, us);
  }

  lemma NotStored(cfg: Config, t: Tracker, verb: Verb, opt: byte)
    ensures var m := Decision(cfg, t, verb, opt); !m.stored ==> m.next == Side(t, opt, Yours(verb))
  {
    hide Supports, Side;
  }

  lemma NegotiateSays(cfg: Config, t: Tracker, verb: Verb, opt: byte, o: byte, us: bool)
    requires Fit(t.options.q, Kept(t, opt, Yours(verb), Decision(cfg, t, verb, opt)))
    ensures var r := Negotiate(cfg, t, verb, opt); var m := Decision(cfg, t, verb, opt);
      && |m.sends| <= 1 && (m.sends != [] ==> Yours(m.sends[0]) == !Yours(verb))
      && Wire(r.events) == CommandOf(m.sends, opt) && r.t.state == t.state
      && Side(r.t, o, us) == if o == opt && us == Yours(verb) then m.next else Side(t, o, us)
  {
    hide Negotiate, Decision, Side, Yours, MoveEvents, Wire;
    DecisionSends(cfg, t, verb, opt);
    NegotiateIs(cfg, t, verb, opt);
    NegotiateSide(cfg, t, verb, opt, o, us);
    MoveWire(Decision(cfg, t, verb, opt), opt);
  }

  lemma RequestIs(cfg: Config, t: Tracker, verb: Verb, opt: byte)
    ensures Request(cfg, t, verb, opt).events == MoveEvents(CallDecision(t, verb, opt), opt)
    ensures Request(cfg, t, verb, opt).t.state == t.state
    ensures Request(cfg, t, verb, opt).t.options
        == StoredAll(cfg.left, t.options, Kept(t, opt, !Yours(verb), CallDecision(t, verb, opt)))
  {
    hide MoveEvents, Held, Stored, Find;
    var es := Kept(t, opt, !Yours(verb), CallDecision(t, verb, opt));
    assert es != [] ==> es[1..] == [];
  }

  lemma CallSends(t: Tracker, verb: Verb, opt: byte)
    ensures var m := CallDecision(t, verb, opt);
      m.sends in {[], [verb]} && m.notes == [] && (!m.stored ==> m.next == Side(t, opt, !Yours(verb)))
  {
    hide Side;
  }

  lemma RequestSays(cfg: Config, t: Tracker, verb: Verb, opt: byte, o: byte, us: bool)
    requires Fit(t.options.q, Kept(t, opt, !Yours(verb), CallDecision(t, verb, opt)))
    ensures var r := Request(cfg, t, verb, opt); var m := CallDecision(t, verb, opt);
      && m.sends in {[], [verb]} && Wire(r.events) == CommandOf(m.sends, opt) && r.t.state == t.state
      && Side(r.t, o, us) == if o == opt && us == !Yours(verb) then m.next else Side(t, o, us)
  {
    hide MoveEvents, Wire, Request, CallDecision, Fit, Kept, StoredAll, Held, Yours;
    var m := CallDecision(t, verb, opt);
    CallSends(t, verb, opt);
    MoveWire(m, opt);
    RequestIs(cfg, t, verb, opt);
    KeptSide(cfg, t, opt, !Yours(verb), m, o, us);
  }

  /** A command put on a channel is the last to be received. */
  lemma ChannelGrows(t: Tracker, w: seq<byte>, sends: seq<Verb>, opt: byte, o: byte, end: bool)
    requires |sends| <= 1 && Proper(Head(t.state) + w)
    ensures var w' := w + CommandOf(sends, opt);
      && Proper(Head(t.state) + w')
      && Pick(Pending(t, w'), o, end) == Pick(Pending(t, w), o, end) + if sends == [] then []
          else Of(Message(sends[0], opt), o, end)
  {
    if sends == [] {
      assert w + [] == w;
    } else {
      var m := Message(sends[0], opt);
      assert Head(t.state) + (w + OnWire(m)) == (Head(t.state) + w) + OnWire(m);
      ProperOne(m);
      ProperAppend(Head(t.state) + w, OnWire(m));
      PickAppend(Pending(t, w), [m], o, end);
      PickOne(m, o, end);
    }
  }

  /** The first message of a channel is read. */
  lemma MessageRead(cfg: Config, t: Tracker, w: seq<byte>, o: byte, end: bool)
    requires w != [] && t.state.SVerb? && Proper(Head(t.state) + w)
    ensures var r := Negotiate(cfg, t, t.state.verb, w[0]);
      && Step(cfg, t, w[0]) == Out(r.t.(state := SData), r.events) && Proper(Head(SData) + w[1..])
      && Pick(Pending(t, w), o, end)
         == Of(Message(t.state.verb, w[0]), o, end) + Pick(Pending(r.t.(state := SData), w[1..]), o, end)
  {
    LastByte(t, w);
    var m := Message(t.state.verb, w[0]);
    PickAppend([m], Parsed(w[1..]), o, end);
    PickOne(m, o, end);
    assert Head(SData) + w[1..] == w[1..];
    hide Negotiate;
  }

  // ----- what is heard

  /**
   The state of the option and the messages about it after tracker
   t has read a byte, with u at the other end of its channels.
   */
  datatype Local = Local(side: Q, coming: seq<Verb>, going: seq<Verb>)

  function LocalOf(t: Tracker, w: seq<byte>, u: Tracker, x: seq<byte>, o: byte, end: bool): Local {
    Local(Side(t, o, end), Pick(Pending(t, w), o, end), Pick(Pending(u, x), o, !end))
  }

  /** Tracker t takes the first message that is coming, and answers. */
  ghost predicate Answers(l: Local, l': Local, verb: Verb, end: bool, ok: bool)
    requires Yours(verb) == end
  {
    YoursIs(verb, end);
    var m := Asked(end, l.side, verb, ok);
    l.coming == [verb] + l'.coming && l'.side == m.next && l'.going == l.going + m.sends
  }

  lemma DecisionIs(cfg: Config, t: Tracker, verb: Verb, opt: byte)
    ensures Decision(cfg, t, verb, opt)
        == Asked(Yours(verb), Side(t, opt, Yours(verb)), verb, Supports(cfg.table, opt, Yours(verb)))
  {
  }

  lemma HeardMessage(cfg: Config, t: Tracker, w: seq<byte>, u: Tracker, x: seq<byte>, o: byte, end: bool)
    requires w != [] && t.state.SVerb? && Proper(Head(t.state) + w) && Proper(Head(u.state) + x)
    requires Fit(t.options.q, ByteStores(cfg, t, w[0]))
    ensures var r := Step(cfg, t, w[0]); var x' := x + Wire(r.events);
      && Negotiates(r.t.state) && Proper(Head(r.t.state) + w[1..]) && Proper(Head(u.state) + x')
      && var l, l' := LocalOf(t, w, u, x, o, end), LocalOf(r.t, w[1..], u, x', o, end);
      if Hears(t, w, o, end) then Answers(l, l', t.state.verb, end, Supports(cfg.table, o, end)) else l' == l
  {
    hide Step, Negotiate, Wire, Pick, Proper, Pending, Side, Supports, Asked, Yours, CommandOf, Head, Fit, Kept;
    var v, opt := t.state.verb, w[0];
    var m := Decision(cfg, t, v, opt);
    MessageRead(cfg, t, w, o, end);
    NegotiateSays(cfg, t, v, opt, o, end);
    ChannelGrows(u, x, m.sends, opt, o, !end);
    SameSide(Negotiate(cfg, t, v, opt).t, SData, o, end);
    hide Negotiates, Decision;
    if Hears(t, w, o, end) {
      DecisionIs(cfg, t, v, opt);
    }
  }

  lemma HeardPart(cfg: Config, t: Tracker, w: seq<byte>, u: Tracker, x: seq<byte>, o: byte, end: bool)
    requires w != [] && Negotiates(t.state) && !t.state.SVerb? && Proper(Head(t.state) + w) && Proper(Head(u.state) + x)
    ensures var r := Step(cfg, t, w[0]); var x' := x + Wire(r.events);
      && Negotiates(r.t.state) && Proper(Head(r.t.state) + w[1..]) && Proper(Head(u.state) + x')
      && LocalOf(r.t, w[1..], u, x', o, end) == LocalOf(t, w, u, x, o, end)
  {
    HeadByte(cfg, t, w);
    assert Wire([]) == [] && x + [] == x;
    hide Step, Pick, Proper, Parsed, Lookup, Wire;
    SameSide(t, Step(cfg, t, w[0]).t.state, o, end);
  }

  lemma SameSide(t: Tracker, q: State, o: byte, us: bool)
    ensures Side(t.(state := q), o, us) == Side(t, o, us)
  {
  }

  lemma Heard(cfg: Config, t: Tracker, w: seq<byte>, u: Tracker, x: seq<byte>, o: byte, end: bool)
    requires w != [] && Negotiates(t.state) && Proper(Head(t.state) + w) && Proper(Head(u.state) + x)
    requires Fit(t.options.q, ByteStores(cfg, t, w[0]))
    ensures var r := Step(cfg, t, w[0]); var x' := x + Wire(r.events);
      && Negotiates(r.t.state) && Proper(Head(r.t.state) + w[1..]) && Proper(Head(u.state) + x')
      && var l, l' := LocalOf(t, w, u, x, o, end), LocalOf(r.t, w[1..], u, x', o, end);
      if Hears(t, w, o, end) then Answers(l, l', t.state.verb, end, Supports(cfg.table, o, end)) else l' == l
  {
    hide Step, LocalOf, Wire, Proper, Negotiates, Head, Answers, Supports, Fit, ByteStores;
    if t.state.SVerb? {
      HeardMessage(cfg, t, w, u, x, o, end);
    } else {
      HeardPart(cfg, t, w, u, x, o, end);
    }
  }

  // ----- every turn is a step of the abstract parties, or none

  function LastAfter(acts: seq<Action>, last: bool): bool {
    if acts == [CallOn] then true else if acts == [CallOff] then false else last
  }

  /** The abstract parties after at most one action. */
  ghost predicate Steps(n: Net, acts: seq<Action>, ok: bool, n': Net) {
    if acts == [] then n' == n else Enabled(n, acts[0]) && n' == Act(n, acts[0], ok)
  }

  lemma WiredSays(s: Duo)
    requires Wired(s)
    ensures Negotiates(s.a.state) && Negotiates(s.b.state) && Proper(Head(s.b.state) + s.ab)
        && Proper(Head(s.a.state) + s.ba)
  {
  }

  lemma WiredIs(s: Duo)
    requires Negotiates(s.a.state) && Negotiates(s.b.state) && Proper(Head(s.b.state) + s.ab)
        && Proper(Head(s.a.state) + s.ba)
    ensures Wired(s)
  {
  }

  lemma SameHead(t: Tracker, t': Tracker, w: seq<byte>)
    requires t'.state == t.state
    ensures Pending(t', w) == Pending(t, w)
  {
  }

  /** What the turn stores fits into both arrays. */
  ghost predicate TurnFits(ca: Config, cb: Config, s: Duo, t: Turn)
    requires CanTurn(s, t)
  {
    Fit(s.a.options.q, TurnStores(ca, cb, s, t, true)) && Fit(s.b.options.q, TurnStores(ca, cb, s, t, false))
  }

  lemma CallSeen(ca: Config, cb: Config, s: Duo, verb: Verb, opt: byte, o: byte, remote: bool, last: bool, ok: bool)
    requires Wired(s) && TurnFits(ca, cb, s, Call(verb, opt))
    ensures var t := Call(verb, opt); var acts := Mirrored(s, t, o, remote); var s' := Turned(ca, cb, s, t);
      Wired(s') && Steps(Seen(s, o, remote, last), acts, ok, Seen(s', o, remote, LastAfter(acts, last)))
  {
    hide Request, Wire, Pick, Proper, Lookup, Pending, Called, Wired, Yours, CommandOf, Side, Fit, Kept, Steps;
    WiredSays(s);
    var m := CallDecision(s.a, verb, opt);
    RequestSays(ca, s.a, verb, opt, o, !remote);
    ChannelGrows(s.b, s.ab, m.sends, opt, o, remote);
    var s' := Turned(ca, cb, s, Call(verb, opt));
    SameHead(s.a, s'.a, s.ba);
    WiredIs(s');
    YoursIs(verb, remote);
    var last' := LastAfter(Mirrored(s, Call(verb, opt), o, remote), last);
    var n, n' := Seen(s, o, remote, last), Seen(s', o, remote, last');
    if opt == o && Yours(verb) == remote {
      CallSteps(n, n', verb, ok);
    } else {
      assert n.toPeer + [] == n.toPeer;
      NoStep(n, ok);
    }
  }

  lemma CallSteps(n: Net, n': Net, verb: Verb, ok: bool)
    requires Yours(verb) == n.remote
    requires var m := Called(n.mine, verb == On(n.remote), On(n.remote), Off(n.remote));
      n' == n.(mine := m.next, toPeer := n.toPeer + m.sends, last := verb == On(n.remote))
    ensures Steps(n, if verb == On(n.remote) then [CallOn] else [CallOff], ok, n')
  {
    YoursIs(verb, n.remote);
  }

  /** The peer's view and the caller's are the same net. */
  lemma PeerSteps(n: Net, n': Net, verb: Verb, ok: bool)
    requires Yours(verb) == n.remote && n' == n.(peer := n'.peer, toPeer := n'.toPeer, toMe := n'.toMe)
    requires Answers(Local(n.peer, n.toPeer, n.toMe), Local(n'.peer, n'.toPeer, n'.toMe), verb, n.remote, ok)
    ensures Steps(n, [PeerReceives], ok, n')
  {
    YoursIs(verb, n.remote);
    assert n.toPeer[0] == verb && n.toPeer[1..] == n'.toPeer;
  }

  lemma NoStep(n: Net, ok: bool)
    ensures Steps(n, [], ok, n)
  {
  }

  lemma MeSteps(n: Net, n': Net, verb: Verb, ok: bool, supported: bool)
    requires Yours(verb) == !n.remote && n' == n.(mine := n'.mine, toPeer := n'.toPeer, toMe := n'.toMe)
    requires Answers(Local(n.mine, n.toMe, n.toPeer), Local(n'.mine, n'.toMe, n'.toPeer), verb, !n.remote, supported)
    requires n.toMe != [] ==> n.mine != No
    ensures Steps(n, [IReceive], ok, n')
  {
    YoursIs(verb, !n.remote);
    assert n.toMe[0] == verb && n.toMe[1..] == n'.toMe;
  }

  lemma PeerSeen(ca: Config, cb: Config, s: Duo, o: byte, remote: bool, last: bool)
    requires Wired(s) && s.ab != [] && TurnFits(ca, cb, s, ByteToB)
    ensures var acts := Mirrored(s, ByteToB, o, remote); var s' := Turned(ca, cb, s, ByteToB);
      Wired(s') && LastAfter(acts, last) == last
      && Steps(Seen(s, o, remote, last), acts, Supports(cb.table, o, remote), Seen(s', o, remote, last))
  {
    hide Step, Wire, Pick, Proper, Pending, Side, Supports, Answers, Wired, Yours, Negotiates, Head, Steps, Asked, Fit,
        ByteStores;
    WiredSays(s);
    Heard(cb, s.b, s.ab, s.a, s.ba, o, remote);
    var s' := Turned(ca, cb, s, ByteToB);
    var n, n' := Seen(s, o, remote, last), Seen(s', o, remote, last);
    WiredIs(s');
    NoStep(n, Supports(cb.table, o, remote));
    if Hears(s.b, s.ab, o, remote) {
      PeerSteps(n, n', s.b.state.verb, Supports(cb.table, o, remote));
    }
  }

  lemma MeSeen(ca: Config, cb: Config, s: Duo, o: byte, remote: bool, last: bool, ok: bool)
    requires Wired(s) && s.ba != [] && TurnFits(ca, cb, s, ByteToA)
    requires (Inv(Seen(s, o, remote, last), ok) || Stuck(Seen(s, o, remote, last)))
    ensures var acts := Mirrored(s, ByteToA, o, remote); var s' := Turned(ca, cb, s, ByteToA);
      Wired(s') && LastAfter(acts, last) == last && Steps(Seen(s, o, remote, last), acts, ok, Seen(s', o, remote, last))
  {
    hide Step, Wire, Pick, Proper, Pending, Side, Supports, Answers, Wired, Yours, Negotiates, Head, Steps, Asked, Inv,
        Stuck, Fit, ByteStores;
    WiredSays(s);
    Heard(ca, s.a, s.ba, s.b, s.ab, o, !remote);
    var s' := Turned(ca, cb, s, ByteToA);
    var n, n' := Seen(s, o, remote, last), Seen(s', o, remote, last);
    WiredIs(s');
    NoStep(n, ok);
    if Hears(s.a, s.ba, o, !remote) {
      NotAtRest(n, ok);
      MeSteps(n, n', s.a.state.verb, ok, Supports(ca.table, o, !remote));
    }
  }

  /** Nothing is under way to a caller whose option is off. */
  lemma NotAtRest(n: Net, ok: bool)
    requires Inv(n, ok) || Stuck(n)
    ensures n.toMe != [] ==> n.mine != No
  {
  }

  // ----- all runs

  /** Whether the last call about the option at that end was to turn it on. */
  function LastCall(turns: seq<Turn>, o: byte, remote: bool, last: bool): bool {
    if turns == [] then last else
      var t := turns[0];
      LastCall(turns[1..], o, remote,
          if t.Call? && t.opt == o && Yours(t.verb) == remote then t.verb == On(remote) else last)
  }

  lemma LastIs(s: Duo, t: Turn, o: byte, remote: bool, last: bool)
    requires CanTurn(s, t)
    ensures LastAfter(Mirrored(s, t, o, remote), last)
         == if t.Call? && t.opt == o && Yours(t.verb) == remote then t.verb == On(remote) else last
  {
  }

  lemma TurnSeen(ca: Config, cb: Config, s: Duo, t: Turn, o: byte, remote: bool, last: bool)
    requires Wired(s) && CanTurn(s, t) && TurnFits(ca, cb, s, t)
    requires var n, ok := Seen(s, o, remote, last), Supports(cb.table, o, remote); Inv(n, ok) || Stuck(n)
    ensures var acts := Mirrored(s, t, o, remote); var s' := Turned(ca, cb, s, t);
      Wired(s') && Steps(Seen(s, o, remote, last), acts, Supports(cb.table, o, remote),
          Seen(s', o, remote, LastAfter(acts, last)))
  {
    hide Turned, Wired, Seen, Steps, Inv, Stuck, Mirrored, LastAfter, TurnFits;
    match t {
      case Call(verb, opt) => CallSeen(ca, cb, s, verb, opt, o, remote, last, Supports(cb.table, o, remote));
      case ByteToB => PeerSeen(ca, cb, s, o, remote, last);
      case ByteToA => MeSeen(ca, cb, s, o, remote, last, Supports(cb.table, o, remote));
    }
  }

  lemma InvOrStuck(n: Net, acts: seq<Action>, ok: bool, n': Net)
    requires (Inv(n, ok) || Stuck(n)) && Steps(n, acts, ok, n')
    ensures Inv(n', ok) || Stuck(n')
  {
    if Inv(n, ok) && acts != [] {
      InvStep(n, acts[0], ok);
    }
  }

  /** A run of one action and more. */
  lemma OneMore(n: Net, acts: seq<Action>, rest: seq<Action>, ok: bool, n': Net)
    requires |acts| <= 1 && Steps(n, acts, ok, n') && Runs(n', rest, ok)
    ensures Runs(n, acts + rest, ok) && After(n, acts + rest, ok) == After(n', rest, ok)
  {
    if acts == [] {
      assert acts + rest == rest;
    } else {
      assert acts + rest == [acts[0]] + rest && (acts + rest)[1..] == rest;
    }
  }

  /** What the run stores fits into both arrays. */
  ghost predicate RunFits(ca: Config, cb: Config, s: Duo, turns: seq<Turn>)
    requires CanRun(ca, cb, s, turns)
  {
    Fit(s.a.options.q, Stores(ca, cb, s, turns, true)) && Fit(s.b.options.q, Stores(ca, cb, s, turns, false))
  }

  lemma TurnedOptions(ca: Config, cb: Config, s: Duo, t: Turn)
    requires CanTurn(s, t)
    ensures var s' := Turned(ca, cb, s, t);
      && s'.a.options == StoredAll(ca.left, s.a.options, TurnStores(ca, cb, s, t, true))
      && s'.b.options == StoredAll(cb.left, s.b.options, TurnStores(ca, cb, s, t, false))
  {
    match t {
      case Call(verb, opt) => RequestIs(ca, s.a, verb, opt);
      case ByteToB => StepOptions(cb, s.b, s.ab[0]);
      case ByteToA => StepOptions(ca, s.a, s.ba[0]);
    }
  }

  lemma StepOptions(cfg: Config, t: Tracker, b: byte)
    ensures Step(cfg, t, b).t.options == StoredAll(cfg.left, t.options, ByteStores(cfg, t, b))
  {
    hide Negotiate, SubEvents, Decision, StoredAll, Kept;
    assert StoredAll(cfg.left, t.options, []) == t.options by { AllNone(cfg.left, t.options); }
    if t.state.SVerb? {
      NegotiateIs(cfg, t, t.state.verb, b);
    }
  }

  lemma AllNone(left: Leftover, o: Store)
    ensures StoredAll(left, o, []) == o
  {
  }

  /** A run that fits begins with a turn that fits. */
  lemma RunFitsFirst(ca: Config, cb: Config, s: Duo, turns: seq<Turn>)
    requires turns != [] && CanRun(ca, cb, s, turns) && RunFits(ca, cb, s, turns)
    ensures TurnFits(ca, cb, s, turns[0]) && RunFits(ca, cb, Turned(ca, cb, s, turns[0]), turns[1..])
  {
    var s' := Turned(ca, cb, s, turns[0]);
    TurnedOptions(ca, cb, s, turns[0]);
    hide Turned, Fit, StoredAll, TurnStores;
    FitFirst(ca.left, s.a.options, TurnStores(ca, cb, s, turns[0], true), Stores(ca, cb, s', turns[1..], true));
    FitFirst(cb.left, s.b.options, TurnStores(ca, cb, s, turns[0], false), Stores(ca, cb, s', turns[1..], false));
  }

  /**
   After a run that stores at most one option besides BINARY at each end the trackers are,
   for every option and end, where the abstract parties are after the reflected actions.
   */
  lemma {:induction false} RunSeen(ca: Config, cb: Config, s: Duo, turns: seq<Turn>, o: byte, remote: bool, last: bool)
    requires Wired(s) && CanRun(ca, cb, s, turns) && RunFits(ca, cb, s, turns)
    requires var n, ok := Seen(s, o, remote, last), Supports(cb.table, o, remote); Inv(n, ok) || Stuck(n)
    ensures var n, ok := Seen(s, o, remote, last), Supports(cb.table, o, remote);
      var acts := Reflected(ca, cb, s, turns, o, remote);
      Wired(Ran(ca, cb, s, turns)) && Runs(n, acts, ok)
      && After(n, acts, ok) == Seen(Ran(ca, cb, s, turns), o, remote, LastCall(turns, o, remote, last))
    decreases |turns|
  {
    hide Turned, Wired, Seen, Inv, Stuck, Mirrored, Act, Enabled, LastAfter, Supports, Steps, CanTurn, Yours, On,
        RunFits, TurnFits;
    if turns != [] {
      var t := turns[0];
      RunFitsFirst(ca, cb, s, turns);
      var n, ok := Seen(s, o, remote, last), Supports(cb.table, o, remote);
      var acts, s' := Mirrored(s, t, o, remote), Turned(ca, cb, s, t);
      TurnSeen(ca, cb, s, t, o, remote, last);
      LastIs(s, t, o, remote, last);
      InvOrStuck(n, acts, ok, Seen(s', o, remote, LastAfter(acts, last)));
      RunSeen(ca, cb, s', turns[1..], o, remote, LastAfter(acts, last));
      OneMore(n, acts, Reflected(ca, cb, s', turns[1..], o, remote), ok, Seen(s', o, remote, LastAfter(acts, last)));
    }
  }

  // ----- from the start

  lemma AllQuiet(o: byte, remote: bool)
    ensures Wired(QUIET) && Seen(QUIET, o, remote, false) == O.Start(remote)
  {
    assert Pending(FRESH, []) == [];
  }

  /** In both trackers no option but BINARY is stored after the first. */
  ghost predicate OneEach(ca: Config, cb: Config, turns: seq<Turn>)
    requires CanRun(ca, cb, QUIET, turns)
  {
    OneOption(Stores(ca, cb, QUIET, turns, true)) && OneOption(Stores(ca, cb, QUIET, turns, false))
  }

  /** Such a run of the trackers is, for each option and end, a run of the abstract parties. */
  lemma DuoRefines(ca: Config, cb: Config, turns: seq<Turn>, o: byte, remote: bool)
    requires CanRun(ca, cb, QUIET, turns) && OneEach(ca, cb, turns)
    ensures var acts, ok := Reflected(ca, cb, QUIET, turns, o, remote), Supports(cb.table, o, remote);
      Wired(Ran(ca, cb, QUIET, turns)) && Runs(O.Start(remote), acts, ok)
      && After(O.Start(remote), acts, ok)
          == Seen(Ran(ca, cb, QUIET, turns), o, remote, LastCall(turns, o, remote, false))
  {
    AllQuiet(o, remote);
    assert Inv(O.Start(remote), Supports(cb.table, o, remote));
    RunSeen(ca, cb, QUIET, turns, o, remote, false);
  }

  /** At most one command about an option at one end is under way, and no refusal is answered by its opposite. */
  lemma DuoOneRequest(ca: Config, cb: Config, turns: seq<Turn>, o: byte, remote: bool)
    requires CanRun(ca, cb, QUIET, turns) && OneEach(ca, cb, turns)
    ensures var n := Seen(Ran(ca, cb, QUIET, turns), o, remote, LastCall(turns, o, remote, false));
      |n.toPeer| + |n.toMe| <= 1 && !Contradicted(n)
  {
    DuoRefines(ca, cb, turns, o, remote);
    OneRequest(remote, Reflected(ca, cb, QUIET, turns, o, remote), Supports(cb.table, o, remote));
  }

  lemma NothingPending(t: Tracker)
    requires Negotiates(t.state) && Proper(Head(t.state) + [])
    ensures Pending(t, []) == []
  {
    assert Head(t.state) + [] == Head(t.state);
  }

  /** Both trackers hold the option, at the caller's own or the other end, in the same settled state. */
  ghost predicate Agreed(s: Duo, cb: Config, turns: seq<Turn>, o: byte, remote: bool) {
    && Side(s.a, o, !remote) == Side(s.b, o, remote) && Side(s.a, o, !remote) in {No, Yes}
    && (Side(s.a, o, !remote) == Yes <==> Supports(cb.table, o, remote) && LastCall(turns, o, remote, false))
  }

  /**
   When all bytes of such a run have been read, both trackers agree on every option at the caller's own
   end: it is on exactly when the peer supports it and the last call was WILL. At the other end this is
   so exactly for the runs that never forget a queued request.
   */
  lemma DuoAgreement(ca: Config, cb: Config, turns: seq<Turn>, o: byte, remote: bool)
    requires CanRun(ca, cb, QUIET, turns) && OneEach(ca, cb, turns)
    requires Ran(ca, cb, QUIET, turns).ab == Ran(ca, cb, QUIET, turns).ba == []
    ensures var acts, ok := Reflected(ca, cb, QUIET, turns, o, remote), Supports(cb.table, o, remote);
      Runs(O.Start(remote), acts, ok)
      && (Agreed(Ran(ca, cb, QUIET, turns), cb, turns, o, remote)
          <==> !remote || !EverForgets(O.Start(remote), acts, ok))
  {
    var s := Ran(ca, cb, QUIET, turns);
    var acts, ok := Reflected(ca, cb, QUIET, turns, o, remote), Supports(cb.table, o, remote);
    DuoRefines(ca, cb, turns, o, remote);
    NothingPending(s.a);
    NothingPending(s.b);
    hide Reflected, Ran, CanRun, Supports, LastCall, Runs, EverForgets, Pending, Side;
    assert Settled(After(O.Start(remote), acts, ok), ok) == Agreed(s, cb, turns, o, remote);
    if remote {
      RemoteAgreement(acts, ok);
    } else {
      Agreement(acts, ok);
    }
  }

  // ----- chunks

  function BytesToB(n: nat): seq<Turn> {
    if n == 0 then [] else [ByteToB] + BytesToB(n - 1)
  }

  lemma {:induction false} WireFlat(es: seq<Event>)
    ensures Wire(Flat(es)) == Wire(es)
    decreases |es|
  {
    if es != [] {
      var first := if es[0].Data? then Singles(es[0].bytes) else [es[0]];
      WireAppend(first, Flat(es[1..]));
      WireFlat(es[1..]);
      if es[0].Data? {
        NoWire(first);
      } else {
        assert first[1..] == [];
      }
    }
  }

  /** The first of the bytes. */
  lemma ChunkStep(ca: Config, cb: Config, s: Duo, turns: seq<Turn>)
    requires s.ab != [] && CanRun(ca, cb, Turned(ca, cb, s, ByteToB), turns)
    ensures CanRun(ca, cb, s, [ByteToB] + turns)
    ensures Ran(ca, cb, s, [ByteToB] + turns) == Ran(ca, cb, Turned(ca, cb, s, ByteToB), turns)
  {
    assert ([ByteToB] + turns)[1..] == turns;
    hide Turned;
  }

  lemma PieceSent(cb: Config, b: Tracker, d: seq<byte>, ba: seq<byte>)
    requires d != []
    ensures var o := Step(cb, b, d[0]); var rest := Run(cb, o.t, d[1..]); var r := Run(cb, b, d);
      r.t == rest.t && ba + Wire(o.events) + Wire(rest.events) == ba + Wire(r.events)
  {
    var o := Step(cb, b, d[0]);
    hide Step, Wire;
    WireAppend(o.events, Run(cb, o.t, d[1..]).events);
  }

  /**
   Delivering bytes in one piece is the same as delivering them one by one: the peer ends in the state
   of the whole piece, and what it sends is what the whole piece makes it send.
   */
  lemma {:induction false} ChunkDelivered(ca: Config, cb: Config, s: Duo, d: seq<byte>, more: seq<byte>)
    requires s.ab == d + more
    ensures var r := Run(cb, s.b, d);
      CanRun(ca, cb, s, BytesToB(|d|)) && Ran(ca, cb, s, BytesToB(|d|)) == Duo(s.a, r.t, more, s.ba + Wire(r.events))
    decreases |d|
  {
    if d == [] {
      assert s.ab == more && s.ba + [] == s.ba;
    } else {
      hide Step, Run, Wire, CanRun, Ran;
      assert s.ab[0] == d[0] && s.ab[1..] == d[1..] + more;
      var s' := Turned(ca, cb, s, ByteToB);
      ChunkDelivered(ca, cb, s', d[1..], more);
      ChunkStep(ca, cb, s, BytesToB(|d| - 1));
      PieceSent(cb, s.b, d, s.ba);
    }
  }
}
