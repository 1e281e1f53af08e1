/**
 TcpShell/libtelnet.c: what the applications of two trackers are told of an option, over a whole run.
 The option events of a run are those of the abstract parties, so at rest the last one tells how the
 option stands.
 */
module TelnetDuoTold {
  import opened Bytes
  import opened O = TelnetOption
  import opened TelnetStore
  import opened TelnetTracker
  import opened TelnetDuo

  /** Whether the last option event says that an option is on, or what was said before if there is none. */
  function LastTold(es: seq<Event>, was: bool): bool {
    if es == [] then was else LastTold(es[1..], if es[0].Negotiated? then Positive(es[0].verb) else was)
  }

  /** The events of a turn for the option at that end, at the caller (`me`) or the peer. */
  function TurnEvents(ca: Config, cb: Config, s: Duo, t: Turn, o: byte, remote: bool, me: bool): seq<Event>
    requires CanTurn(s, t)
  {
    match t {
      case Call(_, _) => []
      case ByteToB => if !me && Hears(s.b, s.ab, o, remote) then Step(cb, s.b, s.ab[0]).events else []
      case ByteToA => if me && Hears(s.a, s.ba, o, !remote) then Step(ca, s.a, s.ba[0]).events else []
    }
  }

  /** Whether the last event about the option at that end in a run says that it is on. */
  ghost function DuoSaid(ca: Config, cb: Config, s: Duo, turns: seq<Turn>, o: byte, remote: bool, me: bool,
          was: bool): bool
    requires CanRun(ca, cb, s, turns)
    decreases |turns|
  {
    if turns == [] then was else
      DuoSaid(ca, cb, Turned(ca, cb, s, turns[0]), turns[1..], o, remote, me,
          LastTold(TurnEvents(ca, cb, s, turns[0], o, remote, me), was))
  }

  // ----- one turn

  lemma {:induction false} ToldAppend(a: seq<Event>, b: seq<Event>, was: bool)
    ensures LastTold(a + b, was) == LastTold(b, LastTold(a, was))
    decreases |a|
  {
    if a == [] {
      assert a + b == b;
    } else {
      assert (a + b)[1..] == a[1..] + b;
      ToldAppend(a[1..], b, if a[0].Negotiated? then Positive(a[0].verb) else was);
    }
  }

  lemma {:induction false} SendsTellNothing(verbs: seq<Verb>, opt: byte, was: bool)
    ensures LastTold(AllSends(verbs, opt), was) == was
    decreases |verbs|
  {
    if verbs != [] {
      assert AllSends(verbs, opt)[1..] == AllSends(verbs[1..], opt);
      SendsTellNothing(verbs[1..], opt, was);
    }
  }

  lemma {:induction false} NotesTell(notes: seq<Note>, opt: byte, was: bool)
    ensures LastTold(AllNotes(notes, opt), was) == LastSaid(notes, was)
    decreases |notes|
  {
    if notes != [] {
      assert AllNotes(notes, opt)[1..] == AllNotes(notes[1..], opt);
      NotesTell(notes[1..], opt, if notes[0].Told? then Positive(notes[0].verb) else was);
    }
  }

  lemma MoveTells(m: O.Move, opt: byte, was: bool)
    ensures LastTold(MoveEvents(m, opt), was) == LastSaid(m.notes, was)
  {
    assert MoveEvents(m, opt) == AllSends(m.sends, opt) + AllNotes(m.notes, opt);
    ToldAppend(AllSends(m.sends, opt), AllNotes(m.notes, opt), was);
    SendsTellNothing(m.sends, opt, was);
    NotesTell(m.notes, opt, was);
  }

  /** A command that is heard tells what the decision about it tells. */
  lemma HeardTells(cfg: Config, t: Tracker, w: seq<byte>, o: byte, end: bool, was: bool)
    requires w != [] && Hears(t, w, o, end)
    ensures Yours(t.state.verb) == end
    ensures LastTold(Step(cfg, t, w[0]).events, was) == LastSaid(Decision(cfg, t, t.state.verb, o).notes, was)
  {
    hide Decision, Negotiate;
    NegotiateIs(cfg, t, t.state.verb, o);
    MoveTells(Decision(cfg, t, t.state.verb, o), o, was);
    assert Step(cfg, t, o).events == Negotiate(cfg, t, t.state.verb, o).events;
  }

  /** The notes of the abstract parties for a turn, if it is an action for them. */
  function ActNotes(n: Net, acts: seq<Action>, ok: bool, me: bool): seq<Note>
    requires acts != [] ==> Enabled(n, acts[0])
  {
    if acts == [] then [] else Notes(n, acts[0], ok, me)
  }

  /** The first command on the way is the one that is heard. */
  lemma FirstComing(t: Tracker, w: seq<byte>, o: byte, end: bool)
    requires w != [] && Proper(Head(t.state) + w) && Hears(t, w, o, end)
    ensures var c := Pick(Pending(t, w), o, end); c != [] && c[0] == t.state.verb
  {
    hide Parsed;
    LastByte(t, w);
    PickAppend([Message(t.state.verb, w[0])], Parsed(w[1..]), o, end);
    PickOne(Message(t.state.verb, w[0]), o, end);
  }

  lemma SilenceTells(was: bool)
    ensures LastTold([], was) == was == LastSaid([], was)
  {
  }

  lemma PeerTells(ca: Config, cb: Config, s: Duo, o: byte, remote: bool, last: bool, me: bool, was: bool)
    requires Wired(s) && s.ab != [] && CanMirror(s, ByteToB, o, remote, last)
    ensures var n, acts, ok := Seen(s, o, remote, last), Mirrored(s, ByteToB, o, remote), Supports(cb.table, o, remote);
      LastTold(TurnEvents(ca, cb, s, ByteToB, o, remote, me), was) == LastSaid(ActNotes(n, acts, ok, me), was)
  {
    hide Step, Pick, Proper, Pending, Side, Supports, Wired, Yours, Negotiates, Head, Asked, Decision, Lookup, LastSaid,
        LastTold;
    SilenceTells(was);
    WiredSays(s);
    if Hears(s.b, s.ab, o, remote) {
      HeardTells(cb, s.b, s.ab, o, remote, was);
      DecisionIs(cb, s.b, s.b.state.verb, o);
      FirstComing(s.b, s.ab, o, remote);
    }
  }

  /** The action that mirrors the turn is one the abstract parties can take. */
  predicate CanMirror(s: Duo, t: Turn, o: byte, remote: bool, last: bool)
    requires CanTurn(s, t)
  {
    var acts := Mirrored(s, t, o, remote);
    acts != [] ==> Enabled(Seen(s, o, remote, last), acts[0])
  }

  lemma MeTells(ca: Config, cb: Config, s: Duo, o: byte, remote: bool, last: bool, ok: bool, me: bool, was: bool)
    requires Wired(s) && s.ba != [] && CanMirror(s, ByteToA, o, remote, last)
    requires Inv(Seen(s, o, remote, last), ok) || Stuck(Seen(s, o, remote, last))
    ensures var n, acts := Seen(s, o, remote, last), Mirrored(s, ByteToA, o, remote);
      LastTold(TurnEvents(ca, cb, s, ByteToA, o, remote, me), was) == LastSaid(ActNotes(n, acts, ok, me), was)
  {
    hide Step, Pick, Proper, Pending, Side, Supports, Wired, Yours, Negotiates, Head, Asked, Decision, Inv, Stuck,
        Lookup, LastSaid, LastTold;
    SilenceTells(was);
    WiredSays(s);
    if Hears(s.a, s.ba, o, !remote) {
      HeardTells(ca, s.a, s.ba, o, !remote, was);
      DecisionIs(ca, s.a, s.a.state.verb, o);
      FirstComing(s.a, s.ba, o, !remote);
      NotAtRest(Seen(s, o, remote, last), ok);
      EitherWay(!remote, Side(s.a, o, !remote), s.a.state.verb, Supports(ca.table, o, !remote));
    }
  }

  /** Support matters only for an option that is off. */
  lemma EitherWay(end: bool, q: Q, verb: Verb, ok: bool)
    requires q != No && (verb == On(end) || verb == Off(end))
    ensures Asked(end, q, verb, ok) == Asked(end, q, verb, true)
  {
  }

  lemma StepsEnabled(s: Duo, t: Turn, o: byte, remote: bool, last: bool, ok: bool, n': Net)
    requires CanTurn(s, t) && Steps(Seen(s, o, remote, last), Mirrored(s, t, o, remote), ok, n')
    ensures CanMirror(s, t, o, remote, last)
  {
  }

  lemma TurnTells(ca: Config, cb: Config, s: Duo, t: Turn, o: byte, remote: bool, last: bool, me: bool, was: bool)
    requires Wired(s) && CanTurn(s, t) && CanMirror(s, t, o, remote, last)
    requires var n, ok := Seen(s, o, remote, last), Supports(cb.table, o, remote); Inv(n, ok) || Stuck(n)
    ensures var n, acts, ok := Seen(s, o, remote, last), Mirrored(s, t, o, remote), Supports(cb.table, o, remote);
      LastTold(TurnEvents(ca, cb, s, t, o, remote, me), was) == LastSaid(ActNotes(n, acts, ok, me), was)
  {
    hide Wired, Seen, Inv, Stuck, Supports, CanMirror, Step, Hears, Enabled;
    var n, ok := Seen(s, o, remote, last), Supports(cb.table, o, remote);
    match t {
      case Call(verb, opt) => CallTells(n, verb == On(remote), ok, me);
      case ByteToB => PeerTells(ca, cb, s, o, remote, last, me, was);
      case ByteToA => MeTells(ca, cb, s, o, remote, last, ok, me, was);
    }
  }

  lemma CallTells(n: Net, on: bool, ok: bool, me: bool)
    ensures Enabled(n, if on then CallOn else CallOff) && Notes(n, if on then CallOn else CallOff, ok, me) == []
  {
  }

  // ----- all runs

  lemma OneMoreSaid(n: Net, acts: seq<Action>, rest: seq<Action>, ok: bool, n': Net, me: bool, was: bool)
    requires |acts| <= 1 && Steps(n, acts, ok, n') && Runs(n', rest, ok) && Runs(n, acts + rest, ok)
    ensures Said(n, acts + rest, ok, me, was) == Said(n', rest, ok, me, LastSaid(ActNotes(n, acts, ok, me), was))
  {
    if acts == [] {
      assert acts + rest == rest;
    } else {
      assert acts + rest == [acts[0]] + rest && (acts + rest)[1..] == rest;
    }
  }

  lemma {:induction false} RunSaid(ca: Config, cb: Config, s: Duo, turns: seq<Turn>, o: byte, remote: bool, last: bool,
          me: bool, was: bool)
    requires Wired(s) && CanRun(ca, cb, s, turns) && RunFits(ca, cb, s, turns)
    requires var n, ok := Seen(s, o, remote, last), Supports(cb.table, o, remote); Inv(n, ok) || Stuck(n)
    ensures var n, ok := Seen(s, o, remote, last), Supports(cb.table, o, remote);
      var acts := Reflected(ca, cb, s, turns, o, remote);
      Runs(n, acts, ok) && DuoSaid(ca, cb, s, turns, o, remote, me, was) == Said(n, acts, ok, me, was)
    decreases |turns|
  {
    hide Turned, Wired, Seen, Inv, Stuck, Mirrored, Act, Enabled, LastAfter, Supports, Steps, CanTurn, Yours, On,
        RunFits, TurnFits, LastTold, LastSaid, TurnEvents, ActNotes, Notes, CanMirror;
    if turns != [] {
      var t := turns[0];
      RunFitsFirst(ca, cb, s, turns);
      var n, ok := Seen(s, o, remote, last), Supports(cb.table, o, remote);
      var acts, s' := Mirrored(s, t, o, remote), Turned(ca, cb, s, t);
      var n', rest := Seen(s', o, remote, LastAfter(acts, last)), Reflected(ca, cb, s', turns[1..], o, remote);
      TurnSeen(ca, cb, s, t, o, remote, last);
      StepsEnabled(s, t, o, remote, last, ok, n');
      TurnTells(ca, cb, s, t, o, remote, last, me, was);
      InvOrStuck(n, acts, ok, n');
      RunSaid(ca, cb, s', turns[1..], o, remote, LastAfter(acts, last), me,
          LastTold(TurnEvents(ca, cb, s, t, o, remote, me), was));
      OneMore(n, acts, rest, ok, n');
      StepsActs(n, acts, ok, n');
      OneMoreSaid(n, acts, rest, ok, n', me, was);
    }
  }

  lemma StepsActs(n: Net, acts: seq<Action>, ok: bool, n': Net)
    requires Steps(n, acts, ok, n')
    ensures acts != [] ==> Enabled(n, acts[0])
  {
  }

  lemma QuietSaid(ca: Config, cb: Config, turns: seq<Turn>, o: byte, remote: bool, me: bool)
    requires CanRun(ca, cb, QUIET, turns) && OneEach(ca, cb, turns)
    ensures var acts, ok := Reflected(ca, cb, QUIET, turns, o, remote), Supports(cb.table, o, remote);
      && Runs(O.Start(remote), acts, ok)
      && DuoSaid(ca, cb, QUIET, turns, o, remote, me, false) == Said(O.Start(remote), acts, ok, me, false)
  {
    hide Said, DuoSaid, Runs, Reflected, Supports;
    AllQuiet(o, remote);
    assert Inv(O.Start(remote), Supports(cb.table, o, remote));
    RunSaid(ca, cb, QUIET, turns, o, remote, false, me, false);
  }

  /** Nothing is under way between the abstract parties, either. */
  lemma RestSeen(ca: Config, cb: Config, turns: seq<Turn>, o: byte, remote: bool)
    requires CanRun(ca, cb, QUIET, turns) && OneEach(ca, cb, turns)
    requires Ran(ca, cb, QUIET, turns).ab == Ran(ca, cb, QUIET, turns).ba == []
    ensures var acts, ok := Reflected(ca, cb, QUIET, turns, o, remote), Supports(cb.table, o, remote);
      && Runs(O.Start(remote), acts, ok)
      && var n, s := After(O.Start(remote), acts, ok), Ran(ca, cb, QUIET, turns);
      n.toPeer == n.toMe == [] && n.mine == Side(s.a, o, !remote) && n.peer == Side(s.b, o, remote)
  {
    hide Reflected, Ran, CanRun, Supports, LastCall, Runs, Pending, Side, Wired, OneEach, Negotiates, Head, Proper,
        Parsed, Lookup;
    var s := Ran(ca, cb, QUIET, turns);
    DuoRefines(ca, cb, turns, o, remote);
    WiredSays(s);
    NothingPending(s.a);
    NothingPending(s.b);
  }

  /**
   When all bytes of such a run have been read, each application has last been told, of every option and
   end, what its tracker holds: the peer's always, the caller's exactly if no request was forgotten.
   */
  lemma DuoTold(ca: Config, cb: Config, turns: seq<Turn>, o: byte, remote: bool)
    requires CanRun(ca, cb, QUIET, turns) && OneEach(ca, cb, turns)
    requires Ran(ca, cb, QUIET, turns).ab == Ran(ca, cb, QUIET, turns).ba == []
    ensures var s, acts := Ran(ca, cb, QUIET, turns), Reflected(ca, cb, QUIET, turns, o, remote);
      var ok := Supports(cb.table, o, remote);
      && (DuoSaid(ca, cb, QUIET, turns, o, remote, false, false) <==> Side(s.b, o, remote) == Yes)
      && Runs(O.Start(remote), acts, ok)
      && ((DuoSaid(ca, cb, QUIET, turns, o, remote, true, false) <==> Side(s.a, o, !remote) == Yes)
          <==> !remote || !EverForgets(O.Start(remote), acts, ok))
  {
    hide *;
    RestSeen(ca, cb, turns, o, remote);
    QuietSaid(ca, cb, turns, o, remote, true);
    QuietSaid(ca, cb, turns, o, remote, false);
    ToldAtRest(remote, Reflected(ca, cb, QUIET, turns, o, remote), Supports(cb.table, o, remote));
  }
}
