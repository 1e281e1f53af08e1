/**
 TcpShell/libtelnet.c: option negotiation by the Q method (section 7 of RFC 1143). The decisions are
 functions of one side's option state; what follows them is two parties that talk over FIFO channels.
 */
module TelnetOption {
  /** Half a state byte that none of the states is stored as. */
  type junk = x: int | 6 <= x < 16 witness 6

  datatype Q = No | Yes | WantNo | WantYes | WantNoOp | WantYesOp | Junk(code: junk)

  datatype Verb = Will | Wont | Do | Dont

  datatype Note = Told(verb: Verb) | DontAnsweredByWill | WontAnsweredByDo

  /** What a request or call does: the new option state if it is stored, what is sent, what the application hears. */
  datatype Move = Move(stored: bool, next: Q, sends: seq<Verb>, notes: seq<Note>)

  function Keep(q: Q, sends: seq<Verb>): Move {
    Move(false, q, sends, [])
  }

  // ----- requests received (`_negotiate`)

  /** DO or DONT, about our end; `ok` is whether the option is supported there. */
  function AskedUs(us: Q, verb: Verb, ok: bool): Move
    requires verb == Do || verb == Dont
  {
    if verb == Do then
      match us {
        case No => if ok then Move(true, Yes, [Will], [Told(Do)]) else Keep(us, [Wont])
        case WantNo => Move(true, No, [], [Told(Dont), WontAnsweredByDo])
        case WantNoOp => Move(true, Yes, [], [Told(Do), WontAnsweredByDo])
        case WantYes => Move(true, Yes, [], [Told(Do)])
        case WantYesOp => Move(true, WantNo, [Wont], [Told(Do)])
        case Yes | Junk(_) => Keep(us, [])
      }
    else
      match us {
        case Yes => Move(true, No, [Wont], [Told(Dont)])
        case WantNo => Move(true, No, [], [Told(Wont)])
        case WantNoOp => Move(true, WantYes, [Will], [Told(Will)])
        case WantYes | WantYesOp => Move(true, No, [], [])
        case No | Junk(_) => Keep(us, [])
      }
  }

  /** WILL or WONT, about the remote end. */
  function AskedHim(him: Q, verb: Verb, ok: bool): Move
    requires verb == Will || verb == Wont
  {
    if verb == Will then
      match him {
        case No => if ok then Move(true, Yes, [Do], [Told(Will)]) else Keep(him, [Dont])
        case WantNo => Move(true, No, [], [Told(Wont), DontAnsweredByWill])
        case WantNoOp => Move(true, Yes, [], [Told(Will), DontAnsweredByWill])
        case WantYes => Move(true, Yes, [], [Told(Will)])
        case WantYesOp => Move(true, WantNo, [Dont], [Told(Will)])
        case Yes | Junk(_) => Keep(him, [])
      }
    else
      match him {
        case Yes => Move(true, No, [Dont], [Told(Wont)])
        case WantNo => Move(true, No, [], [Told(Wont)])
        case WantNoOp => Move(true, WantYes, [], [Told(Do)])
        case WantYes | WantYesOp => Move(true, No, [], [])
        case No | Junk(_) => Keep(him, [])
      }
  }

  // ----- calls of the application (`telnet_negotiate`)

  /** WILL or WONT about our end; the same with DO and DONT about the remote end. */
  function Called(q: Q, on: bool, ask: Verb, refuse: Verb): Move {
    if on then
      match q {
        case No => Move(true, WantYes, [ask], [])
        case WantNo => Move(true, WantNoOp, [], [])
        case WantYesOp => Move(true, WantYes, [], [])
        case _ => Keep(q, [])
      }
    else
      match q {
        case Yes => Move(true, WantNo, [refuse], [])
        case WantYes => Move(true, WantYesOp, [], [])
        case WantNoOp => Move(true, WantNo, [], [])
        case _ => Keep(q, [])
      }
  }

  // ----- the method as section 7 of RFC 1143 describes it

  datatype Phase = IsNo | IsYes | AsksNo | AsksYes

  /** The state of an option at one end, and whether the opposite of what is being asked is queued. */
  datatype Rfc = Rfc(phase: Phase, opposite: bool)

  function RfcOf(q: Q): Rfc
    requires !q.Junk?
  {
    match q {
      case No => Rfc(IsNo, false)
      case Yes => Rfc(IsYes, false)
      case WantNo => Rfc(AsksNo, false)
      case WantYes => Rfc(AsksYes, false)
      case WantNoOp => Rfc(AsksNo, true)
      case WantYesOp => Rfc(AsksYes, true)
    }
  }

  /** The state that the code keeps for it. */
  function CodeOf(s: Rfc): Q {
    match s.phase {
      case IsNo => No
      case IsYes => Yes
      case AsksNo => if s.opposite then WantNoOp else WantNo
      case AsksYes => if s.opposite then WantYesOp else WantYes
    }
  }

  /** The other end says on or off; `agree` is whether we would turn the option on. The answers say on or off, too. */
  function RfcReceives(s: Rfc, on: bool, agree: bool): (Rfc, seq<bool>) {
    match s.phase {
      case IsNo => if !on then (s, []) else if agree then (Rfc(IsYes, false), [true]) else (s, [false])
      case IsYes => if on then (s, []) else (Rfc(IsNo, false), [false])
      case AsksNo =>
        if s.opposite then (if on then (Rfc(IsYes, false), []) else (Rfc(AsksYes, false), [true]))
        else (Rfc(IsNo, false), [])
      case AsksYes =>
        if !on then (Rfc(IsNo, false), [])
        else if s.opposite then (Rfc(AsksNo, false), [false])
        else (Rfc(IsYes, false), [])
    }
  }

  /** We want the option on or off. */
  function RfcWants(s: Rfc, on: bool): (Rfc, seq<bool>) {
    match s.phase {
      case IsNo => if on then (Rfc(AsksYes, false), [true]) else (s, [])
      case IsYes => if on then (s, []) else (Rfc(AsksNo, false), [false])
      case AsksNo => (Rfc(AsksNo, on), [])
      case AsksYes => (Rfc(AsksYes, !on), [])
    }
  }

  /** What an answer that says on or off is called, from the end it is about (`us`) or from the other one. */
  function Answer(us: bool, on: bool): Verb {
    if us then (if on then Will else Wont) else if on then Do else Dont
  }

  function Replies(us: bool, says: seq<bool>): seq<Verb> {
    seq(|says|, i requires 0 <= i < |says| => Answer(us, says[i]))
  }

  /** A command received about an option at our end, or at the other one. */
  function Receives(us: bool, q: Q, on: bool, ok: bool): Move {
    if us then AskedUs(q, if on then Do else Dont, ok) else AskedHim(q, if on then Will else Wont, ok)
  }

  /** A queued request for the remote end is due, which the code does not send. */
  predicate Skips(us: bool, q: Q, on: bool) {
    !us && q == WantNoOp && !on
  }

  /** A command received does what the method says, except that this request is not sent. */
  lemma ReceivesByRfc(us: bool, q: Q, on: bool, ok: bool)
    requires !q.Junk?
    ensures var m, r := Receives(us, q, on, ok), RfcReceives(RfcOf(q), on, ok);
      && m.next == CodeOf(r.0) && (m.stored <==> m.next != q)
      && (m.sends == Replies(us, r.1) <==> !Skips(us, q, on)) && (Skips(us, q, on) ==> m.sends == [])
  {
    assert Replies(us, []) == [] && Replies(us, [true]) == [Answer(us, true)];
    assert Replies(us, [false]) == [Answer(us, false)];
  }

  /** Calls always do. */
  lemma CallsByRfc(us: bool, q: Q, on: bool)
    requires !q.Junk?
    ensures var m, r := Called(q, on, Answer(us, true), Answer(us, false)), RfcWants(RfcOf(q), on);
      m.next == CodeOf(r.0) && (m.stored <==> m.next != q) && m.sends == Replies(us, r.1) && m.notes == []
  {
    assert Replies(us, []) == [] && Replies(us, [true]) == [Answer(us, true)];
    assert Replies(us, [false]) == [Answer(us, false)];
  }

  /** A command for what is so already does nothing, and none does for a state that is none. */
  lemma Ignored(us: bool, q: Q, on: bool, ok: bool)
    requires q == (if on then Yes else No) || q.Junk?
    ensures Receives(us, q, on, ok) == Keep(q, [])
  {
  }

  // ----- what the application is told

  /** The option is on at that end, as far as is known there. */
  predicate IsOn(q: Q) {
    q == Yes || q == WantNo || q == WantNoOp
  }

  /** The verb says that the option is on, or to be turned on. */
  predicate Positive(verb: Verb) {
    verb == Will || verb == Do
  }

  /**
   The application is told when the option goes on or off, by the verb received unless it had been asked to go off;
   and when a queued request to turn it on again is due or granted after all.
   */
  function Tells(us: bool, q: Q, on: bool, next: Q): seq<Note> {
    if q == WantNo then [Told(if us && on then Dont else Wont)] + Complains(us, on)
    else if q == WantNoOp then [Told(Answer(us == !on, true))] + Complains(us, on)
    else if IsOn(q) != IsOn(next) then [Told(Answer(!us, on))]
    else []
  }

  /** A refusal was answered by its opposite. */
  function Complains(us: bool, on: bool): seq<Note> {
    if !on then [] else if us then [WontAnsweredByDo] else [DontAnsweredByWill]
  }

  lemma ReceivesTells(us: bool, q: Q, on: bool, ok: bool)
    ensures var m := Receives(us, q, on, ok); m.notes == Tells(us, q, on, m.next)
  {
  }

  // ----- a caller and a peer that only answers

  /**
   The caller's state of the option, the peer's, the two channels, and whether the last call was to
   turn it on. `remote` tells whose end the option is about: WILL and WONT for the caller's own end,
   DO and DONT for the remote one.
   */
  datatype Net = Net(remote: bool, mine: Q, peer: Q, toPeer: seq<Verb>, toMe: seq<Verb>, last: bool)

  datatype Action = CallOn | CallOff | PeerReceives | IReceive

  function Start(remote: bool): Net {
    Net(remote, No, No, [], [], false)
  }

  function On(remote: bool): Verb {
    if remote then Do else Will
  }

  function Off(remote: bool): Verb {
    if remote then Dont else Wont
  }

  function Asked(remote: bool, q: Q, verb: Verb, ok: bool): Move
    requires verb == On(remote) || verb == Off(remote)
  {
    if remote then AskedUs(q, verb, ok) else AskedHim(q, verb, ok)
  }

  predicate Enabled(s: Net, a: Action) {
    (a == PeerReceives ==> s.toPeer != [] && s.toPeer[0] in {On(s.remote), Off(s.remote)})
    && (a == IReceive ==> s.toMe != [] && s.toMe[0] in {On(!s.remote), Off(!s.remote)})
  }

  /** One action; `ok` is whether the peer supports the option. The caller supports it, or it would not call. */
  function Act(s: Net, a: Action, ok: bool): Net
    requires Enabled(s, a)
  {
    match a {
      case CallOn => var m := Called(s.mine, true, On(s.remote), Off(s.remote));
          s.(mine := m.next, toPeer := s.toPeer + m.sends, last := true)
      case CallOff => var m := Called(s.mine, false, On(s.remote), Off(s.remote));
          s.(mine := m.next, toPeer := s.toPeer + m.sends, last := false)
      case PeerReceives => var m := Asked(s.remote, s.peer, s.toPeer[0], ok);
          s.(peer := m.next, toPeer := s.toPeer[1..], toMe := s.toMe + m.sends)
      case IReceive => var m := Asked(!s.remote, s.mine, s.toMe[0], true);
          s.(mine := m.next, toMe := s.toMe[1..], toPeer := s.toPeer + m.sends)
    }
  }

  /** A run takes only enabled actions. */
  ghost predicate Runs(s: Net, acts: seq<Action>, ok: bool)
    decreases |acts|
  {
    acts != [] ==> Enabled(s, acts[0]) && Runs(Act(s, acts[0], ok), acts[1..], ok)
  }

  ghost function After(s: Net, acts: seq<Action>, ok: bool): Net
    requires Runs(s, acts, ok)
    decreases |acts|
  {
    if acts == [] then s else After(Act(s, acts[0], ok), acts[1..], ok)
  }

  /**
   The code confirms the end of the remote option while a new
   request for it is queued, and forgets to send that request.
   */
  predicate Forgets(s: Net, a: Action) {
    s.remote && s.mine == WantNoOp && a == IReceive
  }

  ghost predicate EverForgets(s: Net, acts: seq<Action>, ok: bool)
    requires Runs(s, acts, ok)
    decreases |acts|
  {
    acts != [] && (Forgets(s, acts[0]) || EverForgets(Act(s, acts[0], ok), acts[1..], ok))
  }

  /** A request under way, and where its answer is. */
  ghost predicate Asking(s: Net, ok: bool) {
    (s.toPeer == [On(s.remote)] && s.toMe == [] && s.peer == No)
    || (s.toPeer == [] && s.toMe == [On(!s.remote)] && s.peer == Yes && ok)
    || (s.toPeer == [] && s.toMe == [Off(!s.remote)] && s.peer == No && !ok)
  }

  ghost predicate Leaving(s: Net, ok: bool) {
    ok && ((s.toPeer == [Off(s.remote)] && s.toMe == [] && s.peer == Yes)
        || (s.toPeer == [] && s.toMe == [Off(!s.remote)] && s.peer == No))
  }

  /** What every reachable state satisfies that has not forgotten a request. */
  ghost predicate Inv(s: Net, ok: bool) {
    && (s.mine == No ==> s.toPeer == [] && s.toMe == [] && s.peer == No)
    && (s.mine == Yes ==> s.toPeer == [] && s.toMe == [] && s.peer == Yes && ok)
    && (s.mine in {WantYes, WantYesOp} ==> Asking(s, ok))
    && (s.mine in {WantNo, WantNoOp} ==> Leaving(s, ok))
    && (s.last ==> s.mine in {Yes, WantYes, WantNoOp} || (!ok && s.mine == No))
    && (!s.last ==> s.mine in {No, WantNo, WantYesOp})
  }

  /** Waiting for the answer to a request that was never sent. */
  ghost predicate Stuck(s: Net) {
    s.toPeer == [] && s.toMe == [] && s.mine in {WantYes, WantYesOp} && s.peer == No
  }

  lemma CallStep(s: Net, a: Action, ok: bool)
    requires Inv(s, ok) && (a.CallOn? || a.CallOff?)
    ensures !Forgets(s, a) && Inv(Act(s, a, ok), ok)
  {
  }

  lemma PeerStep(s: Net, ok: bool)
    requires Inv(s, ok) && Enabled(s, PeerReceives)
    ensures !Forgets(s, PeerReceives) && Inv(Act(s, PeerReceives, ok), ok)
  {
  }

  lemma AnswerStep(s: Net, ok: bool)
    requires Inv(s, ok) && Enabled(s, IReceive)
    ensures if Forgets(s, IReceive) then Stuck(Act(s, IReceive, ok)) else Inv(Act(s, IReceive, ok), ok)
  {
  }

  lemma InvStep(s: Net, a: Action, ok: bool)
    requires Inv(s, ok) && Enabled(s, a)
    ensures if Forgets(s, a) then Stuck(Act(s, a, ok)) else Inv(Act(s, a, ok), ok)
  {
    match a {
      case CallOn => CallStep(s, a, ok);
      case CallOff => CallStep(s, a, ok);
      case PeerReceives => PeerStep(s, ok);
      case IReceive => AnswerStep(s, ok);
    }
  }

  lemma {:induction false} InvRuns(s: Net, acts: seq<Action>, ok: bool)
    requires Inv(s, ok) && Runs(s, acts, ok)
    ensures if EverForgets(s, acts, ok) then Stuck(After(s, acts, ok)) else Inv(After(s, acts, ok), ok)
    decreases |acts|
  {
    if acts != [] {
      InvStep(s, acts[0], ok);
      if Forgets(s, acts[0]) {
        StuckRuns(Act(s, acts[0], ok), acts[1..], ok);
      } else {
        InvRuns(Act(s, acts[0], ok), acts[1..], ok);
      }
    }
  }

  /** Nothing the application calls gets out of that. */
  lemma {:induction false} StuckRuns(s: Net, acts: seq<Action>, ok: bool)
    requires Stuck(s) && Runs(s, acts, ok)
    ensures Stuck(After(s, acts, ok))
    decreases |acts|
  {
    if acts != [] {
      StuckRuns(Act(s, acts[0], ok), acts[1..], ok);
    }
  }

  lemma {:induction false} OwnEndNeverForgets(s: Net, acts: seq<Action>, ok: bool)
    requires !s.remote && Runs(s, acts, ok)
    ensures !EverForgets(s, acts, ok)
    decreases |acts|
  {
    if acts != [] {
      OwnEndNeverForgets(Act(s, acts[0], ok), acts[1..], ok);
    }
  }

  /** Deliveries still to come once calls stop. */
  function Left(s: Net): nat {
    |s.toPeer| * 2 + |s.toMe| + if s.mine in {WantYesOp, WantNoOp} && (s.toPeer != [] || s.toMe != []) then 2 else 0
  }

  /** The answer to a refusal says the opposite, which the code complains about. */
  predicate Contradicted(s: Net) {
    s.toMe != [] && s.toMe[0] == On(!s.remote) && s.mine in {WantNo, WantNoOp}
  }

  /**
   Safety, over all runs: at most one request is unanswered, a refusal is never answered by its
   opposite, and messages are always of the kind their receiver expects.
   */
  lemma OneRequest(remote: bool, acts: seq<Action>, ok: bool)
    requires Runs(Start(remote), acts, ok)
    ensures var s := After(Start(remote), acts, ok);
      |s.toPeer| + |s.toMe| <= 1 && !Contradicted(s) && Left(s) <= 4
      && (s.toPeer != [] ==> Enabled(s, PeerReceives)) && (s.toMe != [] ==> Enabled(s, IReceive))
  {
    InvRuns(Start(remote), acts, ok);
  }

  /** Once calls stop at most four deliveries follow. */
  lemma DrainsInFour(remote: bool, acts: seq<Action>, rest: seq<Action>, ok: bool)
    requires Runs(Start(remote), acts, ok) && Runs(After(Start(remote), acts, ok), rest, ok)
    requires forall i :: 0 <= i < |rest| ==> rest[i] in {PeerReceives, IReceive}
    ensures |rest| <= 4
  {
    InvRuns(Start(remote), acts, ok);
    Deliveries(After(Start(remote), acts, ok), rest, ok);
  }

  lemma {:induction false} Deliveries(s: Net, rest: seq<Action>, ok: bool)
    requires (Inv(s, ok) || Stuck(s)) && Runs(s, rest, ok)
        && forall i :: 0 <= i < |rest| ==> rest[i] in {PeerReceives, IReceive}
    ensures |rest| <= Left(s)
    decreases |rest|
  {
    if rest != [] {
      InvStep(s, rest[0], ok);
      Deliveries(Act(s, rest[0], ok), rest[1..], ok);
    }
  }

  /**
   At rest both parties agree, and if the peer supports the
   option it is on exactly when the last call asked for it.
   */
  ghost predicate Settled(s: Net, ok: bool) {
    s.mine == s.peer && s.mine in {No, Yes} && (s.mine == Yes <==> ok && s.last)
  }

  /** About the caller's own end, every run comes to such a rest. */
  lemma Agreement(acts: seq<Action>, ok: bool)
    requires Runs(Start(false), acts, ok)
        && After(Start(false), acts, ok).toPeer == After(Start(false), acts, ok).toMe == []
    ensures Settled(After(Start(false), acts, ok), ok)
  {
    InvRuns(Start(false), acts, ok);
    OwnEndNeverForgets(Start(false), acts, ok);
  }

  /** About the remote end, exactly the runs do that never forget a queued request. */
  lemma RemoteAgreement(acts: seq<Action>, ok: bool)
    requires Runs(Start(true), acts, ok)
        && After(Start(true), acts, ok).toPeer == After(Start(true), acts, ok).toMe == []
    ensures Settled(After(Start(true), acts, ok), ok) <==> !EverForgets(Start(true), acts, ok)
  {
    InvRuns(Start(true), acts, ok);
  }

  // ----- what the applications have been told by then

  /** Whether the last verb among the notes says on, or what was said before if there is none. */
  function LastSaid(notes: seq<Note>, was: bool): bool {
    if notes == [] then was else LastSaid(notes[1..], if notes[0].Told? then Positive(notes[0].verb) else was)
  }

  /** What an action tells the caller's application (`me`) or the peer's. */
  function Notes(s: Net, a: Action, ok: bool, me: bool): seq<Note>
    requires Enabled(s, a)
  {
    if me && a == IReceive then Asked(!s.remote, s.mine, s.toMe[0], true).notes
    else if !me && a == PeerReceives then Asked(s.remote, s.peer, s.toPeer[0], ok).notes
    else []
  }

  /** Whether the last verb an application has been told of the option in a run says that it is on. */
  ghost function Said(s: Net, acts: seq<Action>, ok: bool, me: bool, was: bool): bool
    requires Runs(s, acts, ok)
    decreases |acts|
  {
    if acts == [] then was else
      Said(Act(s, acts[0], ok), acts[1..], ok, me, LastSaid(Notes(s, acts[0], ok, me), was))
  }

  /** What has been said fits the states; a caller that waits for YES has been promised it, or told that it is off. */
  ghost predicate SaidFits(s: Net, ok: bool, mine: bool, peer: bool) {
    && (peer <==> s.peer == Yes)
    && (IsOn(s.mine) ==> mine) && (s.mine == No ==> !mine)
    && (s.mine in {WantYes, WantYesOp} && mine ==> ok)
  }

  lemma SaidStep(s: Net, a: Action, ok: bool, mine: bool, peer: bool)
    requires Inv(s, ok) && Enabled(s, a) && !Forgets(s, a) && SaidFits(s, ok, mine, peer)
    ensures SaidFits(Act(s, a, ok), ok, LastSaid(Notes(s, a, ok, true), mine), LastSaid(Notes(s, a, ok, false), peer))
  {
  }

  /** After a request is forgotten the application believes to the end that it has been made. */
  lemma SaidForgets(s: Net, a: Action, ok: bool, mine: bool, peer: bool)
    requires Inv(s, ok) && Enabled(s, a) && Forgets(s, a) && SaidFits(s, ok, mine, peer)
    ensures LastSaid(Notes(s, a, ok, true), mine)
        && LastSaid(Notes(s, a, ok, false), peer) == (Act(s, a, ok).peer == Yes)
  {
  }

  lemma {:induction false} SaidStuck(s: Net, acts: seq<Action>, ok: bool, me: bool, was: bool)
    requires Stuck(s) && Runs(s, acts, ok)
    ensures Said(s, acts, ok, me, was) == was
    decreases |acts|
  {
    if acts != [] {
      SaidStuck(Act(s, acts[0], ok), acts[1..], ok, me, was);
    }
  }

  lemma {:induction false} SaidRuns(s: Net, acts: seq<Action>, ok: bool, mine: bool, peer: bool)
    requires Inv(s, ok) && Runs(s, acts, ok) && SaidFits(s, ok, mine, peer)
    ensures var said, heard := Said(s, acts, ok, true, mine), Said(s, acts, ok, false, peer);
      if EverForgets(s, acts, ok) then said && (heard <==> After(s, acts, ok).peer == Yes)
      else SaidFits(After(s, acts, ok), ok, said, heard)
    decreases |acts|
  {
    if acts != [] {
      hide Act, Notes, Inv, SaidFits, Forgets, LastSaid, Enabled;
      var a, s' := acts[0], Act(s, acts[0], ok);
      var mine', peer' := LastSaid(Notes(s, a, ok, true), mine), LastSaid(Notes(s, a, ok, false), peer);
      InvStep(s, a, ok);
      if Forgets(s, a) {
        SaidForgets(s, a, ok, mine, peer);
        StuckRuns(s', acts[1..], ok);
        SaidStuck(s', acts[1..], ok, true, mine');
        SaidStuck(s', acts[1..], ok, false, peer');
      } else {
        SaidStep(s, a, ok, mine, peer);
        SaidRuns(s', acts[1..], ok, mine', peer');
      }
    }
  }

  /**
   At rest each application has last been told what the option is at
   its party: the peer's always, the caller's if no request was forgotten.
   */
  lemma ToldAtRest(remote: bool, acts: seq<Action>, ok: bool)
    requires Runs(Start(remote), acts, ok)
    requires var s := After(Start(remote), acts, ok); s.toPeer == s.toMe == []
    ensures var s := After(Start(remote), acts, ok);
      && (Said(Start(remote), acts, ok, false, false) <==> s.peer == Yes)
      && ((Said(Start(remote), acts, ok, true, false) <==> s.mine == Yes) <==> !EverForgets(Start(remote), acts, ok))
      && (!remote ==> (Said(Start(remote), acts, ok, true, false) <==> s.mine == Yes))
  {
    InvRuns(Start(remote), acts, ok);
    SaidRuns(Start(remote), acts, ok, false, false);
    if !remote {
      OwnEndNeverForgets(Start(remote), acts, ok);
    }
  }

  /** DO, answered; DONT and at once DO again; the answer to DONT. */
  const FORGETTING: seq<Action> :=
    Script(CallOn, Script(PeerReceives, Script(IReceive,
    Script(CallOff, Script(CallOn, Script(PeerReceives, Script(IReceive, [])))))))

  function Script(a: Action, rest: seq<Action>): seq<Action> {
    [a] + rest
  }

  /** A run that forgets: both channels are empty, the last call was DO, and the option stays off. */
  lemma RemoteForgets()
    ensures Runs(Start(true), FORGETTING, true)
        && After(Start(true), FORGETTING, true) == Net(true, WantYes, No, [], [], true)
  {
    var s3 := Net(true, Yes, Yes, [], [], true);
    var s7 := Net(true, WantYes, No, [], [], true);
    assert Leads(s7, [], s7);
    hide Runs, After, Leads, Script;
    Unfold(Net(true, WantNoOp, No, [], [Wont], true), IReceive, [], s7);
    Unfold(Net(true, WantNoOp, Yes, [Dont], [], true), PeerReceives, Script(IReceive, []), s7);
    var rest := Script(PeerReceives, Script(IReceive, []));
    Unfold(Net(true, WantNo, Yes, [Dont], [], false), CallOn, rest, s7);
    Unfold(s3, CallOff, Script(CallOn, rest), s7);
    rest := Script(CallOff, Script(CallOn, rest));
    Unfold(Net(true, WantYes, Yes, [], [Will], true), IReceive, rest, s7);
    Unfold(Net(true, WantYes, No, [Do], [], true), PeerReceives, Script(IReceive, rest), s7);
    Unfold(Start(true), CallOn, Script(PeerReceives, Script(IReceive, rest)), s7);
    LeadsIs(Start(true), FORGETTING, s7);
  }

  ghost predicate Leads(s: Net, acts: seq<Action>, end: Net) {
    Runs(s, acts, true) && After(s, acts, true) == end
  }

  lemma LeadsIs(s: Net, acts: seq<Action>, end: Net)
    requires Leads(s, acts, end)
    ensures Runs(s, acts, true) && After(s, acts, true) == end
  {
  }

  lemma Unfold(s: Net, a: Action, rest: seq<Action>, end: Net)
    requires Enabled(s, a) && Leads(Act(s, a, true), rest, end)
    ensures Leads(s, Script(a, rest), end)
  {
    assert ([a] + rest)[1..] == rest;
  }
}
