/**
 TcpShell/libtelnet.c: exactly which runs of two trackers refine the abstract parties. What new memory
 holds does not matter as long as the array of option states is not enlarged a second time; after
 that no option is safe. A run in which an option is lost ends with both sides against the last call.
 */
module TelnetDuoExact {
  import opened Bytes
  import opened O = TelnetOption
  import opened TelnetStore
  import opened TelnetTracker
  import opened TelnetCodec
  import opened TelnetDuo

  // ----- runs in parts

  lemma {:induction false} RunParts(ca: Config, cb: Config, s: Duo, x: seq<Turn>, y: seq<Turn>)
    ensures CanRun(ca, cb, s, x + y) <==> CanRun(ca, cb, s, x) && CanRun(ca, cb, Ran(ca, cb, s, x), y)
    ensures CanRun(ca, cb, s, x + y) ==>
        && Ran(ca, cb, s, x + y) == Ran(ca, cb, Ran(ca, cb, s, x), y)
        && forall me :: Stores(ca, cb, s, x + y, me)
            == Stores(ca, cb, s, x, me) + Stores(ca, cb, Ran(ca, cb, s, x), y, me)
    decreases |x|
  {
    hide Turned, TurnStores, CanTurn;
    if x == [] {
      assert x + y == y;
      forall me | CanRun(ca, cb, s, y) ensures Stores(ca, cb, s, y, me) == [] + Stores(ca, cb, s, y, me) {
      }
    } else {
      assert (x + y)[0] == x[0] && (x + y)[1..] == x[1..] + y;
      if CanTurn(s, x[0]) {
        var s' := Turned(ca, cb, s, x[0]);
        RunParts(ca, cb, s', x[1..], y);
        forall me | CanRun(ca, cb, s, x + y)
          ensures Stores(ca, cb, s, x + y, me) == Stores(ca, cb, s, x, me) + Stores(ca, cb, Ran(ca, cb, s, x), y, me)
        {
          Assoc(TurnStores(ca, cb, s, x[0], me), Stores(ca, cb, s', x[1..], me),
              Stores(ca, cb, Ran(ca, cb, s, x), y, me));
        }
      }
    }
  }

  lemma RunOne(ca: Config, cb: Config, s: Duo, t: Turn)
    requires CanTurn(s, t)
    ensures CanRun(ca, cb, s, [t]) && Ran(ca, cb, s, [t]) == Turned(ca, cb, s, t)
    ensures forall me :: Stores(ca, cb, s, [t], me) == TurnStores(ca, cb, s, t, me)
  {
    hide Turned, TurnStores;
    var s' := Turned(ca, cb, s, t);
    assert [t][1..] == [];
    assert CanRun(ca, cb, s', [t][1..]);
    forall me ensures Stores(ca, cb, s, [t], me) == TurnStores(ca, cb, s, t, me) {
      assert Stores(ca, cb, s', [t][1..], me) == [];
      assert TurnStores(ca, cb, s, t, me) + [] == TurnStores(ca, cb, s, t, me);
    }
  }

  // ----- the arrays hold what the run has stored

  lemma {:induction false} AllAppend(left: Leftover, o: Store, x: seq<Entry>, y: seq<Entry>)
    ensures StoredAll(left, o, x + y) == StoredAll(left, StoredAll(left, o, x), y)
    decreases |x|
  {
    hide Stored;
    if x == [] {
      assert x + y == y;
    } else {
      assert (x + y)[1..] == x[1..] + y;
      AllAppend(left, Stored(left, o, x[0]), x[1..], y);
    }
  }

  lemma {:induction false} AllWritten(left: Leftover, es: seq<Entry>)
    ensures StoredAll(left, EMPTY, es) == Written(left, es)
    decreases |es|
  {
    hide Stored;
    if es != [] {
      var init, e := es[..|es| - 1], es[|es| - 1];
      AllWritten(left, init);
      AllAppend(left, EMPTY, init, [e]);
      assert es == init + [e] && [e][1..] == [];
      AllNone(left, Stored(left, StoredAll(left, EMPTY, init), e));
    }
  }

  lemma {:induction false} RanOptions(ca: Config, cb: Config, s: Duo, turns: seq<Turn>)
    requires CanRun(ca, cb, s, turns)
    ensures var s' := Ran(ca, cb, s, turns);
      && s'.a.options == StoredAll(ca.left, s.a.options, Stores(ca, cb, s, turns, true))
      && s'.b.options == StoredAll(cb.left, s.b.options, Stores(ca, cb, s, turns, false))
    decreases |turns|
  {
    if turns == [] {
      AllNone(ca.left, s.a.options);
      AllNone(cb.left, s.b.options);
    } else {
      hide Turned, TurnStores, StoredAll;
      var s' := Turned(ca, cb, s, turns[0]);
      TurnedOptions(ca, cb, s, turns[0]);
      RanOptions(ca, cb, s', turns[1..]);
      AllAppend(ca.left, s.a.options, TurnStores(ca, cb, s, turns[0], true), Stores(ca, cb, s', turns[1..], true));
      AllAppend(cb.left, s.b.options, TurnStores(ca, cb, s, turns[0], false), Stores(ca, cb, s', turns[1..], false));
    }
  }

  // ----- a run that fits does not depend on what new memory holds

  function With(cfg: Config, left: Leftover): Config {
    cfg.(left := left)
  }

  lemma {:induction false} SameTable(cfg: Config, left: Leftover, opt: byte, us: bool)
    ensures Supports(With(cfg, left).table, opt, us) == Supports(cfg.table, opt, us)
  {
  }

  lemma NegotiateWith(cfg: Config, left: Leftover, t: Tracker, verb: Verb, opt: byte)
    requires Fit(t.options.q, Kept(t, opt, Yours(verb), Decision(cfg, t, verb, opt)))
    ensures Negotiate(With(cfg, left), t, verb, opt) == Negotiate(cfg, t, verb, opt)
  {
    var es := Kept(t, opt, Yours(verb), Decision(cfg, t, verb, opt));
    if es != [] {
      StoredTidy(cfg.left, left, t.options, es[0]);
    }
    hide Supports, MoveEvents, AskedUs, AskedHim, Held, Stored, Find, Fit;
    SameTable(cfg, left, opt, Yours(verb));
  }

  lemma RequestWith(cfg: Config, left: Leftover, t: Tracker, verb: Verb, opt: byte)
    requires Fit(t.options.q, Kept(t, opt, !Yours(verb), CallDecision(t, verb, opt)))
    ensures Request(With(cfg, left), t, verb, opt) == Request(cfg, t, verb, opt)
  {
    var es := Kept(t, opt, !Yours(verb), CallDecision(t, verb, opt));
    if es != [] {
      StoredTidy(cfg.left, left, t.options, es[0]);
    }
    hide MoveEvents, Called, Held, Stored, Find, Fit;
  }

  lemma StepWith(cfg: Config, left: Leftover, t: Tracker, b: byte)
    requires Fit(t.options.q, ByteStores(cfg, t, b))
    ensures Step(With(cfg, left), t, b) == Step(cfg, t, b)
  {
    hide Negotiate, Decision, Kept, Fit, SubEvents, Command, Broken;
    if t.state.SVerb? {
      NegotiateWith(cfg, left, t, t.state.verb, b);
    }
  }

  lemma TurnWith(ca: Config, cb: Config, la: Leftover, lb: Leftover, s: Duo, t: Turn)
    requires CanTurn(s, t) && TurnFits(ca, cb, s, t)
    ensures Turned(With(ca, la), With(cb, lb), s, t) == Turned(ca, cb, s, t)
  {
    hide Request, Step, Fit, Kept, Wire, With, ByteStores, CallDecision;
    match t {
      case Call(verb, opt) => RequestWith(ca, la, s.a, verb, opt);
      case ByteToB => StepWith(cb, lb, s.b, s.ab[0]);
      case ByteToA => StepWith(ca, la, s.a, s.ba[0]);
    }
  }

  lemma StoresWith(ca: Config, cb: Config, la: Leftover, lb: Leftover, s: Duo, t: Turn, me: bool)
    requires CanTurn(s, t)
    ensures TurnStores(With(ca, la), With(cb, lb), s, t, me) == TurnStores(ca, cb, s, t, me)
  {
    hide Kept, Asked, CallDecision, Side;
  }

  lemma {:induction false} RunWith(ca: Config, cb: Config, la: Leftover, lb: Leftover, s: Duo, turns: seq<Turn>)
    requires CanRun(ca, cb, s, turns) && RunFits(ca, cb, s, turns)
    ensures var ca', cb' := With(ca, la), With(cb, lb);
      && CanRun(ca', cb', s, turns) && Ran(ca', cb', s, turns) == Ran(ca, cb, s, turns)
      && forall me :: Stores(ca', cb', s, turns, me) == Stores(ca, cb, s, turns, me)
    decreases |turns|
  {
    if turns != [] {
      hide Turned, TurnStores, RunFits, TurnFits, With;
      RunFitsFirst(ca, cb, s, turns);
      TurnWith(ca, cb, la, lb, s, turns[0]);
      RunWith(ca, cb, la, lb, Turned(ca, cb, s, turns[0]), turns[1..]);
      forall me ensures TurnStores(With(ca, la), With(cb, lb), s, turns[0], me) == TurnStores(ca, cb, s, turns[0], me) {
        StoresWith(ca, cb, la, lb, s, turns[0], me);
      }
    }
  }

  // ----- exactly these runs refine the abstract parties, whatever new memory holds

  /** The run, if it is one, takes the option at that end through the steps of the abstract parties. */
  ghost predicate Refines(ca: Config, cb: Config, turns: seq<Turn>, o: byte, remote: bool) {
    CanRun(ca, cb, QUIET, turns) ==>
      var acts, ok := Reflected(ca, cb, QUIET, turns, o, remote), Supports(cb.table, o, remote);
      Wired(Ran(ca, cb, QUIET, turns)) && Runs(O.Start(remote), acts, ok)
      && After(O.Start(remote), acts, ok)
          == Seen(Ran(ca, cb, QUIET, turns), o, remote, LastCall(turns, o, remote, false))
  }

  /** So does every beginning of the run, for every option and end and all contents of new memory. */
  ghost predicate AlwaysRefines(ca: Config, cb: Config, turns: seq<Turn>) {
    forall la: Leftover, lb: Leftover, k: nat, o: byte, remote: bool :: k <= |turns| ==>
      Refines(With(ca, la), With(cb, lb), turns[..k], o, remote)
  }

  lemma OnePrefix(x: seq<Entry>, y: seq<Entry>)
    requires OneOption(x + y)
    ensures OneOption(x)
  {
    forall i | 0 < i < |x| ensures x[i].opt == x[0].opt || x[i].opt == BINARY {
      assert (x + y)[i] == x[i] && (x + y)[0] == x[0];
    }
  }

  lemma OneEachPrefix(ca: Config, cb: Config, turns: seq<Turn>, k: nat)
    requires CanRun(ca, cb, QUIET, turns) && OneEach(ca, cb, turns) && k <= |turns|
    ensures CanRun(ca, cb, QUIET, turns[..k]) && OneEach(ca, cb, turns[..k])
  {
    hide CanRun, Ran, Stores, OneOption;
    assert turns[..k] + turns[k..] == turns;
    RunParts(ca, cb, QUIET, turns[..k], turns[k..]);
    var s := Ran(ca, cb, QUIET, turns[..k]);
    OnePrefix(Stores(ca, cb, QUIET, turns[..k], true), Stores(ca, cb, s, turns[k..], true));
    OnePrefix(Stores(ca, cb, QUIET, turns[..k], false), Stores(ca, cb, s, turns[k..], false));
  }

  lemma CanPrefix(ca: Config, cb: Config, turns: seq<Turn>, n: nat)
    requires CanRun(ca, cb, QUIET, turns) && n < |turns|
    ensures CanRun(ca, cb, QUIET, turns[..n]) && turns[..|turns|] == turns
  {
    assert turns[..n] + turns[n..] == turns;
    RunParts(ca, cb, QUIET, turns[..n], turns[n..]);
  }

  /** Turn k stores what no longer fits. */
  ghost predicate BreaksAt(ca: Config, cb: Config, turns: seq<Turn>, k: nat) {
    && k < |turns| && CanRun(ca, cb, QUIET, turns[..k]) && OneEach(ca, cb, turns[..k])
    && CanRun(ca, cb, QUIET, turns[..k + 1]) && !OneEach(ca, cb, turns[..k + 1])
  }

  lemma BreaksSooner(ca: Config, cb: Config, turns: seq<Turn>, n: nat, k: nat)
    requires n <= |turns| && BreaksAt(ca, cb, turns[..n], k)
    ensures BreaksAt(ca, cb, turns, k)
  {
    assert turns[..n][..k] == turns[..k] && turns[..n][..k + 1] == turns[..k + 1];
  }

  lemma BreaksLast(ca: Config, cb: Config, turns: seq<Turn>)
    requires turns != [] && CanRun(ca, cb, QUIET, turns) && !OneEach(ca, cb, turns)
    requires CanRun(ca, cb, QUIET, turns[..|turns| - 1]) && OneEach(ca, cb, turns[..|turns| - 1])
    ensures BreaksAt(ca, cb, turns, |turns| - 1)
  {
    assert turns[..|turns|] == turns;
  }

  /** The first turn after which it no longer holds. */
  lemma {:induction false} FirstBreak(ca: Config, cb: Config, turns: seq<Turn>) returns (k: nat)
    requires CanRun(ca, cb, QUIET, turns) && !OneEach(ca, cb, turns)
    ensures BreaksAt(ca, cb, turns, k)
    decreases |turns|
  {
    assert turns != [];
    hide *;
    var n := |turns| - 1;
    CanPrefix(ca, cb, turns, n);
    if OneEach(ca, cb, turns[..n]) {
      k := n;
      BreaksLast(ca, cb, turns);
    } else {
      k := FirstBreak(ca, cb, turns[..n]);
      BreaksSooner(ca, cb, turns, n, k);
    }
  }

  /** A store that breaks the rule finds no room. */
  lemma BreakLost(left: Leftover, es: seq<Entry>, last: seq<Entry>)
    requires OneOption(es) && !OneOption(es + last) && |last| <= 1
    ensures last != [] && var s := StoredAll(left, EMPTY, es); Tidy(s.q) && !Roomy(s.q, last[0].opt)
  {
    AllWritten(left, es);
    WrittenTidy(left, left, es);
    assert last == [] ==> es + last == es;
  }

  lemma LostIsJunk(left: Leftover, s: Store, last: seq<Entry>, p: Pair)
    requires |last| == 1 && Tidy(s.q) && !Roomy(s.q, last[0].opt) && forall n, i :: left(n, i) == Entry(last[0].opt, p)
    ensures Held(StoredAll(left, s, last).q, last[0].opt) == p
  {
    StoredLost(left, s, last[0]);
    assert last[1..] == [];
  }

  lemma NeverJunk(remote: bool, acts: seq<Action>, ok: bool)
    requires Runs(O.Start(remote), acts, ok)
    ensures var n := After(O.Start(remote), acts, ok); !n.mine.Junk? && !n.peer.Junk?
  {
    InvRuns(O.Start(remote), acts, ok);
  }

  /** One more turn, with new memory full of elements for the option it stores. */
  lemma BreakShows(ca: Config, cb: Config, turns: seq<Turn>, t: Turn, me: bool) returns (left: Leftover, o: byte)
    requires CanRun(ca, cb, QUIET, turns) && OneEach(ca, cb, turns)
    requires CanTurn(Ran(ca, cb, QUIET, turns), t)
    requires !OneOption(Stores(ca, cb, QUIET, turns, me) + TurnStores(ca, cb, Ran(ca, cb, QUIET, turns), t, me))
    ensures !Refines(With(ca, left), With(cb, left), turns + [t], o, false)
  {
    var es, s := Stores(ca, cb, QUIET, turns, me), Ran(ca, cb, QUIET, turns);
    var last := TurnStores(ca, cb, s, t, me);
    BreakLost(ca.left, es, last);
    o := last[0].opt;
    var junk := Pair(Junk(6), Junk(6));
    var e := Entry(o, junk);
    left := (n, i) => e;
    var ca', cb' := With(ca, left), With(cb, left);
    hide Turned, TurnStores, CanTurn, StoredAll, OneOption, Held, Wired, Supports;
    RunWith(ca, cb, left, left, QUIET, turns);
    StoresWith(ca, cb, left, left, s, t, me);
    RunParts(ca', cb', QUIET, turns, [t]);
    RunOne(ca', cb', s, t);
    TurnedOptions(ca', cb', s, t);
    RanOptions(ca', cb', QUIET, turns);
    BreakLost(left, es, last);
    LostIsJunk(left, if me then s.a.options else s.b.options, last, junk);
    if Refines(ca', cb', turns + [t], o, false) {
      NeverJunk(false, Reflected(ca', cb', QUIET, turns + [t], o, false), Supports(cb'.table, o, false));
      assert false;
    }
  }

  lemma OneEachRefines(ca: Config, cb: Config, la: Leftover, lb: Leftover, turns: seq<Turn>, k: nat, o: byte,
          remote: bool)
    requires CanRun(ca, cb, QUIET, turns) && OneEach(ca, cb, turns) && k <= |turns|
    ensures Refines(With(ca, la), With(cb, lb), turns[..k], o, remote)
  {
    OneEachPrefix(ca, cb, turns, k);
    RunWith(ca, cb, la, lb, QUIET, turns[..k]);
    DuoRefines(With(ca, la), With(cb, lb), turns[..k], o, remote);
  }

  lemma BreakFails(ca: Config, cb: Config, turns: seq<Turn>, k: nat)
    requires BreaksAt(ca, cb, turns, k)
    ensures !AlwaysRefines(ca, cb, turns)
  {
    hide CanRun, Ran, Stores, OneOption, TurnStores, Refines, With;
    assert turns[..k + 1] == turns[..k] + [turns[k]];
    RunParts(ca, cb, QUIET, turns[..k], [turns[k]]);
    var s, t := Ran(ca, cb, QUIET, turns[..k]), turns[k];
    CanOne(ca, cb, s, t);
    RunOne(ca, cb, s, t);
    var me := !OneOption(Stores(ca, cb, QUIET, turns[..k], true) + TurnStores(ca, cb, s, t, true));
    var left, o := BreakShows(ca, cb, turns[..k], t, me);
    assert !Refines(With(ca, left), With(cb, left), turns[..k + 1], o, false);
  }

  lemma CanOne(ca: Config, cb: Config, s: Duo, t: Turn)
    requires CanRun(ca, cb, s, [t])
    ensures CanTurn(s, t)
  {
  }

  /** The trackers go through the steps of the abstract parties exactly in the runs that store one option each. */
  lemma DuoExactly(ca: Config, cb: Config, turns: seq<Turn>)
    requires CanRun(ca, cb, QUIET, turns)
    ensures OneEach(ca, cb, turns) <==> AlwaysRefines(ca, cb, turns)
  {
    hide CanRun, OneEach, Refines, With;
    if OneEach(ca, cb, turns) {
      forall la: Leftover, lb: Leftover, k: nat, o: byte, remote: bool | k <= |turns|
        ensures Refines(With(ca, la), With(cb, lb), turns[..k], o, remote)
      {
        OneEachRefines(ca, cb, la, lb, turns, k, o, remote);
      }
    } else {
      var k := FirstBreak(ca, cb, turns);
      BreakFails(ca, cb, turns, k);
    }
  }

  // ----- a run that negotiates a single option

  ghost predicate About(ms: seq<Message>, x: byte) {
    forall i :: 0 <= i < |ms| ==> ms[i].opt == x
  }

  /** Everything under way is about option x. */
  ghost predicate AllAbout(s: Duo, x: byte) {
    Wired(s) && About(Pending(s.b, s.ab), x) && About(Pending(s.a, s.ba), x)
  }

  ghost predicate Names(es: seq<Entry>, x: byte) {
    forall i :: 0 <= i < |es| ==> es[i].opt == x
  }

  /** A command about x put on a channel. */
  lemma AboutGrows(t: Tracker, w: seq<byte>, sends: seq<Verb>, x: byte)
    requires |sends| <= 1 && Proper(Head(t.state) + w) && About(Pending(t, w), x)
    ensures var w' := w + CommandOf(sends, x); Proper(Head(t.state) + w') && About(Pending(t, w'), x)
  {
    if sends == [] {
      assert w + [] == w;
    } else {
      var m := Message(sends[0], x);
      assert Head(t.state) + (w + OnWire(m)) == (Head(t.state) + w) + OnWire(m);
      ProperOne(m);
      ProperAppend(Head(t.state) + w, OnWire(m));
    }
  }

  /** The rest of the messages after the first. */
  lemma AboutRest(t: Tracker, w: seq<byte>, x: byte)
    requires w != [] && t.state.SVerb? && Proper(Head(t.state) + w) && About(Pending(t, w), x)
    ensures w[0] == x && Proper(w[1..]) && About(Parsed(w[1..]), x) && Head(SData) + w[1..] == w[1..]
  {
    hide Parsed, Proper;
    LastByte(t, w);
    var all := Parsed(Head(t.state) + w);
    assert all[0] == Message(t.state.verb, w[0]);
    forall i | 0 <= i < |Parsed(w[1..])| ensures Parsed(w[1..])[i].opt == x {
      assert all[i + 1] == Parsed(w[1..])[i];
    }
  }

  /** A byte read by t, whose answers go to u. */
  lemma AboutHeard(cfg: Config, t: Tracker, w: seq<byte>, u: Tracker, v: seq<byte>, x: byte)
    requires w != [] && Negotiates(t.state) && Proper(Head(t.state) + w) && Proper(Head(u.state) + v)
    requires About(Pending(t, w), x) && About(Pending(u, v), x)
    ensures var r := Step(cfg, t, w[0]); var v' := v + Wire(r.events);
      && Negotiates(r.t.state) && Proper(Head(r.t.state) + w[1..]) && Proper(Head(u.state) + v')
      && About(Pending(r.t, w[1..]), x) && About(Pending(u, v'), x) && Names(ByteStores(cfg, t, w[0]), x)
  {
    hide Proper, About, Decision, Negotiate, Wire, Parsed;
    if t.state.SVerb? {
      var verb := t.state.verb;
      AboutRest(t, w, x);
      NegotiateIs(cfg, t, verb, x);
      DecisionSends(cfg, t, verb, x);
      MoveWire(Decision(cfg, t, verb, x), x);
      AboutGrows(u, v, Decision(cfg, t, verb, x).sends, x);
    } else {
      HeadByte(cfg, t, w);
      WireNone(v);
    }
  }

  lemma WireNone(v: seq<byte>)
    ensures v + Wire([]) == v
  {
  }

  lemma AboutTurn(ca: Config, cb: Config, s: Duo, t: Turn, x: byte)
    requires CanTurn(s, t) && AllAbout(s, x) && (t.Call? ==> t.opt == x)
    ensures AllAbout(Turned(ca, cb, s, t), x) && forall me :: Names(TurnStores(ca, cb, s, t, me), x)
  {
    hide Step, Wire, Proper, Pending, Head, About, Request, ByteStores;
    match t {
      case Call(verb, opt) =>
        RequestIs(ca, s.a, verb, x);
        CallSends(s.a, verb, x);
        MoveWire(CallDecision(s.a, verb, x), x);
        AboutGrows(s.b, s.ab, CallDecision(s.a, verb, x).sends, x);
        SameHead(s.a, Request(ca, s.a, verb, x).t, s.ba);
      case ByteToB => AboutHeard(cb, s.b, s.ab, s.a, s.ba, x);
      case ByteToA => AboutHeard(ca, s.a, s.ba, s.b, s.ab, x);
    }
  }

  lemma {:induction false} AboutRun(ca: Config, cb: Config, s: Duo, turns: seq<Turn>, x: byte)
    requires CanRun(ca, cb, s, turns) && AllAbout(s, x)
    requires forall i :: 0 <= i < |turns| && turns[i].Call? ==> turns[i].opt == x
    ensures forall me :: Names(Stores(ca, cb, s, turns, me), x)
    decreases |turns|
  {
    if turns != [] {
      hide Turned, TurnStores, AllAbout;
      AboutTurn(ca, cb, s, turns[0], x);
      AboutRun(ca, cb, Turned(ca, cb, s, turns[0]), turns[1..], x);
    }
  }

  /** If all calls are about one option the trackers go through the steps of the abstract parties. */
  lemma OneCalled(ca: Config, cb: Config, turns: seq<Turn>, x: byte)
    requires CanRun(ca, cb, QUIET, turns)
    requires forall i :: 0 <= i < |turns| && turns[i].Call? ==> turns[i].opt == x
    ensures OneEach(ca, cb, turns) && AlwaysRefines(ca, cb, turns)
  {
    assert Pending(FRESH, []) == [];
    AboutRun(ca, cb, QUIET, turns, x);
    DuoExactly(ca, cb, turns);
  }

  // ----- a run that loses an option

  function BytesToA(n: nat): seq<Turn> {
    if n == 0 then [] else [ByteToA] + BytesToA(n - 1)
  }

  /** Delivering the peer's answers, one by one or in one piece. */
  lemma {:induction false} ChunkReturned(ca: Config, cb: Config, s: Duo, d: seq<byte>, more: seq<byte>)
    requires s.ba == d + more
    ensures var r := Run(ca, s.a, d);
      CanRun(ca, cb, s, BytesToA(|d|)) && Ran(ca, cb, s, BytesToA(|d|)) == Duo(r.t, s.b, s.ab + Wire(r.events), more)
    decreases |d|
  {
    if d == [] {
      assert s.ba == more && s.ab + [] == s.ab;
    } else {
      hide Step, Run, Wire, CanRun, Ran;
      assert s.ba[0] == d[0] && s.ba[1..] == d[1..] + more;
      var s' := Turned(ca, cb, s, ByteToA);
      ChunkReturned(ca, cb, s', d[1..], more);
      RunOne(ca, cb, s, ByteToA);
      RunParts(ca, cb, s, [ByteToA], BytesToA(|d| - 1));
      PieceSent(ca, s.a, d, s.ab);
    }
  }

  /** WILL 1, WILL 3 and WILL 24; all of it delivered, the answers too, and what is said to those. */
  const LOSING: seq<Turn> :=
    [Call(O.Will, 1), Call(O.Will, 3), Call(O.Will, 24)] + BytesToB(9) + BytesToA(9) + BytesToB(3)

  lemma OneSend(m: O.Move, opt: byte, verb: Verb)
    requires m.sends == [verb] && m.notes in {[], [Told(Will)]}
    ensures Wire(MoveEvents(m, opt)) == [IAC, Code(verb), opt]
  {
    MoveWire(m, opt);
  }

  /** A call for an option that is off. */
  lemma CallsFor(cfg: Config, t: Tracker, opt: byte)
    requires Lookup(t, opt) == UNSET && opt != BINARY
    ensures var r := Request(cfg, t, Will, opt);
      && r.t == t.(options := Stored(cfg.left, t.options, Entry(opt, Pair(WantYes, No))))
      && Wire(r.events) == [IAC, WILL, opt]
  {
    hide Stored, Held, Find, MoveEvents, Wire;
    OneSend(Called(No, true, Will, Wont), opt, Will);
  }

  /** A request for a supported option that is off. */
  lemma Accepts(cfg: Config, t: Tracker, opt: byte)
    requires t.state == SData && Lookup(t, opt) == UNSET && opt != BINARY && Supports(cfg.table, opt, false)
    ensures var r := Run(cfg, t, [IAC, WILL, opt]);
      && r.t == t.(options := Stored(cfg.left, t.options, Entry(opt, Pair(No, Yes))))
      && Wire(r.events) == [IAC, DO, opt]
  {
    NegotiationArrives(cfg, t, Will, opt);
    hide Stored, Held, Find, MoveEvents, Wire, Run, Supports;
    OneSend(AskedHim(No, Will, true), opt, Do);
  }

  /** The answer that was waited for. */
  lemma Confirms(cfg: Config, t: Tracker, opt: byte)
    requires t.state == SData && Lookup(t, opt) == Pair(WantYes, No) && opt != BINARY
    ensures var r := Run(cfg, t, [IAC, DO, opt]);
      && r.t == t.(options := Stored(cfg.left, t.options, Entry(opt, Pair(Yes, No)))) && Wire(r.events) == []
  {
    NegotiationArrives(cfg, t, Do, opt);
    hide Stored, Held, Find, MoveEvents, Wire, Run, Supports;
    MoveWire(AskedUs(WantYes, Do, Supports(cfg.table, opt, true)), opt);
  }

  /** The same answer when the option is not found, and not supported by the table. */
  lemma RefusesLost(cfg: Config, t: Tracker, opt: byte)
    requires t.state == SData && Lookup(t, opt) == UNSET && !Supports(cfg.table, opt, true)
    ensures var r := Run(cfg, t, [IAC, DO, opt]); r.t == t && Wire(r.events) == [IAC, WONT, opt]
  {
    NegotiationArrives(cfg, t, Do, opt);
    hide Held, Find, MoveEvents, Wire, Run, Supports;
    OneSend(AskedUs(No, Do, false), opt, Wont);
  }

  lemma IgnoresLost(cfg: Config, t: Tracker, opt: byte)
    requires t.state == SData && Lookup(t, opt) == UNSET
    ensures var r := Run(cfg, t, [IAC, WONT, opt]); r.t == t && Wire(r.events) == []
  {
    NegotiationArrives(cfg, t, Wont, opt);
    hide Held, Find, MoveEvents, Wire, Run, Supports;
    MoveWire(AskedHim(No, Wont, Supports(cfg.table, opt, false)), opt);
  }

  lemma TwoRuns(cfg: Config, t: Tracker, x: seq<byte>, y: seq<byte>)
    ensures var r := Run(cfg, t, x); var q := Run(cfg, r.t, y);
      Run(cfg, t, x + y).t == q.t && Wire(Run(cfg, t, x + y).events) == Wire(r.events) + Wire(q.events)
  {
    RunAppend(cfg, t, x, y);
    hide Run, Wire;
    WireAppend(Run(cfg, t, x).events, Run(cfg, Run(cfg, t, x).t, y).events);
  }

  function ThreeStored(left: Leftover, p: Pair): Store {
    Written(left, [Entry(1, p), Entry(3, p), Entry(24, p)])
  }

  /** Storing the three options in a fresh tracker. */
  lemma StoresThree(left: Leftover, p: Pair)
    requires forall n, i :: left(n, i).opt !in {3, 24}
    ensures var s := Stored(left, EMPTY, Entry(1, p)); var t := Stored(left, s, Entry(3, p));
      && Held(EMPTY.q, 1) == Held(s.q, 3) == Held(t.q, 24) == UNSET
      && Stored(left, t, Entry(24, p)) == ThreeStored(left, p)
      && Held(ThreeStored(left, p).q, 1) == p && Held(ThreeStored(left, p).q, 3) == UNSET
      && Held(ThreeStored(left, p).q, 24) == p
  {
    hide Stored, Held, Find;
    var es := [Entry(1, p), Entry(3, p), Entry(24, p)];
    assert es[..2] == [Entry(1, p), Entry(3, p)] && es[..2][..1] == es[..1] == [Entry(1, p)] && es[..1][..0] == [];
    assert Written(left, es[..1]) == Stored(left, EMPTY, es[0]);
    assert Written(left, es[..2]) == Stored(left, Written(left, es[..1]), es[1]);
    WrittenTidy(left, left, es[..1]);
    assert Latest(es[..1], 3) == UNSET by { assert es[..1][..0] == []; }
    HeldTidy(EMPTY.q, 1);
    SecondIsGone(left, p, p, p);
    assert Held(Written(left, es[..1]).q, 3) == UNSET;
    assert Held(Written(left, es[..2]).q, 24) == UNSET;
    assert Held(EMPTY.q, 1) == UNSET;
  }

  const ASKED: Pair := Pair(WantYes, No)
  const GRANTED: Pair := Pair(No, Yes)

  const REQUESTS: seq<byte> := [IAC, WILL, 1] + [IAC, WILL, 3] + [IAC, WILL, 24]
  const ANSWERS: seq<byte> := [IAC, DO, 1] + [IAC, DO, 3] + [IAC, DO, 24]

  /** The three calls. */
  lemma CallsThree(ca: Config, cb: Config)
    requires forall n, i :: ca.left(n, i).opt !in {3, 24}
    ensures var calls := [Call(O.Will, 1), Call(O.Will, 3), Call(O.Will, 24)];
      && CanRun(ca, cb, QUIET, calls)
      && Ran(ca, cb, QUIET, calls) == Duo(FRESH.(options := ThreeStored(ca.left, ASKED)), FRESH, REQUESTS, [])
  {
    hide Stored, Held, Find, Wire, Request;
    StoresThree(ca.left, ASKED);
    var s := Stored(ca.left, EMPTY, Entry(1, ASKED));
    var t := Stored(ca.left, s, Entry(3, ASKED));
    CallsFor(ca, FRESH, 1);
    CallsFor(ca, FRESH.(options := s), 3);
    CallsFor(ca, FRESH.(options := t), 24);
    var s1 := Duo(FRESH.(options := s), FRESH, [IAC, WILL, 1], []);
    var s2 := Duo(FRESH.(options := t), FRESH, [IAC, WILL, 1] + [IAC, WILL, 3], []);
    var s3 := Duo(FRESH.(options := ThreeStored(ca.left, ASKED)), FRESH, REQUESTS, []);
    assert Turned(ca, cb, QUIET, Call(O.Will, 1)) == s1 by { assert [] + [IAC, WILL, 1] == [IAC, WILL, 1]; }
    assert Turned(ca, cb, s1, Call(O.Will, 3)) == s2 && Turned(ca, cb, s2, Call(O.Will, 24)) == s3;
    hide Turned, Ran, CanRun;
    RunOne(ca, cb, QUIET, Call(O.Will, 1));
    RunOne(ca, cb, s1, Call(O.Will, 3));
    RunOne(ca, cb, s2, Call(O.Will, 24));
    RunParts(ca, cb, QUIET, [Call(O.Will, 1)], [Call(O.Will, 3)]);
    RunParts(ca, cb, QUIET, [Call(O.Will, 1)] + [Call(O.Will, 3)], [Call(O.Will, 24)]);
    assert [Call(O.Will, 1)] + [Call(O.Will, 3)] + [Call(O.Will, 24)]
        == [Call(O.Will, 1), Call(O.Will, 3), Call(O.Will, 24)];
  }

  /** The peer grants all three. */
  lemma GrantsThree(cb: Config)
    requires Supports(cb.table, 1, false) && Supports(cb.table, 3, false) && Supports(cb.table, 24, false)
    requires forall n, i :: cb.left(n, i).opt !in {3, 24}
    ensures var r := Run(cb, FRESH, REQUESTS);
      r.t == FRESH.(options := ThreeStored(cb.left, GRANTED)) && Wire(r.events) == ANSWERS
  {
    hide Stored, Held, Find, Wire, Run, Supports;
    StoresThree(cb.left, GRANTED);
    var s := Stored(cb.left, EMPTY, Entry(1, GRANTED));
    var t := Stored(cb.left, s, Entry(3, GRANTED));
    Accepts(cb, FRESH, 1);
    Accepts(cb, FRESH.(options := s), 3);
    Accepts(cb, FRESH.(options := t), 24);
    TwoRuns(cb, FRESH, [IAC, WILL, 1], [IAC, WILL, 3]);
    TwoRuns(cb, FRESH, [IAC, WILL, 1] + [IAC, WILL, 3], [IAC, WILL, 24]);
  }

  /** The caller has lost option 3 and refuses what it asked for. */
  lemma RefusesOne(ca: Config)
    requires !Supports(ca.table, 3, true) && forall n, i :: ca.left(n, i).opt !in {3, 24}
    ensures var r := Run(ca, FRESH.(options := ThreeStored(ca.left, ASKED)), ANSWERS);
      r.t.state == SData && Lookup(r.t, 3) == UNSET && Wire(r.events) == [IAC, WONT, 3]
  {
    hide Stored, Held, Find, Wire, Run, Supports;
    StoresThree(ca.left, ASKED);
    var t0 := FRESH.(options := ThreeStored(ca.left, ASKED));
    var yes := Pair(Yes, No);
    Confirms(ca, t0, 1);
    forall o ensures Held(Stored(ca.left, t0.options, Entry(1, yes)).q, o) == if o == 1 then yes
        else Held(t0.options.q, o) {
      StoredFound(ca.left, t0.options, Entry(1, yes), o);
    }
    var t1 := t0.(options := Stored(ca.left, t0.options, Entry(1, yes)));
    RefusesLost(ca, t1, 3);
    Confirms(ca, t1, 24);
    StoredFound(ca.left, t1.options, Entry(24, yes), 3);
    TwoRuns(ca, t0, [IAC, DO, 1], [IAC, DO, 3]);
    TwoRuns(ca, t0, [IAC, DO, 1] + [IAC, DO, 3], [IAC, DO, 24]);
  }

  /**
   The documented use of three options, with a table that leaves one of them to the peer: everything is
   delivered, the peer supports all three and the last call was WILL, and option 3 is off at both ends.
   */
  lemma DuoLoses(ca: Config, cb: Config)
    requires Supports(cb.table, 1, false) && Supports(cb.table, 3, false) && Supports(cb.table, 24, false)
    requires !Supports(ca.table, 3, true)
    requires forall n, i :: ca.left(n, i).opt !in {3, 24} && cb.left(n, i).opt !in {3, 24}
    ensures CanRun(ca, cb, QUIET, LOSING) && var s := Ran(ca, cb, QUIET, LOSING);
      && s.ab == s.ba == [] && LastCall(LOSING, 3, false, false)
      && Side(s.a, 3, true) == Side(s.b, 3, false) == No && !Agreed(s, cb, LOSING, 3, false)
  {
    hide CanRun, Ran, Run, Wire, Supports, Held, Find, Stored, ThreeStored, BytesToB, BytesToA;
    var calls := [Call(O.Will, 1), Call(O.Will, 3), Call(O.Will, 24)];
    CallsThree(ca, cb);
    GrantsThree(cb);
    RefusesOne(ca);
    StoresThree(cb.left, GRANTED);
    var b := FRESH.(options := ThreeStored(cb.left, GRANTED));
    IgnoresLost(cb, b, 3);
    var s1 := Ran(ca, cb, QUIET, calls);
    ChunkDelivered(ca, cb, s1, REQUESTS, []);
    var s2 := Ran(ca, cb, s1, BytesToB(9));
    assert s2 == Duo(s1.a, b, [], ANSWERS);
    ChunkReturned(ca, cb, s2, ANSWERS, []);
    var s3 := Ran(ca, cb, s2, BytesToA(9));
    ChunkDelivered(ca, cb, s3, [IAC, WONT, 3], []);
    RunParts(ca, cb, QUIET, calls, BytesToB(9));
    RunParts(ca, cb, QUIET, calls + BytesToB(9), BytesToA(9));
    RunParts(ca, cb, QUIET, calls + BytesToB(9) + BytesToA(9), BytesToB(3));
    LastIsWill();
  }

  lemma {:induction false} LastKept(x: seq<Turn>, y: seq<Turn>, o: byte, remote: bool, last: bool)
    requires forall i :: 0 <= i < |y| ==> !y[i].Call?
    ensures LastCall(x + y, o, remote, last) == LastCall(x, o, remote, last)
    decreases |x| + |y|
  {
    if x != [] {
      assert (x + y)[1..] == x[1..] + y;
      var t := x[0];
      LastKept(x[1..], y, o, remote,
          if t.Call? && t.opt == o && Yours(t.verb) == remote then t.verb == On(remote) else last);
    } else if y != [] {
      assert x + y == y && [] + y[1..] == y[1..];
      LastKept([], y[1..], o, remote, last);
    } else {
      assert x + y == [];
    }
  }

  lemma {:induction false} OnlyBytes(n: nat)
    ensures forall i :: 0 <= i < |BytesToB(n)| ==> !BytesToB(n)[i].Call?
    ensures forall i :: 0 <= i < |BytesToA(n)| ==> !BytesToA(n)[i].Call?
  {
    if 0 < n {
      OnlyBytes(n - 1);
    }
  }

  lemma LastIsWill()
    ensures LastCall(LOSING, 3, false, false)
  {
    hide BytesToA, BytesToB;
    var calls := [Call(O.Will, 1), Call(O.Will, 3), Call(O.Will, 24)];
    OnlyBytes(9);
    OnlyBytes(3);
    LastKept(calls + BytesToB(9) + BytesToA(9), BytesToB(3), 3, false, false);
    LastKept(calls + BytesToB(9), BytesToA(9), 3, false, false);
    LastKept(calls, BytesToB(9), 3, false, false);
    assert calls[1..] == [Call(O.Will, 3), Call(O.Will, 24)] && calls[1..][1..] == [Call(O.Will, 24)];
    assert LastCall([], 3, false, true);
    assert [Call(O.Will, 24)][1..] == [];
  }
}
