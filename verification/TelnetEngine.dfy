/**
 TcpShell/libtelnet.c: the tracker as it is implemented, with a growing payload buffer, cursors into
 the caller's buffer, and re-entry. It is proved to do what TelnetTracker says of single bytes.
 */
module TelnetEngine {
  import opened Bytes
  import opened O = TelnetOption
  import E = TelnetEnviron
  import S = TelnetMssp
  import opened TelnetStore
  import opened TelnetTracker
  import opened TelnetCodec
  import opened TelnetCut
  import opened T = TelnetStream

  /** `_buffer_sizes`. */
  const SIZES: seq<nat> := [0, 512, 2048, 8192, MAX_SUB]

  /** Data bytes seen but not yet passed on. */
  ghost function Pending(state: State, d: seq<byte>, start: nat, i: nat): seq<Event>
    requires i <= |d| && (state == SData ==> start <= i)
  {
    if state == SData then Singles(d[start..i]) else []
  }

  lemma PendingMore(d: seq<byte>, start: nat, i: nat)
    requires start <= i < |d|
    ensures Singles(d[start..i + 1]) == Singles(d[start..i]) + [Data([d[i]])]
  {
    assert d[start..i + 1] == d[start..i] + [d[i]];
  }

  lemma FlatNone(log: seq<Event>)
    ensures Flat(log) + Flat([]) == Flat(log)
  {
  }

  /** One more event in the log. */
  lemma LogOne(log: seq<Event>, e: Event)
    ensures Flat(log + [e]) == Flat(log) + if e.Data? then Singles(e.bytes) else [e]
  {
    FlatAppend(log, [e]);
    FlatOne(e);
  }

  class Telnet {
    const cfg: Config
    var state: State
    var opt: byte
    var buffer: array<byte>
    var pos: nat
    var tx: bool
    var rx: bool
    /** The array of option states, whose length is `q_size`. */
    var options: seq<Entry>
    /** How many arrays have been allocated for it. */
    var grown: nat
    /** The events the application's handler was called with. */
    var log: seq<Event>

    ghost predicate Valid()
      reads this
    {
      buffer.Length in SIZES && pos <= buffer.Length && state != SSkip
    }

    ghost function View(): Tracker
      requires Valid()
      reads this, buffer
    {
      Tracker(state, opt, if state == SSbData || state == SSbIac then buffer[..pos] else [], tx, rx,
          Store(options, grown))
    }

    /** `telnet_init`; the flags that can be set are in the configuration. */
    constructor (cfg: Config)
      ensures Valid() && fresh(buffer) && this.cfg == cfg && log == []
      ensures View() == Tracker(SData, 0, [], false, false, EMPTY)
    {
      this.cfg, state, opt, pos, tx, rx, options, grown, log := cfg, SData, 0, 0, false, false, [], 0, [];
      buffer := new byte[0];
    }

    // ----- options

    /** `_check_telopt`. */
    method CheckTelopt(telopt: byte, us: bool) returns (r: bool)
      ensures r == Supports(cfg.table, telopt, us)
      ensures r <==> exists i | 0 <= i < |cfg.table| ::
          cfg.table[i].opt == telopt && (if us then cfg.table[i].us else cfg.table[i].him)
          && forall j :: 0 <= j < i ==> cfg.table[j].opt != telopt
    {
      var i := 0;
      while i < |cfg.table|
        invariant i <= |cfg.table| && Supports(cfg.table, telopt, us) == Supports(cfg.table[i..], telopt, us)
        invariant forall j :: 0 <= j < i ==> cfg.table[j].opt != telopt
      {
        assert cfg.table[i..][1..] == cfg.table[i + 1..];
        if cfg.table[i].opt == telopt {
          return if us then cfg.table[i].us else cfg.table[i].him;
        }
        i := i + 1;
      }
      return false;
    }

    /** The search of `_get_rfc1143` and `_set_rfc1143`. */
    method FindOption(telopt: byte) returns (i: nat)
      ensures i == Find(options, telopt)
    {
      i := 0;
      while i != |options| && options[i].opt != telopt
        invariant i <= |options| && Find(options, telopt) == i + Find(options[i..], telopt)
      {
        assert options[i..][1..] == options[i + 1..];
        i := i + 1;
      }
    }

    /** `_get_rfc1143`. */
    method GetOption(telopt: byte) returns (q: Pair)
      ensures q == Held(options, telopt)
    {
      var i := FindOption(telopt);
      return if i != |options| then options[i].pair else UNSET;
    }

    /** `_set_rfc1143`; allocation succeeds. */
    method SetOption(telopt: byte, q: Pair)
      requires Valid()
      modifies `tx, `rx, `options, `grown
      ensures View() == Set(cfg, old(View()), telopt, q)
    {
      hide Find, Enlarged, Held, Stored, Set;
      SetSays(cfg, View(), telopt, q);
      var i := FindOption(telopt);
      if i != |options| {
        options := options[i := Entry(telopt, q)];
        if telopt == BINARY {
          tx := q.us == Yes;
          rx := q.him == Yes;
        }
        return;
      }
      var n, half := grown, |options| / 2;
      var found := seq(|options| - half, (j: nat) => cfg.left(n, half + j));
      EnlargedIs(cfg.left, n, options, Entry(telopt, q), found);
      var larger := options[..half] + found + [Entry(telopt, q), SPARE, SPARE, SPARE];
      options, grown := larger[..(|options| + 4) % 256], n + 1;
    }

    /** `_negotiate`. */
    method NegotiateByte(verb: Verb, telopt: byte)
      requires Valid()
      modifies `tx, `rx, `options, `grown, `log
      ensures View() == Negotiate(cfg, old(View()), verb, telopt).t
      ensures log == old(log) + Negotiate(cfg, old(View()), verb, telopt).events
      ensures ReceivedByRfc(cfg, old(View()), verb, telopt, Out(View(), log[|old(log)|..]))
      ensures var us, asked := verb == Do || verb == Dont, if verb == Do || verb == Will then Yes else No;
        End(old(View()), telopt, us) == asked ==> View() == old(View()) && log == old(log)
    {
      hide ReceivedByRfc, Supports, AskedUs, AskedHim, MoveEvents, Set;
      NegotiateByRfc(cfg, View(), verb, telopt);
      if End(View(), telopt, verb == Do || verb == Dont) == if verb == Do || verb == Will then Yes else No {
        AlreadySo(cfg, View(), verb, telopt);
      }
      var q := GetOption(telopt);
      var m;
      if verb == Do || verb == Dont {
        var ok := CheckTelopt(telopt, true);
        m := AskedUs(q.us, verb, ok);
        if m.stored {
          SetOption(telopt, q.(us := m.next));
        }
      } else {
        var ok := CheckTelopt(telopt, false);
        m := AskedHim(q.him, verb, ok);
        if m.stored {
          SetOption(telopt, q.(him := m.next));
        }
      }
      log := log + MoveEvents(m, telopt);
    }

    /** `telnet_negotiate`. */
    method RequestOption(verb: Verb, telopt: byte)
      requires Valid()
      modifies `tx, `rx, `options, `grown, `log
      ensures View() == Request(cfg, old(View()), verb, telopt).t
      ensures log == old(log) + Request(cfg, old(View()), verb, telopt).events
      ensures WantedByRfc(cfg, old(View()), verb, telopt, Out(View(), log[|old(log)|..]))
    {
      RequestByRfc(cfg, View(), verb, telopt);
      hide WantedByRfc;
      var q := GetOption(telopt);
      var m;
      if verb == Will || verb == Wont {
        m := Called(q.us, verb == Will, Will, Wont);
        if m.stored {
          SetOption(telopt, q.(us := m.next));
        }
      } else {
        m := Called(q.him, verb == Do, Do, Dont);
        if m.stored {
          SetOption(telopt, q.(him := m.next));
        }
      }
      log := log + MoveEvents(m, telopt);
    }

    // ----- the payload buffer

    /** `_buffer_byte`; allocation succeeds. */
    method BufferByte(b: byte) returns (ok: bool)
      requires Valid()
      modifies this`buffer, this`pos, this`log, buffer
      ensures Valid() && (buffer == old(buffer) || fresh(buffer)) && (ok <==> old(pos) < MAX_SUB)
      ensures ok ==> pos == old(pos) + 1 && buffer[..pos] == old(buffer[..pos]) + [b] && log == old(log)
      ensures !ok ==> log == old(log) + [Warning(Overflow)]
    {
      if pos == buffer.Length {
        var i: nat := 0;
        while i != |SIZES| && SIZES[i] != buffer.Length
          invariant i <= |SIZES| && forall j :: 0 <= j < i ==> SIZES[j] != buffer.Length
        {
          i := i + 1;
        }
        if |SIZES| - 1 <= i {
          log := log + [Warning(Overflow)];
          return false;
        }
        Grow(SIZES[i + 1]);
      }
      buffer[pos] := b;
      pos := pos + 1;
      return true;
    }

    /** Moves the payload to a larger buffer. */
    method Grow(size: nat)
      requires Valid() && size in SIZES && buffer.Length < size
      modifies `buffer
      ensures Valid() && fresh(buffer) && buffer.Length == size && buffer[..pos] == old(buffer[..pos])
    {
      var larger := new byte[size];
      forall i | 0 <= i < buffer.Length {
        larger[i] := buffer[i];
      }
      buffer := larger;
    }

    // ----- sub-negotiations

    /** `strlen` of the string at c; there is a NUL before size. */
    method StrLen(c: nat, size: nat) returns (n: nat)
      requires c < size <= buffer.Length && buffer[size - 1] == 0
      ensures c + n < size && buffer[c..c + n] == E.CString(buffer[c..size])
    {
      hide E.CString;
      n := 0;
      ghost var p := buffer[c..size];
      assert p[0..] == p;
      while buffer[c + n] != 0
        invariant c + n < size && p == buffer[c..size] && buffer[c..c + n] + E.CString(p[n..]) == E.CString(p)
        decreases size - c - n
      {
        CStringStep(p, n);
        assert buffer[c..c + n + 1] == buffer[c..c + n] + [p[n]];
        Assoc(buffer[c..c + n], [p[n]], E.CString(p[n + 1..]));
        n := n + 1;
      }
      CStringStep(p, n);
    }

    /** The string at c and the arguments behind it. */
    method NextArg(c: nat, size: nat, ghost p: seq<byte>) returns (n: nat)
      requires c < size <= buffer.Length && buffer[size - 1] == 0 && p == buffer[..size]
      ensures c + n < size && Args(p[c..]) == [buffer[c..c + n]] + Args(p[c + n + 1..])
    {
      hide Args;
      n := StrLen(c, size);
      assert buffer[c..size] == p[c..] && buffer[c..size][..n] == buffer[c..c + n] == p[c..c + n];
      ArgsStep(p, c, n, p[c..]);
    }

    method CountArgs(size: nat) returns (argc: nat)
      requires 0 < size <= buffer.Length && buffer[size - 1] == 0
      ensures argc == |Args(buffer[..size])|
    {
      hide Args;
      ghost var p := buffer[..size];
      var c: nat;
      argc, c := 0, 0;
      assert p[0..] == p;
      while c != size
        invariant c <= size && argc + |Args(p[c..])| == |Args(p)|
        decreases size - c
      {
        var n := NextArg(c, size, p);
        argc, c := argc + 1, c + n + 1;
      }
      ArgsNone(p[c..]);
    }

    method CollectArgs(size: nat, argc: nat) returns (args: seq<seq<byte>>)
      requires 0 < size <= buffer.Length && buffer[size - 1] == 0 && argc == |Args(buffer[..size])|
      ensures args == Args(buffer[..size])
    {
      hide Args;
      ghost var p := buffer[..size];
      var i: nat, c: nat := 0, 0;
      args := [];
      assert p[0..] == p;
      while i != argc
        invariant c <= size && i <= argc && i == |args| && args + Args(p[c..]) == Args(p)
        decreases argc - i
      {
        ArgsLeft(p, c, args);
        var n := NextArg(c, size, p);
        assert args + [buffer[c..c + n]] + Args(p[c + n + 1..]) == args + ([buffer[c..c + n]] + Args(p[c + n + 1..]));
        args, i, c := args + [buffer[c..c + n]], i + 1, c + n + 1;
      }
      ArgsLeft(p, c, args);
    }

    /** `_zmp_telnet`: one pass to count the arguments, one to collect them. */
    method ZmpTelnet(size: nat)
      requires Valid() && size <= buffer.Length
      modifies `log
      ensures log == old(log) + ZmpEvents(buffer[..size])
    {
      if size == 0 || buffer[size - 1] != 0 {
        log := log + [Warning(ZmpIncomplete)];
      } else {
        var argc := CountArgs(size);
        var args := CollectArgs(size, argc);
        log := log + [Zmp(args)];
      }
    }

    /** `_ttype_telnet`. */
    method TtypeTelnet(size: nat)
      requires Valid() && size <= buffer.Length
      modifies `log
      ensures log == old(log) + TtypeEvents(buffer[..size])
    {
      ghost var p := buffer[..size];
      if size == 0 {
        log := log + [Warning(TtypeIncomplete)];
      } else if buffer[0] != TTYPE_IS && buffer[0] != TTYPE_SEND {
        log := log + [Warning(TtypeInvalid)];
      } else if buffer[0] == TTYPE_IS {
        assert buffer[1..size] == p[1..];
        log := log + [Ttype(TTYPE_IS, E.CString(buffer[1..size]))];
      } else {
        log := log + [Ttype(TTYPE_SEND, [])];
      }
    }

    /** `_environ_telnet`. */
    method EnvironTelnet(size: nat) returns (again: bool)
      requires Valid() && size <= buffer.Length
      modifies this`log, buffer
      ensures log == old(log) + EnvironEvents(E.Decoded(old(buffer[..size])))
          && again == E.Decoded(old(buffer[..size])).Vars?
    {
      var r := E.Decode(buffer, size);
      again := r.Vars?;
      log := log + EnvironEvents(r);
    }

    /** `_mssp_telnet`. */
    method MsspTelnet(size: nat)
      requires Valid() && size <= buffer.Length
      modifies this`log, buffer
      ensures log == old(log) + MsspEvents(S.Decoded(old(buffer[..size])))
    {
      var r := S.Decode(buffer, size);
      log := log + MsspEvents(r);
    }

    /** `_subnegotiate`: the payload event, then what the option's decoder makes of it. */
    method Subnegotiate() returns (again: bool)
      requires Valid()
      modifies this`log, buffer
      ensures log == old(log) + SubEvents(opt, old(buffer[..pos])) && again == SubAgain(opt, old(buffer[..pos]))
    {
      ghost var p := buffer[..pos];
      log := log + [Subnegotiation(opt, buffer[..pos])];
      again := false;
      if opt == ZMP {
        ZmpTelnet(pos);
      } else if opt == TTYPE {
        TtypeTelnet(pos);
      } else if opt == ENVIRON || opt == NEW_ENVIRON {
        again := EnvironTelnet(pos);
      } else if opt == MSSP {
        MsspTelnet(pos);
      }
    }

    // ----- the byte machine

    /** Passes on the data from start up to i, if any; the size of the event is their difference as a `size_t`. */
    method Flush(d: seq<byte>, start: nat, i: nat)
      requires start <= i + 1 && i <= |d|
      modifies `log
      ensures Flat(log) == Flat(old(log)) + if start <= i then Singles(d[start..i]) else [Overrun]
    {
      if i != start {
        var e := if start < i then Data(d[start..i]) else Overrun;
        LogOne(log, e);
        log := log + [e];
      }
    }

    method DataByte(d: seq<byte>, i: nat, start: nat)
      requires Valid() && state == SData && start <= i + 1 && i < |d|
      modifies `state, `log
      ensures Valid() && (state == SData ==> start <= i + 2)
      ensures Advances(cfg, Shown(old(View()), start, i), Shown(View(), start, i + 1), old(log), log, d, i, start,
          start)
    {
      hide Step, Flat, Singles, Advances, Shown;
      ghost var t, log0 := View(), log;
      if d[i] == IAC {
        Flush(d, start, i);
        state := SIac;
        DataEnds(cfg, t, SIac, log0, log, d, i, start);
      } else if d[i] == CR && cfg.nvtEol && !rx {
        Flush(d, start, i);
        state := SEol;
        DataEnds(cfg, t, SEol, log0, log, d, i, start);
      } else {
        DataGoesOn(cfg, t, log, d, i, start);
      }
    }

    method EolByte(d: seq<byte>, i: nat, start: nat) returns (start': nat)
      requires Valid() && state == SEol && i < |d|
      modifies `state, `log
      ensures Valid() && start' <= i + 1
      ensures Advances(cfg, old(View()), View(), old(log), log, d, i, start, start')
    {
      hide Negotiate, Command, Broken, Buffered, SubEvents, Run, OnePiece, Flat, Singles;
      var b := d[i];
      EolFacts(b, d, i, log);
      if b != LF {
        log := log + [Data([CR])];
      }
      start' := i;
      if b == 0 {
        start' := i + 1;
      }
      state := SData;
    }

    /** The byte behind IAC. */
    method CommandByte(b: byte)
      requires Valid() && state == SIac
      modifies `state, `log
      ensures Valid() && View() == Command(old(View()), b).t && log == old(log) + Command(old(View()), b).events
      ensures state == SData <==> IsPlain(b) || b == IAC
      ensures log == old(log) + if IsPlain(b) then [Iac(b)] else if b == IAC then [Data([IAC])] else []
    {
      if b == SB {
        state := SSb;
      } else if b == WILL {
        state := SVerb(Will);
      } else if b == WONT {
        state := SVerb(Wont);
      } else if b == DO {
        state := SVerb(Do);
      } else if b == DONT {
        state := SVerb(Dont);
      } else if b == IAC {
        log := log + [Data([b])];
        state := SData;
      } else {
        log := log + [Iac(b)];
        state := SData;
      }
    }

    /** A byte of payload. */
    method PayloadByte(b: byte)
      requires Valid() && (state == SSbData || state == SSbIac)
      modifies this`state, this`buffer, this`pos, this`log, buffer
      ensures Valid() && (buffer == old(buffer) || fresh(buffer))
      ensures View() == Buffered(old(View()), b).t && log == old(log) + Buffered(old(View()), b).events
    {
      ghost var p := buffer[..pos];
      var ok := BufferByte(b);
      state := if ok then SSbData else SData;
    }

    /** SE: the payload is complete. */
    method SubEnd(d: seq<byte>, i: nat) returns (stop: bool)
      requires Valid() && state == SSbIac && i < |d| && d[i] == SE
      modifies this, buffer
      ensures Valid() && (buffer == old(buffer) || fresh(buffer))
      ensures !stop ==>
          View() == Step(cfg, old(View()), d[i]).t && log == old(log) + Step(cfg, old(View()), d[i]).events
      ensures stop ==> Consumed(cfg, old(View()), View(), old(log), log, d[i..])
      decreases |d| - i, 1, 0
    {
      hide Run, OnePiece, Flat, Consumed, SubEvents, SubAgain;
      ghost var t, log0 := View(), log;
      state := SData;
      stop := Subnegotiate();
      if stop {
        ghost var log1 := log;
        Process(d[i + 1..]);
        Joined(cfg, t, View(), log0, log1, log, d, i);
      }
    }

    /**
     Another byte: the payload is passed on as it is, and the
     byte taken as a command unless the rest is processed anew.
     */
    method SubBroken(d: seq<byte>, i: nat) returns (stop: bool)
      requires Valid() && state == SSbIac && i < |d| && d[i] != SE && d[i] != IAC
      modifies this, buffer
      ensures Valid() && (buffer == old(buffer) || fresh(buffer))
      ensures !stop ==>
          View() == Step(cfg, old(View()), d[i]).t
          && Flat(log) == Flat(old(log)) + Flat(Step(cfg, old(View()), d[i]).events)
      ensures stop ==> Consumed(cfg, old(View()), View(), old(log), log, d[i..])
      decreases |d| - i, 1, 0
    {
      hide Run, OnePiece, Step, Flat, Consumed, SubEvents, SubAgain, Command, Broken;
      ghost var t, log0 := View(), log;
      var b := d[i];
      BrokenStep(cfg, t, b);
      log := log + [Warning(UnexpectedByte(b))];
      state := SIac;
      stop := Subnegotiate();
      ghost var log1, u := log, View();
      if stop {
        assert log1 == log0 + Step(cfg, t, b).events;
        Process(d[i + 1..]);
        Joined(cfg, t, View(), log0, log1, log, d, i);
      } else {
        CommandAlone(cfg, u, b);
        Process([b]);
        ConsumedSays(cfg, u, View(), log1, log, [b]);
        BrokenFlat(t, u, b, log0, log1, log);
      }
    }

    /** The byte behind IAC in a payload. */
    method EscapedByte(d: seq<byte>, i: nat) returns (stop: bool)
      requires Valid() && state == SSbIac && i < |d|
      modifies this, buffer
      ensures Valid() && (buffer == old(buffer) || fresh(buffer))
      ensures !stop ==>
          View() == Step(cfg, old(View()), d[i]).t
          && Flat(log) == Flat(old(log)) + Flat(Step(cfg, old(View()), d[i]).events)
      ensures stop ==> Consumed(cfg, old(View()), View(), old(log), log, d[i..])
      decreases |d| - i, 1, 1
    {
      hide Flat, Run, OnePiece, Consumed, Broken, SubEvents;
      LogsAdvance(cfg, View(), log, d, i, 0);
      stop := false;
      if d[i] == SE {
        stop := SubEnd(d, i);
      } else if d[i] == IAC {
        PayloadByte(d[i]);
      } else {
        stop := SubBroken(d, i);
      }
    }

    /** One round of the loop of `_process`; `stop` tells that the rest of the input has been processed, too. */
    method OneByte(d: seq<byte>, i: nat, start: nat) returns (start': nat, stop: bool)
      requires Valid() && i < |d| && (state == SData ==> start <= i + 1)
      modifies this, buffer
      ensures Valid() && (buffer == old(buffer) || fresh(buffer)) && (state == SData ==> start' <= i + 2)
      ensures !stop ==>
          Advances(cfg, Shown(old(View()), start, i), Shown(View(), start', i + 1), old(log), log, d, i, start, start')
      ensures stop ==> old(state) != SData && Consumed(cfg, old(View()), View(), old(log), log, d[i..])
      decreases |d| - i, if state == SSbIac then 1 else 0, 2
    {
      hide Flat, Run, OnePiece, Consumed, Negotiate, Command, Broken, SubEvents, Singles, ReceivedByRfc, End, IsPlain;
      ghost var t, log0 := View(), log;
      var b := d[i];
      start', stop := start, false;
      match state {
        case SData =>
          DataByte(d, i, start);
        case SEol =>
          start' := EolByte(d, i, start);
        case SIac =>
          CommandByte(b);
          start' := i + 1;
          LogsAdvance(cfg, t, log0, d, i, start);
        case SVerb(verb) =>
          NegotiateByte(verb, b);
          start' := i + 1;
          state := SData;
          LogsAdvance(cfg, t, log0, d, i, start);
        case SSb =>
          opt, pos, state := b, 0, SSbData;
          start' := i + 1;
          LogsAdvance(cfg, t, log0, d, i, start);
        case SSbData =>
          start' := i + 1;
          if b == IAC {
            state := SSbIac;
          } else if opt == COMPRESS && b == WILL {
            start' := i + 2;
            state := SData;
          } else {
            PayloadByte(b);
          }
          LogsAdvance(cfg, t, log0, d, i, start);
        case SSbIac =>
          stop := EscapedByte(d, i);
          start' := i + 1;
          LogsAdvance(cfg, t, log0, d, i, start);
      }
    }

    /**
     `_process` and `telnet_recv`: whatever the tracker's state, a piece of input leaves the state and
     the trace that its bytes one by one would.
     */
    method Process(d: seq<byte>)
      requires Valid()
      modifies this, buffer
      ensures Valid() && (buffer == old(buffer) || fresh(buffer))
      ensures Consumed(cfg, old(View()), View(), old(log), log, d)
      decreases |d|, if state == SSbIac then 1 else 0, 3
    {
      hide Reading, Consumed, Advances, Run, OnePiece, Step, Flat;
      ghost var t0, log0 := View(), log;
      var i: nat, start: nat := 0, 0;
      ReadingStart(cfg, t0, log, d);
      while i != |d|
        invariant i <= |d| && Valid() && (buffer == old(buffer) || fresh(buffer))
        invariant (state == SData ==> start <= i + 1)
            && Reading(cfg, t0, Shown(View(), start, i), log0, log, d, i, start)
        invariant i == 0 ==> state == old(state)
        decreases |d| - i
      {
        ghost var t, log1 := Shown(View(), start, i), log;
        var next, stop := OneByte(d, i, start);
        if stop {
          ReadingStop(cfg, t0, t, View(), log0, log1, log, d, i, start);
          return;
        }
        ReadingStep(cfg, t0, t, Shown(View(), next, i + 1), log0, log1, log, d, i, start, next);
        start, i := next, i + 1;
      }
      ghost var log1 := log;
      if state == SData {
        Flush(d, start, i);
      }
      ReadingEnd(cfg, t0, View(), log0, log1, log, d, start);
    }

    /** Several pieces of input one after the other. */
    method Feed(chunks: seq<seq<byte>>)
      requires Valid()
      modifies this, buffer
      ensures Valid() && (buffer == old(buffer) || fresh(buffer))
      ensures Fed(cfg, old(View()), View(), old(log), log, chunks)
      decreases |chunks|
    {
      hide OnePiece, Flat;
      if chunks == [] {
        FlatNone(log);
      } else {
        ghost var t, log0 := View(), log;
        Process(chunks[0]);
        ghost var u := View();
        Feed(chunks[1..]);
        FlatAppend(OnePiece(cfg, t, chunks[0]).events, AllPieces(cfg, u, chunks[1..]).events);
        Assoc(Flat(log0), Flat(OnePiece(cfg, t, chunks[0]).events), Flat(AllPieces(cfg, u, chunks[1..]).events));
      }
    }

    /** However the input is cut, the state and the trace are those of the whole. */
    method FeedAnyhow(chunks: seq<seq<byte>>)
      requires Valid() && NoMccp1(cfg, View(), Concat(chunks))
      modifies this, buffer
      ensures Valid() && (buffer == old(buffer) || fresh(buffer))
      ensures var r := Run(cfg, old(View()), Concat(chunks));
        View() == r.t && Flat(log) == Flat(old(log)) + Flat(r.events)
    {
      hide OnePiece, AllPieces, Flat, Run, NoMccp1, CutFree;
      NoMccp1Free(cfg, View(), Concat(chunks));
      AnyCuts(cfg, View(), chunks);
      Feed(chunks);
    }

    // ----- writers

    /** `_send`. */
    method SendRaw(w: seq<byte>)
      modifies `log
      ensures Sends(old(log), log, w)
    {
      WireOne(log, w);
      log := log + [Event.Send(w)];
    }

    method SendPart(d: seq<byte>, l: nat, i: nat)
      requires l <= i <= |d|
      modifies `log
      ensures Sends(old(log), log, d[l..i])
    {
      if i != l {
        SendRaw(d[l..i]);
      }
    }

    /** `telnet_send`. */
    method Send(d: seq<byte>)
      modifies `log
      ensures Sends(old(log), log, Escape(d))
    {
      ghost var log0 := log;
      var i: nat, l: nat := 0, 0;
      hide Sends, Escape;
      SendsNone(log);
      while i != |d|
        invariant l <= i <= |d| && IAC !in d[l..i] && Sends(log0, log, Escape(d[..l]))
        decreases |d| - i
      {
        if d[i] == IAC {
          ghost var log1 := log;
          SendPart(d, l, i);
          ghost var log2 := log;
          SendRaw([IAC, IAC]);
          EscapeUpTo(d, l, i);
          SendsThen(log0, log1, log2, Escape(d[..l]), d[l..i]);
          SendsThen(log0, log2, log, Escape(d[..l]) + d[l..i], [IAC, IAC]);
          l := i + 1;
        }
        i := i + 1;
      }
      ghost var log1 := log;
      SendPart(d, l, i);
      EscapeRest(d, l);
      SendsThen(log0, log1, log, Escape(d[..l]), d[l..i]);
    }

    /** `telnet_send_text`. */
    method SendText(d: seq<byte>)
      modifies `log
      ensures Sends(old(log), log, Text(tx, d))
    {
      ghost var log0 := log;
      var i: nat, l: nat := 0, 0;
      hide Sends, Text;
      SendsNone(log);
      while i != |d|
        invariant l <= i <= |d| && (forall k :: l <= k < i ==> TextByte(tx, d[k]) == [d[k]])
            && Sends(log0, log, Text(tx, d[..l]))
        decreases |d| - i
      {
        if d[i] == IAC || (!tx && (d[i] == CR || d[i] == LF)) {
          ghost var log1 := log;
          SendPart(d, l, i);
          ghost var log2 := log;
          if d[i] == IAC {
            SendRaw([IAC, IAC]);
          } else if d[i] == CR {
            SendRaw([CR, 0]);
          } else {
            SendRaw([CR, LF]);
          }
          TextUpTo(tx, d, l, i);
          SendsThen(log0, log1, log2, Text(tx, d[..l]), d[l..i]);
          SendsThen(log0, log2, log, Text(tx, d[..l]) + d[l..i], TextByte(tx, d[i]));
          l := i + 1;
        }
        i := i + 1;
      }
      ghost var log1 := log;
      SendPart(d, l, i);
      TextRest(tx, d, l);
      SendsThen(log0, log1, log, Text(tx, d[..l]), d[l..i]);
    }

    /** `telnet_subnegotiation`. */
    method SendSub(telopt: byte, d: seq<byte>)
      modifies `log
      ensures Sends(old(log), log, Sub(telopt, d))
    {
      hide Sends, Escape;
      ghost var log0 := log;
      SendRaw([IAC, SB, telopt]);
      ghost var log1 := log;
      Send(d);
      ghost var log2 := log;
      SendRaw([IAC, SE]);
      SendsThen(log0, log1, log2, [IAC, SB, telopt], Escape(d));
      SendsThen(log0, log2, log, [IAC, SB, telopt] + Escape(d), [IAC, SE]);
    }

    /** `telnet_send_zmp`: every argument goes out on its own, with its NUL. */
    method SendZmp(args: seq<seq<byte>>)
      requires args != []
      modifies `log
      ensures Sends(old(log), log, Sub(ZMP, ZmpPayload(args)))
    {
      hide Sends, Escape, ZmpPayload;
      ghost var log0 := log;
      SendRaw([IAC, SB, ZMP]);
      var i := 0;
      ZmpNone(args);
      while i != |args|
        invariant i <= |args| && Sends(log0, log, [IAC, SB, ZMP] + Escape(ZmpPayload(args[..i])))
      {
        ghost var log1 := log;
        Send(args[i] + [0]);
        ZmpMore(args, i);
        SendsThen(log0, log1, log, [IAC, SB, ZMP] + Escape(ZmpPayload(args[..i])), Escape(args[i] + [0]));
        i := i + 1;
      }
      assert args[..i] == args;
      ghost var log1 := log;
      SendRaw([IAC, SE]);
      SendsThen(log0, log1, log, [IAC, SB, ZMP] + Escape(ZmpPayload(args)), [IAC, SE]);
    }

    /** `telnet_begin_newenviron`, `telnet_newenviron_value` for every name and value, and the end of the payload. */
    method SendEnviron(cmd: byte, es: seq<E.Entry>)
      modifies `log
      ensures Sends(old(log), log, Sub(NEW_ENVIRON, [cmd] + E.Encode(es)))
    {
      hide Sends, Escape, E.Encode, E.EncodeEntry;
      ghost var log0 := log;
      SendRaw([IAC, SB, NEW_ENVIRON]);
      ghost var log1 := log;
      Send([cmd]);
      SendsThen(log0, log1, log, [IAC, SB, NEW_ENVIRON], Escape([cmd]));
      var i := 0;
      EncodeNone(cmd, es);
      while i != |es|
        invariant i <= |es| && Sends(log0, log, [IAC, SB, NEW_ENVIRON] + Escape([cmd] + E.Encode(es[..i])))
      {
        ghost var log2 := log;
        SendEntry(es[i]);
        EncodeMore(cmd, es, i);
        SendsThen(log0, log2, log, [IAC, SB, NEW_ENVIRON] + Escape([cmd] + E.Encode(es[..i])),
            Escape(E.EncodeEntry(es[i])));
        i := i + 1;
      }
      assert es[..i] == es;
      ghost var log2 := log;
      SendRaw([IAC, SE]);
      SendsThen(log0, log2, log, [IAC, SB, NEW_ENVIRON] + Escape([cmd] + E.Encode(es)), [IAC, SE]);
    }

    /** `telnet_newenviron_value` with a type and a string. */
    method SendValue(kind: byte, s: seq<byte>)
      modifies `log
      ensures Sends(old(log), log, Escape([kind] + s))
    {
      hide Sends, Escape;
      ghost var log0 := log;
      Send([kind]);
      ghost var log1 := log;
      Send(s);
      EscapeAppend([kind], s);
      SendsThen(log0, log1, log, Escape([kind]), Escape(s));
    }

    method SendEntry(e: E.Entry)
      modifies `log
      ensures Sends(old(log), log, Escape(E.EncodeEntry(e)))
    {
      hide Sends, Escape;
      ghost var log0 := log;
      SendValue(e.kind, e.name);
      if e.value.Some? {
        ghost var log1 := log;
        SendValue(E.VALUE, e.value.value);
        EscapeAppend([e.kind] + e.name, [E.VALUE] + e.value.value);
        SendsThen(log0, log1, log, Escape([e.kind] + e.name), Escape([E.VALUE] + e.value.value));
        assert E.EncodeEntry(e) == [e.kind] + e.name + ([E.VALUE] + e.value.value);
      } else {
        assert E.EncodeEntry(e) == [e.kind] + e.name;
      }
    }
  }

  // ----- what a writer adds to the log

  /** Only SEND events were added, and their bytes are w. */
  ghost predicate Sends(log: seq<Event>, log': seq<Event>, w: seq<byte>) {
    log <= log' && (forall k :: |log| <= k < |log'| ==> log'[k].Send?) && Wire(log') == Wire(log) + w
  }

  lemma SendsNone(log: seq<Event>)
    ensures Sends(log, log, Escape([])) && Sends(log, log, Text(true, [])) && Sends(log, log, Text(false, []))
  {
  }

  lemma SendsThen(log0: seq<Event>, log1: seq<Event>, log2: seq<Event>, v: seq<byte>, w: seq<byte>)
    requires Sends(log0, log1, v) && Sends(log1, log2, w)
    ensures Sends(log0, log2, v + w)
  {
    assert Wire(log0) + v + w == Wire(log0) + (v + w);
  }

  lemma EscapeUpTo(d: seq<byte>, l: nat, i: nat)
    requires l <= i < |d| && IAC !in d[l..i] && d[i] == IAC
    ensures Escape(d[..i + 1]) == Escape(d[..l]) + d[l..i] + [IAC, IAC]
  {
    assert d[..i + 1] == d[..l] + d[l..i] + [d[i]];
    EscapeAppend(d[..l] + d[l..i], [d[i]]);
    EscapeAppend(d[..l], d[l..i]);
    EscapeNone(d[l..i]);
    EscapeOne(d[i]);
  }

  lemma EscapeRest(d: seq<byte>, l: nat)
    requires l <= |d| && IAC !in d[l..]
    ensures Escape(d) == Escape(d[..l]) + d[l..]
  {
    assert d == d[..l] + d[l..];
    EscapeAppend(d[..l], d[l..]);
    EscapeNone(d[l..]);
  }

  lemma TextUpTo(tx: bool, d: seq<byte>, l: nat, i: nat)
    requires l <= i < |d| && forall k :: l <= k < i ==> TextByte(tx, d[k]) == [d[k]]
    ensures Text(tx, d[..i + 1]) == Text(tx, d[..l]) + d[l..i] + TextByte(tx, d[i])
  {
    assert d[..i + 1] == d[..l] + d[l..i] + [d[i]];
    TextAppend(tx, d[..l] + d[l..i], [d[i]]);
    TextAppend(tx, d[..l], d[l..i]);
    TextNone(tx, d[l..i]);
    TextOne(tx, d[i]);
  }

  lemma TextRest(tx: bool, d: seq<byte>, l: nat)
    requires l <= |d| && forall k :: l <= k < |d| ==> TextByte(tx, d[k]) == [d[k]]
    ensures Text(tx, d) == Text(tx, d[..l]) + d[l..]
  {
    assert d == d[..l] + d[l..];
    TextAppend(tx, d[..l], d[l..]);
    TextNone(tx, d[l..]);
  }

  lemma ZmpNone(args: seq<seq<byte>>)
    ensures [IAC, SB, ZMP] + Escape(ZmpPayload(args[..0])) == [IAC, SB, ZMP]
  {
    assert Escape(ZmpPayload(args[..0])) == [];
  }

  lemma {:induction false} ZmpAppend(a: seq<seq<byte>>, b: seq<seq<byte>>)
    ensures ZmpPayload(a + b) == ZmpPayload(a) + ZmpPayload(b)
    decreases |a|
  {
    if a == [] {
      assert a + b == b;
    } else {
      assert (a + b)[1..] == a[1..] + b;
      ZmpAppend(a[1..], b);
    }
  }

  lemma ZmpMore(args: seq<seq<byte>>, i: nat)
    requires i < |args|
    ensures [IAC, SB, ZMP] + Escape(ZmpPayload(args[..i + 1]))
        == [IAC, SB, ZMP] + Escape(ZmpPayload(args[..i])) + Escape(args[i] + [0])
  {
    assert args[..i + 1] == args[..i] + [args[i]];
    ZmpAppend(args[..i], [args[i]]);
    assert ZmpPayload([args[i]]) == args[i] + [0] + ZmpPayload([]);
    assert args[i] + [0] + [] == args[i] + [0];
    EscapeAppend(ZmpPayload(args[..i]), args[i] + [0]);
  }

  lemma EncodeNone(cmd: byte, es: seq<E.Entry>)
    ensures Escape([cmd] + E.Encode(es[..0])) == Escape([cmd])
  {
    assert [cmd] + [] == [cmd];
  }

  lemma {:induction false} EncodeAppend(a: seq<E.Entry>, b: seq<E.Entry>)
    ensures E.Encode(a + b) == E.Encode(a) + E.Encode(b)
    decreases |a|
  {
    if a == [] {
      assert a + b == b;
    } else {
      assert (a + b)[1..] == a[1..] + b;
      EncodeAppend(a[1..], b);
    }
  }

  lemma EncodeMore(cmd: byte, es: seq<E.Entry>, i: nat)
    requires i < |es|
    ensures [IAC, SB, NEW_ENVIRON] + Escape([cmd] + E.Encode(es[..i + 1]))
         == [IAC, SB, NEW_ENVIRON] + Escape([cmd] + E.Encode(es[..i])) + Escape(E.EncodeEntry(es[i]))
  {
    assert es[..i + 1] == es[..i] + [es[i]];
    EncodeAppend(es[..i], [es[i]]);
    assert E.Encode([es[i]]) == E.EncodeEntry(es[i]) + E.Encode([]);
    assert E.EncodeEntry(es[i]) + [] == E.EncodeEntry(es[i]);
    assert [cmd] + (E.Encode(es[..i]) + E.EncodeEntry(es[i])) == [cmd] + E.Encode(es[..i]) + E.EncodeEntry(es[i]);
    EscapeAppend([cmd] + E.Encode(es[..i]), E.EncodeEntry(es[i]));
  }

  // ----- end to end

  /** Whatever a stream says is heard, in its order, however the stream is cut. */
  method DeliverStream(r: Telnet, items: seq<Item>, chunks: seq<seq<byte>>)
    requires r.Valid() && r.state == SData && AllLegal(r.cfg, r.View(), items)
    requires Concat(chunks) == AllSpelled(r.cfg, r.View(), items)
    modifies r, r.buffer
    ensures r.Valid() && r.View() == AllEffects(r.cfg, old(r.View()), items)
    ensures Heard(r.log) == Heard(old(r.log)) + AllMeant(items)
  {
    hide Run, NoMccp1, AllLegal, AllSpelled, AllEffects, AllMeant, Heard, Flat;
    ghost var w, log0 := Concat(chunks), r.log;
    ghost var es := Run(r.cfg, r.View(), w).events;
    StreamArrives(r.cfg, r.View(), items);
    r.FeedAnyhow(chunks);
    HeardMore(log0, r.log, es);
  }

  /**
   Text written by `telnet_send_text`, cut in any way on its
   way to a non-binary receiver, is handed over as it was.
   */
  method DeliverText(r: Telnet, d: seq<byte>, chunks: seq<seq<byte>>)
    requires r.Valid() && r.state == SData && r.cfg.nvtEol && !r.rx && Concat(chunks) == Text(false, d)
    modifies r, r.buffer
    ensures r.Valid() && r.View() == old(r.View()) && Flat(r.log) == Flat(old(r.log)) + Singles(d)
  {
    TextArrives(r.cfg, r.View(), d);
    r.FeedAnyhow(chunks);
  }

  /** The same for data written by `telnet_send` where no end-of-line translation is done. */
  method DeliverData(r: Telnet, d: seq<byte>, chunks: seq<seq<byte>>)
    requires r.Valid() && r.state == SData && (!r.cfg.nvtEol || r.rx) && Concat(chunks) == Escape(d)
    modifies r, r.buffer
    ensures r.Valid() && r.View() == old(r.View()) && Flat(r.log) == Flat(old(r.log)) + Singles(d)
  {
    DataArrives(r.cfg, r.View(), d);
    r.FeedAnyhow(chunks);
  }

  /**
   A sub-negotiation written by `telnet_subnegotiation` arrives as one
   event with the same payload, followed by what its decoder says.
   */
  method DeliverSub(r: Telnet, telopt: byte, d: seq<byte>, chunks: seq<seq<byte>>)
    requires r.Valid() && r.state == SData && telopt != COMPRESS && |d| <= MAX_SUB && Concat(chunks) == Sub(telopt, d)
    modifies r, r.buffer
    ensures r.Valid() && r.View() == old(r.View()).(opt := telopt)
        && Flat(r.log) == Flat(old(r.log)) + Flat(SubEvents(telopt, d))
  {
    SubArrives(r.cfg, r.View(), telopt, d);
    r.FeedAnyhow(chunks);
  }

  /** What is stored, with and without an element for the option. */
  lemma SetSays(cfg: Config, t: Tracker, telopt: byte, q: Pair)
    ensures var s := t.options; var i := Find(s.q, telopt); var e := Entry(telopt, q);
      Set(cfg, t, telopt, q)
      == if i == |s.q| then t.(options := Store(Enlarged(cfg.left, s.grown, s.q, e), s.grown + 1))
         else if telopt == BINARY then t.(options := Store(s.q[i := e], s.grown), tx := q.us == Yes, rx := q.him == Yes)
         else t.(options := Store(s.q[i := e], s.grown))
  {
    hide Find, Enlarged;
  }

  lemma EnlargedIs(left: Leftover, n: nat, q: seq<Entry>, e: Entry, found: seq<Entry>)
    requires |found| == |q| - |q| / 2 && forall j :: 0 <= j < |found| ==> found[j] == left(n, |q| / 2 + j)
    ensures (q[..|q| / 2] + found + [e, SPARE, SPARE, SPARE])[..(|q| + 4) % 256] == Enlarged(left, n, q, e)
  {
    assert found == seq(|q| - |q| / 2, (i: nat) => left(n, |q| / 2 + i));
  }

  lemma CStringStep(p: seq<byte>, n: nat)
    requires n < |p|
    ensures E.CString(p[n..]) == if p[n] == 0 then [] else [p[n]] + E.CString(p[n + 1..])
  {
    assert p[n..][1..] == p[n + 1..];
  }

  lemma ArgsNone(p: seq<byte>)
    requires p == []
    ensures Args(p) == []
  {
  }

  lemma ArgsStep(p: seq<byte>, c: nat, n: nat, w: seq<byte>)
    requires c < |p| && w == p[c..] && n < |w| && w[..n] == E.CString(w)
    ensures Args(p[c..]) == [p[c..c + n]] + Args(p[c + n + 1..])
  {
    assert p[c..][n + 1..] == p[c + n + 1..] && p[c..c + n] == w[..n];
  }

  lemma ArgsLeft(p: seq<byte>, c: nat, args: seq<seq<byte>>)
    requires c <= |p| && args + Args(p[c..]) == Args(p)
    ensures |args| < |Args(p)| ==> c < |p|
    ensures |args| == |Args(p)| ==> args == Args(p)
  {
    assert |args + Args(p[c..])| == |args| + |Args(p[c..])|;
    if |args| == |Args(p)| {
      assert args + Args(p[c..]) == args;
    }
  }

  // ----- the loop's bookkeeping

  /** A byte has been taken: state and trace are those of TelnetTracker, with the pending data counted in. */
  ghost predicate Advances(cfg: Config, t: Tracker, t': Tracker, log: seq<Event>, log': seq<Event>, d: seq<byte>,
          i: nat, start: nat, start': nat)
    requires i < |d| && (t.state == SData ==> start <= i)
  {
    && t' == Step(cfg, t, d[i]).t && (t'.state == SData ==> start' <= i + 1)
    && Flat(log') + Pending(t'.state, d, start', i + 1)
        == Flat(log) + Pending(t.state, d, start, i) + Flat(Step(cfg, t, d[i]).events)
  }

  /** A piece of input has been taken whole. */
  ghost predicate Consumed(cfg: Config, t: Tracker, t': Tracker, log: seq<Event>, log': seq<Event>, d: seq<byte>) {
    t' == OnePiece(cfg, t, d).t && Flat(log') == Flat(log) + Flat(OnePiece(cfg, t, d).events)
  }

  ghost predicate Fed(cfg: Config, t: Tracker, t': Tracker, log: seq<Event>, log': seq<Event>, chunks: seq<seq<byte>>) {
    t' == AllPieces(cfg, t, chunks).t && Flat(log') == Flat(log) + Flat(AllPieces(cfg, t, chunks).events)
  }

  /** The tracker as it stands in front of byte i: the pending data may be taken to start behind that byte. */
  ghost function Shown(t: Tracker, start: nat, i: nat): Tracker {
    if t.state == SData && start == i + 1 then t.(state := SSkip) else t
  }

  ghost predicate Reading(cfg: Config, t0: Tracker, t: Tracker, log0: seq<Event>, log: seq<Event>, d: seq<byte>, i: nat,
          start: nat)
    requires i <= |d|
  {
    && t == Run(cfg, t0, d[..i]).t && (t.state == SData ==> start <= i)
    && Flat(log) + Pending(t.state, d, start, i) == Flat(log0) + Flat(Run(cfg, t0, d[..i]).events)
  }

  lemma FirstByte(cfg: Config, t: Tracker, d: seq<byte>, i: nat)
    requires i < |d|
    ensures var o := Step(cfg, t, d[i]); var r := OnePiece(cfg, o.t, d[i + 1..]);
        OnePiece(cfg, t, d[i..]) == Out(r.t, o.events + r.events)
  {
    hide Step, Run;
    RunByte(cfg, t, d[i]);
    PieceAppend(cfg, t, [d[i]], d[i + 1..]);
    assert d[i..] == [d[i]] + d[i + 1..];
  }

  /** A byte that ends the pending data. */
  lemma DataEnds(cfg: Config, t: Tracker, q: State, log: seq<Event>, log': seq<Event>, d: seq<byte>, i: nat, start: nat)
    requires t.state == SData && start <= i + 1 && i < |d|
    requires if d[i] == IAC then q == SIac else q == SEol && d[i] == CR && cfg.nvtEol && !t.rx
    requires Flat(log') == Flat(log) + if start <= i then Singles(d[start..i]) else [Overrun]
    ensures Advances(cfg, Shown(t, start, i), Shown(t.(state := q), start, i + 1), log, log', d, i, start, start)
  {
    hide Step, Flat, Singles;
    EndStep(cfg, Shown(t, start, i), q, d[i]);
    FlatOne(Overrun);
    FlatNone(log);
    FlatNone(log');
    NothingMore(log, log', if start <= i then Singles(d[start..i]) else [Overrun]);
  }

  lemma NothingMore(log: seq<Event>, log': seq<Event>, es: seq<Event>)
    ensures Flat(log') + [] == Flat(log') && Flat([]) == [] && Flat(log) + es + [] == Flat(log) + es
    ensures Flat(log) + [] + es == Flat(log) + es
  {
  }

  lemma EndStep(cfg: Config, t: Tracker, q: State, b: byte)
    requires t.state in {SData, SSkip}
    requires if b == IAC then q == SIac else q == SEol && b == CR && cfg.nvtEol && !t.rx
    ensures Step(cfg, t, b) == Out(t.(state := q), if t.state == SSkip then [Overrun] else [])
  {
  }

  /** A byte that belongs to it, or is skipped. */
  lemma DataGoesOn(cfg: Config, t: Tracker, log: seq<Event>, d: seq<byte>, i: nat, start: nat)
    requires t.state == SData && start <= i + 1 && i < |d| && d[i] != IAC && !(d[i] == CR && cfg.nvtEol && !t.rx)
    ensures Advances(cfg, Shown(t, start, i), Shown(t, start, i + 1), log, log, d, i, start, start)
  {
    FlatOne(Data([d[i]]));
    if start <= i {
      PendingMore(d, start, i);
      Assoc(Flat(log), Singles(d[start..i]), [Data([d[i]])]);
    }
  }

  /** Events appended to the log in a state without pending data. */
  lemma LogsAdvance(cfg: Config, t: Tracker, log: seq<Event>, d: seq<byte>, i: nat, start: nat)
    requires i < |d| && t.state != SData
    ensures Flat(log + Step(cfg, t, d[i]).events) == Flat(log) + Flat(Step(cfg, t, d[i]).events)
    ensures Pending(t.state, d, start, i) == [] && Singles(d[i + 1..i + 1]) == []
    ensures Step(cfg, t, d[i]).events == [] ==> log + Step(cfg, t, d[i]).events == log
    ensures Flat(log) + [] == Flat(log) && forall es :: Flat(log) + [] + Flat(es) == Flat(log) + Flat(es)
  {
    FlatAppend(log, Step(cfg, t, d[i]).events);
  }

  lemma EolFacts(b: byte, d: seq<byte>, i: nat, log: seq<Event>)
    requires i < |d| && d[i] == b
    ensures Flat([Data([CR])] + [Data([b])]) == [Data([CR]), Data([b])] && Flat([Data([b])]) == [Data([b])]
        && Flat([Data([CR])]) == [Data([CR])]
    ensures Flat([] + [Data([b])]) == [Data([b])] && Flat([Data([CR])] + []) == [Data([CR])]
    ensures Flat(log + [Data([CR])]) == Flat(log) + [Data([CR])]
    ensures Singles(d[i..i + 1]) == [Data([b])] && Singles(d[i + 1..i + 1]) == []
  {
    FlatOne(Data([b]));
    FlatOne(Data([CR]));
    FlatAppend([Data([CR])], [Data([b])]);
    LogOne(log, Data([CR]));
    assert [] + [Data([b])] == [Data([b])] && [Data([CR])] + [] == [Data([CR])];
  }

  /** The rest of the input was processed by re-entry. */
  lemma Joined(cfg: Config, t: Tracker, t': Tracker, log0: seq<Event>, log1: seq<Event>, log: seq<Event>, d: seq<byte>,
          i: nat)
    requires i < |d| && log1 == log0 + Step(cfg, t, d[i]).events
        && Consumed(cfg, Step(cfg, t, d[i]).t, t', log1, log, d[i + 1..])
    ensures Consumed(cfg, t, t', log0, log, d[i..])
  {
    hide Step, OnePiece, Flat;
    FirstByte(cfg, t, d, i);
    FlatAppend(log0, Step(cfg, t, d[i]).events);
    FlatAppend(Step(cfg, t, d[i]).events, OnePiece(cfg, Step(cfg, t, d[i]).t, d[i + 1..]).events);
  }

  lemma BrokenStep(cfg: Config, t: Tracker, b: byte)
    requires t.state == SSbIac && b != SE && b != IAC
    ensures Step(cfg, t, b) == Broken(t, b)
    ensures SubAgain(t.opt, t.sub) ==> Broken(t, b).t == t.(state := SIac, sub := [])
    ensures SubAgain(t.opt, t.sub) ==> Broken(t, b).events == [Warning(UnexpectedByte(b))] + SubEvents(t.opt, t.sub)
  {
    hide SubEvents, SubAgain, Command;
  }

  lemma CommandAlone(cfg: Config, u: Tracker, b: byte)
    requires u.state == SIac
    ensures OnePiece(cfg, u, [b]) == Command(u, b)
  {
    RunByte(cfg, u, b);
  }

  lemma ConsumedSays(cfg: Config, t: Tracker, t': Tracker, log: seq<Event>, log': seq<Event>, d: seq<byte>)
    requires Consumed(cfg, t, t', log, log', d)
    ensures t' == OnePiece(cfg, t, d).t && Flat(log') == Flat(log) + Flat(OnePiece(cfg, t, d).events)
  {
  }

  lemma BrokenFlat(t: Tracker, u: Tracker, b: byte, log0: seq<Event>, log1: seq<Event>, log: seq<Event>)
    requires u == t.(state := SIac, sub := []) && !SubAgain(t.opt, t.sub)
    requires log1 == log0 + [Warning(UnexpectedByte(b))] + SubEvents(t.opt, t.sub)
        && Flat(log) == Flat(log1) + Flat(Command(u, b).events)
    ensures Flat(log) == Flat(log0) + Flat(Broken(t, b).events) && Broken(t, b).t == Command(u, b).t
  {
    hide Flat, SubEvents, Command;
    var w, e, c := [Warning(UnexpectedByte(b))], SubEvents(t.opt, t.sub), Command(u, b).events;
    assert Broken(t, b).events == w + e + c;
    hide Broken;
    Assoc(log0, w, e);
    FlatAppend(log0, w + e);
    FlatAppend(w + e, c);
    Assoc(Flat(log0), Flat(w + e), Flat(c));
  }

  /** One more byte of a run. */
  lemma RunNext(cfg: Config, t0: Tracker, t: Tracker, d: seq<byte>, i: nat)
    requires i < |d| && t == Run(cfg, t0, d[..i]).t
    ensures Run(cfg, t0, d[..i + 1]).t == Step(cfg, t, d[i]).t
    ensures Flat(Run(cfg, t0, d[..i + 1]).events) == Flat(Run(cfg, t0, d[..i]).events) + Flat(Step(cfg, t, d[i]).events)
  {
    hide Step, Run, Flat;
    RunByte(cfg, t, d[i]);
    RunAppend(cfg, t0, d[..i], [d[i]]);
    assert d[..i + 1] == d[..i] + [d[i]];
    FlatAppend(Run(cfg, t0, d[..i]).events, Step(cfg, t, d[i]).events);
  }

  lemma ReadingStep(cfg: Config, t0: Tracker, t: Tracker, t': Tracker, log0: seq<Event>, log: seq<Event>,
          log': seq<Event>, d: seq<byte>, i: nat, start: nat, start': nat)
    requires i < |d| && Reading(cfg, t0, t, log0, log, d, i, start)
        && Advances(cfg, t, t', log, log', d, i, start, start')
    ensures Reading(cfg, t0, t', log0, log', d, i + 1, start')
  {
    hide Step, Run, Flat, Pending;
    RunNext(cfg, t0, t, d, i);
    Assoc(Flat(log0), Flat(Run(cfg, t0, d[..i]).events), Flat(Step(cfg, t, d[i]).events));
  }

  lemma ReadingStop(cfg: Config, t0: Tracker, t: Tracker, t': Tracker, log0: seq<Event>, log: seq<Event>,
          log': seq<Event>, d: seq<byte>, i: nat, start: nat)
    requires i < |d| && Reading(cfg, t0, t, log0, log, d, i, start) && t.state != SData
        && Consumed(cfg, t, t', log, log', d[i..])
    ensures Consumed(cfg, t0, t', log0, log', d)
  {
    hide Step, Run, OnePiece, Flat;
    assert d == d[..i] + d[i..];
    assert Flat(log) + Pending(t.state, d, start, i) == Flat(log);
    hide Pending;
    PieceAppend(cfg, t0, d[..i], d[i..]);
    FlatAppend(Run(cfg, t0, d[..i]).events, OnePiece(cfg, t, d[i..]).events);
    Assoc(Flat(log0), Flat(Run(cfg, t0, d[..i]).events), Flat(OnePiece(cfg, t, d[i..]).events));
  }

  lemma ReadingStart(cfg: Config, t: Tracker, log: seq<Event>, d: seq<byte>)
    ensures Reading(cfg, t, t, log, log, d, 0, 0)
  {
    assert d[0..] == d && d[..0] == [];
  }

  /** At the end of the input the pending data is passed on. */
  lemma ReadingEnd(cfg: Config, t0: Tracker, t: Tracker, log0: seq<Event>, log: seq<Event>, log': seq<Event>,
          d: seq<byte>, start: nat)
    requires t.state != SSkip && (t.state == SData ==> start <= |d| + 1)
    requires Reading(cfg, t0, Shown(t, start, |d|), log0, log, d, |d|, start)
    requires if t.state != SData then log' == log
      else Flat(log') == Flat(log) + if start <= |d| then Singles(d[start..|d|]) else [Overrun]
    ensures Consumed(cfg, t0, t, log0, log', d)
  {
    hide Run, Step, Flat, Singles;
    assert d[..|d|] == d;
    FlatAppend(Run(cfg, t0, d).events, [Overrun]);
    FlatOne(Overrun);
    Assoc(Flat(log0), Flat(Run(cfg, t0, d).events), [Overrun]);
  }
}
