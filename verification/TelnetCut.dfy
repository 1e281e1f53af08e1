/**
 TcpShell/libtelnet.c: when it does not matter how input is cut into pieces. The start of version 1 of
 the compression protocol skips a byte that it does not wait for, so there it can matter.
 */
module TelnetCut {
  import opened Bytes
  import O = TelnetOption
  import opened TelnetStore
  import opened TelnetTracker
  import opened TelnetCodec

  /** The byte that is skipped, unless it is one that ends pending data. */
  predicate Swallows(cfg: Config, t: Tracker, b: byte) {
    t.state == SSkip && b != IAC && !(b == CR && cfg.nvtEol && !t.rx)
  }

  /** No byte of the stream is swallowed. */
  ghost predicate CutFree(cfg: Config, t: Tracker, d: seq<byte>)
    decreases |d|
  {
    d != [] ==> !Swallows(cfg, t, d[0]) && CutFree(cfg, Step(cfg, t, d[0]).t, d[1..])
  }

  lemma {:induction false} CutFreeAppend(cfg: Config, t: Tracker, a: seq<byte>, b: seq<byte>)
    ensures CutFree(cfg, t, a + b) <==> CutFree(cfg, t, a) && CutFree(cfg, Run(cfg, t, a).t, b)
    decreases |a|
  {
    hide Step, Swallows;
    if a == [] {
      assert a + b == b;
    } else {
      assert (a + b)[1..] == a[1..] + b;
      CutFreeAppend(cfg, Step(cfg, t, a[0]).t, a[1..], b);
    }
  }

  /** Without that start there is nothing to skip. */
  lemma {:induction false} NoMccp1Free(cfg: Config, t: Tracker, d: seq<byte>)
    requires t.state != SSkip && NoMccp1(cfg, t, d)
    ensures CutFree(cfg, t, d) && Run(cfg, t, d).t.state != SSkip && OnePiece(cfg, t, d) == Run(cfg, t, d)
    decreases |d|
  {
    if d != [] {
      StepSkips(cfg, t, d[0]);
      hide Step;
      NoMccp1Free(cfg, Step(cfg, t, d[0]).t, d[1..]);
    }
  }

  lemma StepSkips(cfg: Config, t: Tracker, b: byte)
    ensures Step(cfg, t, b).t.state == SSkip <==> Mccp1(t, b)
  {
    hide Negotiate, SubEvents;
    NegotiateStays(cfg, t, if t.state.SVerb? then t.state.verb else O.Will, b);
  }

  lemma NegotiateStays(cfg: Config, t: Tracker, verb: O.Verb, opt: byte)
    ensures Negotiate(cfg, t, verb, opt).t.state == t.state
  {
    hide Supports, MoveEvents, Stored, Find, Held;
  }

  /** After a byte that is not swallowed it makes no difference whether the piece ended in front of it. */
  lemma SkipOrNot(cfg: Config, t: Tracker, b: seq<byte>)
    requires t.state == SSkip && CutFree(cfg, t, b)
    ensures var u := t.(state := SData);
      && CutFree(cfg, u, b) && OnePiece(cfg, t, b).t == OnePiece(cfg, u, b).t
      && OnePiece(cfg, t, b).events == [Overrun] + OnePiece(cfg, u, b).events
  {
    var u := t.(state := SData);
    if b != [] {
      var o := Step(cfg, u, b[0]);
      assert Step(cfg, t, b[0]) == Out(o.t, [Overrun]) && o.events == [];
      hide Step;
      var r := Run(cfg, o.t, b[1..]);
      assert [] + r.events == r.events;
      Assoc([Overrun], r.events, [Overrun]);
    }
  }

  lemma PieceAppend(cfg: Config, t: Tracker, a: seq<byte>, b: seq<byte>)
    ensures var o := Run(cfg, t, a); var p := OnePiece(cfg, o.t, b);
      OnePiece(cfg, t, a + b) == Out(p.t, o.events + p.events)
  {
    RunAppend(cfg, t, a, b);
    hide Run;
    Assoc(Run(cfg, t, a).events, Run(cfg, Run(cfg, t, a).t, b).events, [Overrun]);
  }

  /** One cut. */
  lemma OneCut(cfg: Config, t: Tracker, a: seq<byte>, b: seq<byte>)
    requires CutFree(cfg, t, a + b)
    ensures var p := OnePiece(cfg, t, a); var q := OnePiece(cfg, p.t, b);
      OnePiece(cfg, t, a + b) == Out(q.t, p.events + q.events) && CutFree(cfg, p.t, b)
  {
    hide Run, CutFree;
    CutFreeAppend(cfg, t, a, b);
    PieceAppend(cfg, t, a, b);
    var o := Run(cfg, t, a);
    if o.t.state == SSkip {
      SkipOrNot(cfg, o.t, b);
      Assoc(o.events, [Overrun], OnePiece(cfg, o.t.(state := SData), b).events);
    }
  }

  lemma {:induction false} AnyCuts(cfg: Config, t: Tracker, chunks: seq<seq<byte>>)
    requires t.state != SSkip && CutFree(cfg, t, Concat(chunks))
    ensures AllPieces(cfg, t, chunks) == OnePiece(cfg, t, Concat(chunks))
    decreases |chunks|
  {
    if chunks != [] {
      hide Run, Step, CutFree;
      OneCut(cfg, t, chunks[0], Concat(chunks[1..]));
      AnyCuts(cfg, OnePiece(cfg, t, chunks[0]).t, chunks[1..]);
    }
  }

  /** State and trace of cut input are those of the whole. */
  ghost predicate SameCut(cfg: Config, t: Tracker, chunks: seq<seq<byte>>) {
    var o, p := AllPieces(cfg, t, chunks), OnePiece(cfg, t, Concat(chunks));
    o.t == p.t && Flat(o.events) == Flat(p.events)
  }

  /** Cutting in front of a swallowed byte shows. */
  lemma {:induction false} FirstSwallowed(cfg: Config, t: Tracker, d: seq<byte>) returns (i: nat)
    requires !CutFree(cfg, t, d)
    ensures i < |d| && Swallows(cfg, Run(cfg, t, d[..i]).t, d[i])
    decreases |d|
  {
    if Swallows(cfg, t, d[0]) {
      i := 0;
    } else {
      hide Step, Swallows;
      var j := FirstSwallowed(cfg, Step(cfg, t, d[0]).t, d[1..]);
      i := j + 1;
      assert d[..i][1..] == d[1..][..j] && d[1..][j] == d[i];
    }
  }

  lemma CutShows(cfg: Config, t: Tracker, d: seq<byte>, i: nat)
    requires i < |d| && Swallows(cfg, Run(cfg, t, d[..i]).t, d[i])
    ensures Concat([d[..i], d[i..]]) == d && !SameCut(cfg, t, [d[..i], d[i..]])
  {
    var o, b := Run(cfg, t, d[..i]), d[i];
    var u := o.t.(state := SData);
    var r := OnePiece(cfg, u, d[i + 1..]);
    assert Step(cfg, o.t, b) == Out(u, []) && Step(cfg, u, b) == Out(u, [Data([b])]);
    hide Step, Run;
    TwoChunks(cfg, t, d, i);
    assert d[i..] == [b] + d[i + 1..];
    RunByte(cfg, o.t, b);
    RunByte(cfg, u, b);
    PieceAppend(cfg, o.t, [b], d[i + 1..]);
    PieceAppend(cfg, u, [b], d[i + 1..]);
    PieceAppend(cfg, t, d[..i], d[i..]);
    assert d[..i] + d[i..] == d;
    hide OnePiece, AllPieces;
    FlatAppend(o.events, [] + r.events);
    FlatAppend(o.events + [Overrun], [Data([b])] + r.events);
    FlatAppend(o.events, [Overrun]);
    FlatAppend([Data([b])], r.events);
    FlatOne(Overrun);
    FlatOne(Data([b]));
    assert [] + r.events == r.events;
    assert |Flat(AllPieces(cfg, t, [d[..i], d[i..]]).events)| == |Flat(OnePiece(cfg, t, d).events)| + 2;
  }

  lemma TwoChunks(cfg: Config, t: Tracker, d: seq<byte>, i: nat)
    requires i <= |d|
    ensures var p := OnePiece(cfg, t, d[..i]); var q := OnePiece(cfg, p.t, d[i..]);
      Concat([d[..i], d[i..]]) == d && AllPieces(cfg, t, [d[..i], d[i..]]) == Out(q.t, p.events + q.events)
  {
    hide Run;
    var chunks: seq<seq<byte>> := [d[..i], d[i..]];
    assert chunks[1..] == [d[i..]] && chunks[1..][1..] == [];
    assert Concat(chunks[1..]) == d[i..] + [] == d[i..];
    var p := OnePiece(cfg, t, d[..i]);
    var q := OnePiece(cfg, p.t, d[i..]);
    assert AllPieces(cfg, p.t, chunks[1..]) == Out(q.t, q.events + []);
    assert q.events + [] == q.events;
  }

  /** It does not matter how a stream is cut exactly if no byte of it is swallowed. */
  lemma CutExactly(cfg: Config, t: Tracker, d: seq<byte>)
    requires t.state != SSkip
    ensures CutFree(cfg, t, d) <==> forall chunks :: Concat(chunks) == d ==> SameCut(cfg, t, chunks)
  {
    hide Run, Step, Swallows;
    if CutFree(cfg, t, d) {
      forall chunks | Concat(chunks) == d ensures SameCut(cfg, t, chunks) {
        AnyCuts(cfg, t, chunks);
      }
    } else {
      var i := FirstSwallowed(cfg, t, d);
      CutShows(cfg, t, d, i);
    }
  }

  /**
   In the payload of option 85, WILL and a letter: nothing
   at all, or an event of an impossible size and the letter.
   */
  lemma CutMatters(cfg: Config, t: Tracker)
    requires t.state == SSbData && t.opt == COMPRESS
    ensures OnePiece(cfg, t, [WILL, 65]).events == []
    ensures AllPieces(cfg, t, [[WILL], [65]]).events == [Overrun, Data([65])]
  {
    var u := t.(state := SSkip, sub := []);
    assert Step(cfg, t, WILL) == Out(u, []) && Step(cfg, u, 65).events == [];
    assert Step(cfg, u.(state := SData), 65).events == [Data([65])];
    hide Step;
    RunTwo(cfg, t, WILL, 65);
    RunByte(cfg, t, WILL);
    RunByte(cfg, u.(state := SData), 65);
    hide Run;
    TwoChunks(cfg, t, [WILL, 65], 1);
    assert [WILL, 65][..1] == [WILL] && [WILL, 65][1..] == [65];
    StepSkips(cfg, u.(state := SData), 65);
    StepSkips(cfg, u, 65);
  }
}
