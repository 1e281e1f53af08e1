/**
 LwIP/src/api/api_msg.c: how calls on a TCP netconn are completed, without core locking. The methods run
 one at a time in the TCP/IP thread, in any order their preconditions allow; what TCP answers is a parameter.
 */
module Netconn {
  import opened Bytes

  type err = int

  const ERR_OK: err := 0
  const ERR_MEM: err := -1
  const ERR_RTE: err := -4
  const ERR_INPROGRESS: err := -5
  const ERR_WOULDBLOCK: err := -7
  const ERR_ALREADY: err := -9
  const ERR_ISCONN: err := -10
  const ERR_CONN: err := -11
  const ERR_ABRT: err := -13
  const ERR_CLSD: err := -15

  predicate Fatal(e: err) {
    e <= ERR_ABRT
  }

  /** `enum netconn_state`. */
  datatype State = NONE | WRITE | LISTEN | CONNECT | CLOSE

  datatype Op = OpConnect | OpListen | OpWrite(data: seq<byte>, dontblock: bool) | OpClose(rx: bool, tx: bool)
      | OpDelete

  /**
   `struct api_msg`: `len` is `msg.w.len`, `pollsLeft` is `msg.sd.polls_left`, `acks` counts how often the
   waiting thread was released, `taken` are the bytes that `tcp_write` has accepted for the call.
   */
  datatype Msg = Msg(op: Op, len: nat, pollsLeft: nat, err: err, acks: nat, taken: seq<byte>)

  /**
   Answers of TCP during one `lwip_netconn_do_writemore`: free send buffer, `tcp_write`, `tcp_output`; and
   whether there is plenty of room afterwards.
   */
  datatype WriteAnswer = WriteAnswer(room: u16, write: err, output: err, plenty: bool)

  /** Answers during one `lwip_netconn_do_close_internal`: the pcb's receive side, and `tcp_close` or `tcp_shutdown`. */
  datatype CloseAnswer = CloseAnswer(closing: bool, rxClosed: bool, result: err)

  predicate Closes(op: Op) {
    op.OpClose? || op.OpDelete?
  }

  predicate ShutRx(op: Op) {
    op.OpDelete? || (op.OpClose? && op.rx)
  }

  predicate ShutTx(op: Op) {
    op.OpDelete? || (op.OpClose? && op.tx)
  }

  // ----- what a round of writing comes to

  /**
   How much is offered when `left` bytes are still to be
   written: at most 0xffff, and no more than there is room for.
   */
  function Offered(left: nat, room: nat): nat {
    var len := if left > 0xffff then 0xffff else left;
    if room < len then room else len
  }

  /** What the attempt to write comes to; without any room a call that may not block does not even try. */
  function Answered(a: WriteAnswer, dontblock: bool): err {
    if dontblock && a.room == 0 then ERR_WOULDBLOCK else a.write
  }

  function Accepted(left: nat, a: WriteAnswer, dontblock: bool): nat {
    if Answered(a, dontblock) == ERR_OK then Offered(left, a.room) else 0
  }

  /** Errors of `tcp_output` that end a write. */
  predicate Broken(output: err) {
    Fatal(output) || output == ERR_RTE
  }

  /** The call ends with this round: everything is written, it may not block, or there is a lasting error. */
  predicate Ends(left: nat, a: WriteAnswer, dontblock: bool) {
    dontblock || Broken(a.output) || (a.write != ERR_OK && a.write != ERR_MEM)
        || (a.write == ERR_OK && Offered(left, a.room) == left)
  }

  function WriteResult(a: WriteAnswer, dontblock: bool): err {
    var e := Answered(a, dontblock);
    if (e == ERR_OK || (e == ERR_MEM && !dontblock)) && Broken(a.output) then a.output else e
  }

  /**
   A call is acknowledged once, or not yet while it is current. What TCP
   took is a prefix of the data; a write that succeeded reports its length.
   */
  predicate MsgOk(m: Msg, current: bool) {
    && m.acks == (if current then 0 else 1)
    && (m.op.OpWrite? ==> m.taken <= m.op.data && (!current && m.err == ERR_OK ==> m.len == |m.taken|))
  }

  ghost predicate MsgsOk(msgs: seq<Msg>, current: Option<nat>) {
    forall i :: 0 <= i < |msgs| ==> MsgOk(msgs[i], current == Some(i))
  }

  /** What the rounds come to, said of the answers alone. */
  lemma RoundMeans(left: nat, a: WriteAnswer, dontblock: bool)
    ensures var n, lost := Accepted(left, a, dontblock), Fatal(a.output) || a.output == ERR_RTE;
      && (if a.write == ERR_OK && !(dontblock && a.room == 0)
          then n <= a.room && n <= 0xffff && n in {left, a.room, 0xffff}
          else n == 0)
      && (Ends(left, a, dontblock) <==>
            dontblock || lost || a.write !in {ERR_OK, ERR_MEM}
            || (a.write == ERR_OK && left <= a.room && left <= 0xffff))
      && WriteResult(a, dontblock) == if dontblock && a.room == 0 then ERR_WOULDBLOCK
         else if lost && (a.write == ERR_OK || (a.write == ERR_MEM && !dontblock)) then a.output
         else a.write
  {
  }

  lemma PrefixMore(data: seq<byte>, o: nat, n: nat)
    requires o + n <= |data|
    ensures data[..o] + data[o..o + n] == data[..o + n] && (o + n == |data| ==> data[..o + n] == data)
  {
  }

  class Netconn {
    var state: State
    var currentMsg: Option<nat>
    var writeOffset: nat
    /** Whether `conn->pcb.tcp` is set. */
    var pcb: bool
    /** NETCONN_FLAG_IN_NONBLOCKING_CONNECT, NETCONN_FLAG_NON_BLOCKING, NETCONN_FLAG_CHECK_WRITESPACE. */
    var inNonblockingConnect: bool
    var nonblocking: bool
    var checkWritespace: bool
    var lastErr: err
    /** All calls made so far; a call is known by its index. */
    var msgs: seq<Msg>
    /** TCP has sent its SYN and will report the outcome. */
    ghost var synSent: bool

    /** There is a current message exactly while a write, a close or a blocking connect is under way. */
    ghost predicate CurrentOk()
      reads this
    {
      && (currentMsg.Some? <==> state == WRITE || state == CLOSE || (state == CONNECT && !inNonblockingConnect))
      && (currentMsg.Some? ==> currentMsg.value < |msgs|)
    }

    /** `dying` tells that a nonblocking connect is being deleted, whose flag is never reset. */
    ghost predicate StateOk(dying: bool)
      requires CurrentOk()
      reads this
    {
      && (state == WRITE ==> pcb && msgs[currentMsg.value].op.OpWrite? && WriteOk(msgs[currentMsg.value]))
      && (state == CLOSE ==> pcb && Closes(msgs[currentMsg.value].op) && (inNonblockingConnect ==> dying))
      && (state == CONNECT ==> pcb && synSent && (!inNonblockingConnect ==> msgs[currentMsg.value].op.OpConnect?))
      && (synSent ==> state == CONNECT) && (pcb && state != WRITE ==> writeOffset == 0)
          && (inNonblockingConnect ==> state == CONNECT || !pcb || (state == CLOSE && dying))
    }

    /** The accepted bytes are exactly the prefix [0, write_offset). */
    ghost predicate WriteOk(m: Msg)
      requires m.op.OpWrite?
      reads this
    {
      writeOffset < m.len == |m.op.data| && m.taken == m.op.data[..writeOffset]
    }

    ghost predicate ValidFor(dying: bool)
      reads this
    {
      CurrentOk() && StateOk(dying) && MsgsOk(msgs, currentMsg)
    }

    /** Between the calls a close that goes on has polls left. */
    ghost predicate Valid()
      reads this
    {
      ValidFor(false) && (state == CLOSE ==> 0 < msgs[currentMsg.value].pollsLeft)
    }

    /**
     What one round of writing leaves when call c had written o bytes before. If `tcp_write` accepts, n is the least of
     what is left, the free send buffer and 0xffff; otherwise it is 0.
     */
    ghost predicate WriteDone(c: nat, o: nat, last: err, a: WriteAnswer)
      reads this
    {
      && c < |msgs| && msgs[c].op.OpWrite? && o <= |msgs[c].taken| <= |msgs[c].op.data|
      && var m, data, dontblock := msgs[c], msgs[c].op.data, nonblocking || msgs[c].op.dontblock;
      var left, n := |data| - o, |m.taken| - o;
      var lost := Fatal(a.output) || a.output == ERR_RTE;
      && m.taken == data[..o + n]
      && (if a.write == ERR_OK && !(dontblock && a.room == 0)
          then n <= a.room && n <= 0xffff && n in {left, a.room, 0xffff}
          else n == 0)
      && if dontblock || lost || a.write !in {ERR_OK, ERR_MEM}
          || (a.write == ERR_OK && left <= a.room && left <= 0xffff)
         then
           state == NONE && currentMsg.None? && writeOffset == 0 && lastErr == (if Fatal(last) then last else m.err)
           && m.len == (if m.err == ERR_OK then |m.taken| else 0)
           && m.err == if dontblock && a.room == 0 then ERR_WOULDBLOCK
              else if lost && (a.write == ERR_OK || (a.write == ERR_MEM && !dontblock)) then a.output
              else a.write
         else
           state == WRITE && currentMsg == Some(c) && writeOffset == |m.taken| && m.len == |data| && lastErr == last
    }

    /** A call that may not block did not hand over all its data in one round, for want of room. */
    ghost predicate LacksRoom(c: nat, o: nat, a: WriteAnswer)
      requires c < |msgs| && msgs[c].op.OpWrite?
      reads this
    {
      var data := msgs[c].op.data;
      && (nonblocking || msgs[c].op.dontblock) && (a.room == 0 || a.write in {ERR_OK, ERR_MEM})
      && (0 < o || a.room < |data| || 0xffff < |data|)
    }

    /**
     What one attempt to close leaves when call c had that many polls left. A
     shutdown of both ends counts as one even if one of them was shut down before.
     */
    ghost predicate CloseDone(c: nat, polls: nat, last: err, a: CloseAnswer)
      reads this
    {
      && c < |msgs| && Closes(msgs[c].op)
      && var m, op := msgs[c], msgs[c].op;
      var whole := op.OpDelete? || (op.rx && op.tx) || (op.rx && a.closing) || (op.tx && a.rxClosed);
      if a.result == ERR_MEM && 0 < polls then
        state == CLOSE && currentMsg == Some(c) && pcb && m.pollsLeft == polls && lastErr == last
      else
        state == NONE && currentMsg.None? && lastErr == (if Fatal(last) then last else m.err)
        && m.err == (if a.result == ERR_MEM && whole then ERR_OK else a.result)
        && pcb == !(whole && m.err == ERR_OK)
    }

    /** The calls made before are as they were, except the one with index i. */
    twostate predicate Others(i: nat)
      reads this
    {
      |msgs| >= |old(msgs)| && forall k :: 0 <= k < |old(msgs)| && k != i ==> msgs[k] == old(msgs)[k]
    }

    constructor ()
      ensures Valid() && state == NONE && currentMsg.None? && pcb && msgs == [] && lastErr == ERR_OK && writeOffset == 0
      ensures !inNonblockingConnect && !nonblocking && !checkWritespace
    {
      state, currentMsg, writeOffset, pcb, inNonblockingConnect := NONE, None, 0, true, false;
      nonblocking, checkWritespace, lastErr, msgs, synSent := false, false, ERR_OK, [], false;
    }

    /** NETCONN_SET_SAFE_ERR. */
    method SetSafeErr(e: err)
      modifies `lastErr
      ensures lastErr == if old(lastErr) <= ERR_ABRT then old(lastErr) else e
    {
      if !Fatal(lastErr) {
        lastErr := e;
      }
    }

    /** A new call is put together by the application, which has none outstanding. */
    method Post(op: Op, len: nat, polls: nat) returns (m: nat)
      requires Valid() && currentMsg.None?
      modifies `msgs
      ensures m == |old(msgs)| && msgs == old(msgs) + [Msg(op, len, polls, ERR_OK, 0, [])] && MsgsOk(msgs, Some(m))
    {
      m := |msgs|;
      msgs := msgs + [Msg(op, len, polls, ERR_OK, 0, [])];
    }

    /** TCPIP_APIMSG_ACK. */
    method Ack(m: nat, e: err)
      requires m < |msgs|
      modifies `msgs
      ensures old(MsgsOk(msgs, Some(m))) ==>
          (old(msgs)[m].op.OpWrite? && e == ERR_OK ==> old(msgs)[m].len == |old(msgs)[m].taken|) ==>
          MsgsOk(msgs, None)
      ensures msgs == old(msgs)[m := old(msgs)[m].(err := e, acks := old(msgs)[m].acks + 1)]
    {
      msgs := msgs[m := msgs[m].(err := e, acks := msgs[m].acks + 1)];
    }

    /**
     `lwip_netconn_do_listen`; `answer` is what setting up the listening pcb
     and its mailbox returns, `kept` whether a pcb is left if that fails.
     */
    method DoListen(answer: err, kept: bool) returns (m: nat)
      requires Valid() && currentMsg.None?
      modifies `state, `pcb, `msgs
      ensures Valid() && m == |old(msgs)| < |msgs| && Others(m)
      ensures msgs[m].err == ERR_OK <==> !Fatal(lastErr) && pcb && state == LISTEN
      ensures state == if !Fatal(lastErr) && old(pcb) && old(state) == NONE && answer == ERR_OK then LISTEN
          else old(state)
      ensures pcb == (old(pcb) && (Fatal(lastErr) || old(state) != NONE || answer == ERR_OK || kept))
      ensures msgs[m].err == if Fatal(lastErr) then lastErr else if !old(pcb) then ERR_CONN
          else if old(state) == NONE then answer
                else if old(state) == LISTEN then ERR_OK else ERR_CONN
    {
      m := Post(OpListen, 0, 0);
      if Fatal(lastErr) {
        Ack(m, lastErr);
      } else if pcb && state == NONE {
        if answer == ERR_OK {
          state := LISTEN;
        } else if !kept {
          pcb := false;
        }
        Ack(m, answer);
      } else if pcb && state == LISTEN {
        Ack(m, ERR_OK);
      } else {
        Ack(m, ERR_CONN);
      }
    }

    // ----- connect

    /** `lwip_netconn_do_connect`; `answer` is what `tcp_connect` returns. */
    method DoConnect(answer: err) returns (m: nat)
      requires Valid() && currentMsg.None?
      modifies `state, `currentMsg, `inNonblockingConnect, `synSent, `msgs
      ensures Valid() && m == |old(msgs)| < |msgs| && Others(m)
      ensures state == if old(pcb) && old(state) == NONE && answer == ERR_OK then CONNECT else old(state)
      ensures currentMsg == Some(m) || currentMsg.None?
      ensures currentMsg == Some(m) <==> old(pcb) && old(state) == NONE && answer == ERR_OK && !nonblocking
      ensures currentMsg != Some(m) ==>
          msgs[m].err == (if !old(pcb) then ERR_CLSD else if old(state) == CONNECT then ERR_ALREADY
                else if old(state) != NONE then ERR_ISCONN else if answer == ERR_OK then ERR_INPROGRESS else answer)
    {
      m := Post(OpConnect, 0, 0);
      var e: err;
      if !pcb {
        e := ERR_CLSD;
      } else if state == CONNECT {
        e := ERR_ALREADY;
      } else if state != NONE {
        e := ERR_ISCONN;
      } else {
        e := answer;
        if e == ERR_OK {
          state, inNonblockingConnect, synSent := CONNECT, nonblocking, true;
          if nonblocking {
            e := ERR_INPROGRESS;
          } else {
            currentMsg := Some(m);
            return;
          }
        }
      }
      Ack(m, e);
    }

    /** `lwip_netconn_do_connected`: TCP reports the outcome of its SYN. */
    method Connected(e: err)
      requires Valid() && pcb && synSent
      modifies `state, `currentMsg, `inNonblockingConnect, `synSent, `lastErr, `msgs
      ensures Valid() && state == NONE && currentMsg.None? && |msgs| == |old(msgs)| && !inNonblockingConnect
          && lastErr == if Fatal(old(lastErr)) then old(lastErr) else ERR_OK
      ensures old(currentMsg).Some? ==> msgs[old(currentMsg).value].err == e && Others(old(currentMsg).value)
      ensures old(currentMsg).None? ==> msgs == old(msgs)
    {
      var current := currentMsg;
      var wasBlocking := !inNonblockingConnect;
      inNonblockingConnect := false;
      currentMsg, state, synSent := None, NONE, false;
      SetSafeErr(ERR_OK);
      if wasBlocking {
        Ack(current.value, e);
      }
    }

    /** The application switches between blocking and nonblocking calls. */
    method SetNonblocking(on: bool)
      requires Valid()
      modifies `nonblocking
      ensures Valid() && nonblocking == on
    {
      nonblocking := on;
    }

    // ----- write

    /** `lwip_netconn_do_write`, with the data still to be sent. */
    method DoWrite(data: seq<byte>, dontblock: bool, a: WriteAnswer) returns (m: nat)
      requires Valid() && currentMsg.None? && data != []
      modifies `state, `currentMsg, `writeOffset, `checkWritespace, `lastErr, `msgs
      ensures Valid() && m == |old(msgs)| < |msgs| && Others(m) && msgs[m].op == OpWrite(data, dontblock)
      ensures !Fatal(old(lastErr)) && old(state) == NONE && pcb ==>
          WriteDone(m, 0, old(lastErr), a) && checkWritespace == (old(checkWritespace) || LacksRoom(m, 0, a))
      ensures Fatal(old(lastErr)) || old(state) != NONE || !pcb ==>
                currentMsg.None? && state == old(state) && lastErr == old(lastErr) && msgs[m].taken == []
                && checkWritespace == old(checkWritespace)
                && msgs[m].err == if Fatal(lastErr) then lastErr else if state != NONE then ERR_INPROGRESS else ERR_CONN
    {
      m := Post(OpWrite(data, dontblock), |data|, 0);
      if Fatal(lastErr) {
        Ack(m, lastErr);
      } else if state != NONE {
        Ack(m, ERR_INPROGRESS);
      } else if pcb {
        state, currentMsg, writeOffset := WRITE, Some(m), 0;
        WriteMore(a);
      } else {
        Ack(m, ERR_CONN);
      }
    }

    /** What the answers of `tcp_write` and `tcp_output` mean for the message and the write offset. */
    method TakeAnswer(m: Msg, len: nat, dontblock: bool, write: err, output: err, ghost a: WriteAnswer)
      returns (m': Msg, e: err, finished: bool)
      requires m.op.OpWrite? && WriteOk(m) && len == Offered(m.len - writeOffset, a.room)
          && write == Answered(a, dontblock) && output == a.output
      modifies `writeOffset
      ensures m' == m.(len := m'.len, taken := m'.taken)
      ensures writeOffset == old(writeOffset) + Accepted(m.len - old(writeOffset), a, dontblock) <= |m.op.data|
          && m'.taken == m.op.data[..writeOffset]
      ensures finished == Ends(m.len - old(writeOffset), a, dontblock) && (finished ==> e == WriteResult(a, dontblock))
      ensures m'.len == if !finished then m.len else if e == ERR_OK then writeOffset else 0
      ensures !finished ==> writeOffset < m.len
      ensures finished && e == ERR_OK && !dontblock ==> m'.taken == m.op.data
    {
      m', e, finished := m, write, false;
      if e == ERR_OK {
        PrefixMore(m.op.data, writeOffset, len);
        m' := m'.(taken := m.taken + m.op.data[writeOffset..writeOffset + len]);
        writeOffset := writeOffset + len;
        if writeOffset == m'.len || dontblock {
          m' := m'.(len := writeOffset);
          finished := true;
        }
        if Fatal(output) || output == ERR_RTE {
          e, finished := output, true;
          m' := m'.(len := 0);
        }
      } else if e == ERR_MEM && !dontblock {
        if Fatal(output) || output == ERR_RTE {
          e, finished := output, true;
          m' := m'.(len := 0);
        }
      } else {
        finished := true;
        m' := m'.(len := 0);
      }
    }

    /** `lwip_netconn_do_writemore`. */
    method WriteMore(a: WriteAnswer)
      requires Valid() && state == WRITE
      modifies `state, `currentMsg, `writeOffset, `checkWritespace, `lastErr, `msgs
      ensures Valid() && |msgs| == |old(msgs)| && Others(old(currentMsg).value)
      ensures msgs[old(currentMsg).value].op == old(msgs)[old(currentMsg).value].op
      ensures WriteDone(old(currentMsg).value, old(writeOffset), old(lastErr), a)
      ensures checkWritespace == (old(checkWritespace) || LacksRoom(old(currentMsg).value, old(writeOffset), a))
      ensures state == NONE && msgs[old(currentMsg).value].err == ERR_OK ==>
                nonblocking || msgs[old(currentMsg).value].op.dontblock
                    || msgs[old(currentMsg).value].taken == msgs[old(currentMsg).value].op.data
    {
      var c := currentMsg.value;
      var m := msgs[c];
      var dontblock := nonblocking || m.op.dontblock;
      var len := Offered(m.len - writeOffset, a.room);
      var skip := dontblock && a.room == 0;
      var e: err, finished: bool := if skip then ERR_WOULDBLOCK else a.write, false;
      if (skip || e == ERR_OK || e == ERR_MEM) && dontblock && len < m.len {
        checkWritespace := true;
      }
      assert e == Answered(a, dontblock);
      hide Offered, Answered, Accepted, Broken, Ends, WriteResult, Fatal;
      m, e, finished := TakeAnswer(m, len, dontblock, e, a.output, a);
      Conclude(c, m, e, finished, old(writeOffset), a);
    }

    /** Stores what a round of writing came to, and ends the call if it was the last. */
    method Conclude(c: nat, m: Msg, e: err, finished: bool, ghost o: nat, ghost a: WriteAnswer)
      requires state == WRITE && currentMsg == Some(c) && c < |msgs| && pcb && !inNonblockingConnect && !synSent
          && MsgsOk(msgs, Some(c))
      requires msgs[c].op.OpWrite? && m == msgs[c].(len := m.len, taken := m.taken) && o <= |m.op.data|
      requires writeOffset <= |m.op.data| && m.taken == m.op.data[..writeOffset]
      requires var left, dontblock := |m.op.data| - o, nonblocking || m.op.dontblock;
        && writeOffset == o + Accepted(left, a, dontblock) <= |m.op.data|
        && finished == Ends(left, a, dontblock) && (finished ==> e == WriteResult(a, dontblock))
      requires m.len == (if !finished then |m.op.data| else if e == ERR_OK then writeOffset else 0)
          && (!finished ==> writeOffset < m.len)
      modifies `state, `currentMsg, `writeOffset, `lastErr, `msgs
      ensures Valid() && |msgs| == |old(msgs)| && Others(c) && msgs[c].op == m.op && msgs[c].taken == m.taken
      ensures WriteDone(c, o, old(lastErr), a) && (state == NONE <==> finished) && (finished ==> msgs[c].err == e)
    {
      RoundMeans(|m.op.data| - o, a, nonblocking || m.op.dontblock);
      hide Accepted, Ends, WriteResult, Fatal;
      msgs := msgs[c := m];
      if finished {
        Complete(c, e);
        writeOffset := 0;
      }
    }

    /** The call is over: its result is stored and its thread released. */
    method Complete(c: nat, e: err)
      requires c < |msgs|
      modifies `msgs, `currentMsg, `state, `lastErr
      ensures old(MsgsOk(msgs, Some(c))) ==>
          (old(msgs)[c].op.OpWrite? && e == ERR_OK ==> old(msgs)[c].len == |old(msgs)[c].taken|) ==>
          MsgsOk(msgs, None)
      ensures msgs == old(msgs)[c := old(msgs)[c].(err := e, acks := old(msgs)[c].acks + 1)]
      ensures currentMsg.None? && state == NONE && lastErr == if Fatal(old(lastErr)) then old(lastErr) else e
    {
      currentMsg, state := None, NONE;
      SetSafeErr(e);
      Ack(c, e);
    }

    // ----- close

    /** `lwip_netconn_do_close`. */
    method DoClose(rx: bool, tx: bool, polls: nat, a: CloseAnswer) returns (m: nat)
      requires Valid() && currentMsg.None? && (state == LISTEN ==> a.result == ERR_OK)
      modifies `state, `currentMsg, `pcb, `lastErr, `msgs
      ensures Valid() && m == |old(msgs)| < |msgs| && Others(m) && msgs[m].op == OpClose(rx, tx)
      ensures !old(pcb) || old(state) == CONNECT || (old(state) == LISTEN && !(rx && tx)) ==>
                currentMsg.None? && msgs[m].err == ERR_CONN && state == old(state) && pcb == old(pcb)
                    && lastErr == old(lastErr)
      ensures old(pcb) && old(state) != CONNECT && (old(state) == LISTEN ==> rx && tx) ==>
          CloseDone(m, polls, old(lastErr), a)
    {
      m := Post(OpClose(rx, tx), 0, polls);
      if pcb && ((rx && tx) || state != LISTEN) {
        if state == CONNECT {
          Ack(m, ERR_CONN);
        } else {
          state, currentMsg := CLOSE, Some(m);
          CloseInternal(a, false);
        }
      } else {
        Ack(m, ERR_CONN);
      }
    }

    /** `lwip_netconn_do_delconn`. A pcb that has only sent its SYN, or that listens, is closed at once. */
    method DoDelete(polls: nat, a: CloseAnswer) returns (m: nat)
      requires Valid() && currentMsg.None? && (state == LISTEN || state == CONNECT ==> a.result == ERR_OK)
      modifies `state, `currentMsg, `pcb, `synSent, `lastErr, `msgs
      ensures Valid() && m == |old(msgs)| < |msgs| && Others(m) && msgs[m].op == OpDelete
      ensures old(pcb) ==> CloseDone(m, polls, old(lastErr), a)
      ensures !old(pcb) ==>
          currentMsg.None? && msgs[m].err == ERR_OK && state == old(state) && !pcb && lastErr == old(lastErr)
    {
      m := Post(OpDelete, 0, polls);
      if pcb {
        ghost var dying := inNonblockingConnect;
        state, currentMsg, synSent := CLOSE, Some(m), false;
        CloseInternal(a, dying);
      } else {
        Ack(m, ERR_OK);
      }
    }

    /** `lwip_netconn_do_close_internal`. */
    method CloseInternal(a: CloseAnswer, ghost dying: bool)
      requires ValidFor(dying) && state == CLOSE
          && (dying ==> a.result == ERR_OK && msgs[currentMsg.value].op.OpDelete?)
      modifies `state, `currentMsg, `pcb, `lastErr, `msgs
      ensures Valid() && |msgs| == |old(msgs)| && Others(old(currentMsg).value)
      ensures msgs[old(currentMsg).value].op == old(msgs)[old(currentMsg).value].op
      ensures CloseDone(old(currentMsg).value, old(msgs)[old(currentMsg).value].pollsLeft, old(lastErr), a)
      ensures state == CLOSE ==> msgs == old(msgs)
    {
      var c := currentMsg.value;
      var op := msgs[c].op;
      var rx, tx := ShutRx(op), ShutTx(op);
      var close := (rx && tx) || (rx && a.closing) || (tx && a.rxClosed);
      var e: err, finished := a.result, false;
      if e == ERR_OK {
        finished := true;
      } else if e == ERR_MEM {
        if msgs[c].pollsLeft == 0 {
          finished := true;
          if close {
            e := ERR_OK;
          }
        }
      } else {
        finished := true;
      }
      if finished {
        if e == ERR_OK && close {
          pcb := false;
        }
        Complete(c, e);
      }
    }

    // ----- callbacks of TCP

    /** Whether the pcb has room again, after which select may see it as writable. */
    method CheckSpace(plenty: bool)
      modifies `checkWritespace
      ensures old(checkWritespace) && pcb && plenty ==> !checkWritespace
      ensures !(old(checkWritespace) && pcb && plenty) ==> checkWritespace == old(checkWritespace)
    {
      if checkWritespace && pcb && plenty {
        checkWritespace := false;
      }
    }

    /** `sent_tcp`. */
    method Sent(w: WriteAnswer, a: CloseAnswer)
      requires Valid() && pcb
      modifies `state, `currentMsg, `writeOffset, `checkWritespace, `pcb, `lastErr, `msgs
      ensures Valid() && |msgs| == |old(msgs)|
      ensures old(currentMsg).Some? ==> Others(old(currentMsg).value)
      ensures old(state) == WRITE ==>
          WriteDone(old(currentMsg).value, old(writeOffset), old(lastErr), w) && checkWritespace
            == ((old(checkWritespace) || LacksRoom(old(currentMsg).value, old(writeOffset), w)) && !(pcb && w.plenty))
      ensures old(state) == CLOSE ==>
          CloseDone(old(currentMsg).value, old(msgs)[old(currentMsg).value].pollsLeft, old(lastErr), a)
      ensures old(state) != WRITE && old(state) != CLOSE ==>
          state == old(state) && currentMsg == old(currentMsg) && pcb && lastErr == old(lastErr)
      ensures old(state) != WRITE && old(state) != CLOSE ==> msgs == old(msgs) && writeOffset == old(writeOffset)
      ensures old(state) != WRITE ==> checkWritespace == (old(checkWritespace) && !(pcb && w.plenty))
    {
      if state == WRITE {
        WriteMore(w);
      } else if state == CLOSE {
        CloseInternal(a, false);
      }
      CheckSpace(w.plenty);
    }

    /** `poll_tcp`: the same on a timer, which also counts a stalled close down. */
    method Poll(w: WriteAnswer, a: CloseAnswer)
      requires Valid() && pcb
      modifies `state, `currentMsg, `writeOffset, `checkWritespace, `pcb, `lastErr, `msgs
      ensures Valid() && |msgs| == |old(msgs)|
      ensures old(currentMsg).Some? ==> Others(old(currentMsg).value)
      ensures old(state) == WRITE ==>
          WriteDone(old(currentMsg).value, old(writeOffset), old(lastErr), w) && checkWritespace
            == ((old(checkWritespace) || LacksRoom(old(currentMsg).value, old(writeOffset), w)) && !(pcb && w.plenty))
      ensures old(state) == CLOSE ==>
                var polls := old(msgs)[old(currentMsg).value].pollsLeft;
                CloseDone(old(currentMsg).value, if polls == 0 then 0 else polls - 1, old(lastErr), a)
      ensures old(state) != WRITE && old(state) != CLOSE ==>
          state == old(state) && currentMsg == old(currentMsg) && pcb && lastErr == old(lastErr)
      ensures old(state) != WRITE && old(state) != CLOSE ==> msgs == old(msgs) && writeOffset == old(writeOffset)
      ensures old(state) != WRITE ==> checkWritespace == (old(checkWritespace) && !(pcb && w.plenty))
    {
      if state == WRITE {
        WriteMore(w);
      } else if state == CLOSE {
        var c := currentMsg.value;
        if 0 < msgs[c].pollsLeft {
          msgs := msgs[c := msgs[c].(pollsLeft := msgs[c].pollsLeft - 1)];
        }
        CloseInternal(a, false);
      }
      CheckSpace(w.plenty);
    }

    /** `err_tcp`: the pcb is gone; TCP only ever reports fatal errors. */
    method Failed(answer: err)
      requires Valid() && pcb && Fatal(answer)
      modifies `pcb, `state, `synSent, `lastErr, `inNonblockingConnect, `currentMsg, `msgs
      ensures Valid() && !pcb && state == NONE && currentMsg.None? && |msgs| == |old(msgs)| && !inNonblockingConnect
      ensures lastErr == if old(state) != CLOSE then answer else if Fatal(old(lastErr)) then old(lastErr) else ERR_OK
      ensures old(currentMsg).Some? ==>
          Others(old(currentMsg).value)
          && msgs[old(currentMsg).value].err == if old(state) == CLOSE then ERR_OK else answer
      ensures old(currentMsg).None? ==> msgs == old(msgs)
    {
      pcb := false;
      var oldState := state;
      state, synSent := NONE, false;
      var e: err := answer;
      if oldState == CLOSE {
        e := ERR_OK;
        SetSafeErr(ERR_OK);
      } else {
        lastErr := answer;
      }
      if oldState == WRITE || oldState == CLOSE || oldState == CONNECT {
        var wasNonblocking := inNonblockingConnect;
        inNonblockingConnect := false;
        if !wasNonblocking {
          var c := currentMsg.value;
          currentMsg := None;
          SetSafeErr(e);
          Ack(c, e);
        }
      }
    }

    /**
     A blocking write that TCP keeps accepting, as long as there is any room at
     all, is acknowledged once, with success and all of its data taken.
     */
    method RoomEndsWrite(answers: nat -> WriteAnswer) returns (rounds: nat)
      requires Valid() && state == WRITE && !nonblocking && !msgs[currentMsg.value].op.dontblock
      requires forall i: nat :: answers(i).write == ERR_OK && answers(i).output == ERR_OK && 0 < answers(i).room
      modifies `state, `currentMsg, `writeOffset, `checkWritespace, `lastErr, `msgs
      ensures Valid() && state == NONE && currentMsg.None? && |msgs| == |old(msgs)|
      ensures var m := msgs[old(currentMsg).value];
        m.op == old(msgs)[old(currentMsg).value].op && m.op.OpWrite? && m.taken == m.op.data
        && m.err == ERR_OK && m.len == |m.op.data| && m.acks == 1
      ensures rounds <= |old(msgs)[old(currentMsg).value].op.data| - old(writeOffset)
    {
      rounds := 0;
      ghost var c, n, op := currentMsg.value, |msgs|, msgs[currentMsg.value].op;
      while state == WRITE
        invariant Valid() && c < n == |msgs| && (state == WRITE || state == NONE) && msgs[c].op == op
            && (state == WRITE ==> currentMsg == Some(c) && pcb)
        invariant state == WRITE ==> rounds + old(writeOffset) <= writeOffset
        invariant state == NONE ==> msgs[c].taken == op.data && msgs[c].err == ERR_OK && msgs[c].len == |op.data|
        invariant rounds <= |op.data| - old(writeOffset)
        decreases if state == WRITE then 1 + |op.data| - writeOffset else 0
      {
        WriteMore(answers(rounds));
        rounds := rounds + 1;
      }
    }

    /** A stalled close finishes: however TCP answers, the polls it has left are enough. */
    method PollsEndClose(w: WriteAnswer, answers: nat -> CloseAnswer) returns (polls: nat)
      requires Valid() && state == CLOSE
      modifies `state, `currentMsg, `writeOffset, `checkWritespace, `pcb, `lastErr, `msgs
      ensures Valid() && state == NONE && currentMsg.None? && |msgs| == |old(msgs)|
      ensures polls <= old(msgs)[old(currentMsg).value].pollsLeft && msgs[old(currentMsg).value].acks == 1
    {
      polls := 0;
      ghost var c, n := currentMsg.value, |msgs|;
      while state == CLOSE
        invariant Valid() && c < n == |msgs| && (state == CLOSE || state == NONE)
            && (state == CLOSE ==> currentMsg == Some(c) && pcb)
        invariant state == CLOSE ==> polls + msgs[c].pollsLeft == old(msgs)[old(currentMsg).value].pollsLeft
        invariant polls <= old(msgs)[old(currentMsg).value].pollsLeft
        decreases if state == CLOSE then 1 + msgs[currentMsg.value].pollsLeft else 0
      {
        Poll(w, answers(polls));
        polls := polls + 1;
      }
    }
  }
}
