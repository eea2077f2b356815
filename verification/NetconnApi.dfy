/**
  The functions of api_msg.c that carry out and finish the calls on a TCP netconn, as
  methods that update its fields in place; each is proved to take the step that
  Netconn.dfy specifies.
*/
module NetconnApi {
  import opened Common
  import opened Netconn

  class TcpNetconn {
    var state: NetconnState
    var currentMsg: Option<nat>      // which message current_msg points to
    var writeOffset: nat
    var inNonblockingConnect: bool   // NETCONN_FLAG_IN_NONBLOCKING_CONNECT
    var nonblocking: bool            // NETCONN_FLAG_NON_BLOCKING
    var checkWritespace: bool        // NETCONN_FLAG_CHECK_WRITESPACE
    var pcb: Pcb
    var lastErr: Err
    var msg: Msg                     // the message of the latest call
    var opCompleted: nat             // the semaphore
    var busy: bool
    var calls: nat
    ghost var signals: seq<Msg>

    ghost function Abs(): Conn
      reads this
    {
      Conn(state, currentMsg, writeOffset, inNonblockingConnect, nonblocking, checkWritespace, pcb, lastErr, msg,
           busy, opCompleted, calls, signals)
    }

    constructor (blocking: bool)
      ensures Fresh(Abs()) && nonblocking == !blocking && lastErr == ERR_OK
    {
      state, currentMsg, writeOffset, inNonblockingConnect, nonblocking := NONE, None, 0, false, !blocking;
      checkWritespace, pcb, lastErr := false, Idle, ERR_OK;
      msg := Msg(0, Quick, None, 0, 0, false, false, false, false, false, []);
      opCompleted, busy, calls, signals := 0, false, 0, [];
    }

    /** sys_sem_signal(&conn->op_completed), also as TCPIP_APIMSG_ACK */
    method SemSignal()
      modifies `opCompleted, `signals
      ensures Abs() == Signal(old(Abs()))
    {
      opCompleted := opCompleted + 1;
      signals := signals + [msg];
    }

    /** Answer a message and wake up the application. */
    method Answer(e: Err)
      modifies `msg, `opCompleted, `signals
      ensures Abs() == Ack(old(Abs()), e)
    {
      msg := msg.(err := Some(e));
      SemSignal();
    }

    /** The end of do_writemore: let go of the message and wake up the application. */
    method WriteFinished(err: Err)
      modifies this
      ensures Abs() == Finish(old(Abs()), err)
    {
      msg := msg.(err := Some(err));
      currentMsg := None;
      state := NONE;
      SemSignal();
    }

    /** do_writemore once tcp_write has answered for a portion of `len` bytes. */
    method Written(len: nat, err: Err)
      modifies this
      ensures Abs() == Wrote(old(Abs()), len, err)
    {
      if err == ERR_OK {
        Accepted(len);
      } else if err == ERR_MEM && !(nonblocking || msg.flag) {
        return;
      } else {
        msg := msg.(len := 0);
        WriteFinished(err);
      }
    }

    method Accepted(len: nat)
      modifies this
      ensures Abs() == Wrote(old(Abs()), len, ERR_OK)
    {
      var end := writeOffset + len;
      if end == msg.len || nonblocking || msg.flag {
        msg := More(msg, writeOffset, len).(len := end);
        writeOffset := 0;
        WriteFinished(ERR_OK);
      } else {
        msg := More(msg, writeOffset, len);
        writeOffset := end;
      }
    }

    /** do_writemore */
    method DoWritemore(io: Io)
      modifies this
      ensures Abs() == WriteMore(old(Abs()), io)
    {
      if msg.timed && io.late {
        msg := msg.(len := writeOffset);
        WriteFinished(if writeOffset == 0 then ERR_WOULDBLOCK else ERR_OK);
      } else {
        var len, err := Attempt(io);
        Written(len, err);
      }
    }

    /** The portion to write, what comes of it, and the mark for a non-blocking writer. */
    method Attempt(io: Io) returns (len: nat, err: Err)
      modifies `checkWritespace
      ensures len == Portion(Abs(), io.available)
      ensures err == if (nonblocking || msg.flag) && len == 0 && io.available < Wish(Abs())
                     then ERR_WOULDBLOCK else io.result
      ensures checkWritespace == (old(checkWritespace)
        || (err == ERR_WOULDBLOCK && len == 0 && (nonblocking || msg.flag) && io.available < Wish(Abs()))
        || ((err == ERR_OK || err == ERR_MEM) && (nonblocking || msg.flag) && len < msg.len))
    {
      var dontblock := nonblocking || msg.flag;
      var diff := if writeOffset <= msg.len then msg.len - writeOffset else 0;
      len := if diff > 0xffff then 0xffff else diff;
      var full := false;
      if io.available < len {
        len := io.available;
        full := dontblock && len == 0;
      }
      err := if full then ERR_WOULDBLOCK else io.result;
      if full || err == ERR_OK || err == ERR_MEM {
        if dontblock && len < msg.len {
          checkWritespace := true;
        }
      }
    }

    /** do_close_internal; r is what tcp_close or tcp_shutdown returns */
    method DoCloseInternal(r: Err)
      modifies this
      ensures Abs() == CloseInternal(old(Abs()), r)
    {
      var close := msg.rx && msg.tx;
      var err := if pcb == Listening then ERR_OK else r;
      if err == ERR_OK {
        msg := msg.(err := Some(ERR_OK));
        currentMsg := None;
        state := NONE;
        if close {
          pcb := NoPcb;
        }
        SemSignal();
      }
    }

    /** The API function fills in a message and posts it. */
    method Post(kind: Kind)
      modifies this
      ensures Abs() == Begin(old(Abs()), kind)
    {
      msg := Msg(calls, kind, None, 0, 0, false, false, false, false, false, []);
      calls := calls + 1;
      busy := true;
    }

    method DoConnect(r: Err)
      modifies this
      ensures Abs() == Netconn.DoConnect(old(Abs()), r)
    {
      if pcb == NoPcb {
        Answer(ERR_CLSD);
      } else if state != NONE {
        Answer(ERR_ISCONN);
      } else if r == ERR_OK {
        StartConnect();
      } else {
        Answer(r);
      }
    }

    /** do_connect after tcp_connect has begun to connect. */
    method StartConnect()
      modifies this
      ensures var c := old(Abs()).(st := CONNECT, nbc := old(nonblocking), pcb := Connecting);
        Abs() == if old(nonblocking) then Ack(c, ERR_INPROGRESS)
                 else c.(msg := c.msg.(err := Some(ERR_OK)), current := Some(c.msg.id))
    {
      pcb := Connecting;
      state := CONNECT;
      inNonblockingConnect := nonblocking;
      if nonblocking {
        Answer(ERR_INPROGRESS);
      } else {
        msg := msg.(err := Some(ERR_OK));
        currentMsg := Some(msg.id);
      }
    }

    method DoListen(found: bool, mbox: Err)
      modifies this
      ensures Abs() == Netconn.DoListen(old(Abs()), found, mbox)
    {
      if IsFatal(lastErr) {
        Answer(lastErr);
      } else if pcb == NoPcb || state != NONE {
        Answer(ERR_CONN);
      } else if !found {
        Answer(ERR_MEM);
      } else {
        if mbox == ERR_OK {
          state := LISTEN;
          pcb := Listening;
        } else {
          pcb := NoPcb;
        }
        Answer(mbox);
      }
    }

    method DoWrite(io: Io)
      modifies this
      ensures Abs() == Netconn.DoWrite(old(Abs()), io)
    {
      if IsFatal(lastErr) {
        Answer(lastErr);
      } else if state != NONE {
        Answer(ERR_INPROGRESS);
      } else if pcb != NoPcb {
        state := WRITE;
        currentMsg := Some(msg.id);
        writeOffset := 0;
        DoWritemore(io);
      } else {
        Answer(ERR_CONN);
      }
    }

    method DoClose(r: Err)
      modifies this
      ensures Abs() == Netconn.DoClose(old(Abs()), r)
    {
      if state != NONE && state != LISTEN {
        Answer(ERR_INPROGRESS);
      } else if pcb != NoPcb {
        if !(msg.rx && msg.tx) && state == LISTEN {
          Answer(ERR_CONN);
        } else {
          state := CLOSE;
          currentMsg := Some(msg.id);
          DoCloseInternal(r);
        }
      } else {
        Answer(ERR_VAL);
      }
    }

    method DoDelconn(r: Err)
      modifies this
      ensures Abs() == Netconn.DoDelconn(old(Abs()), r)
    {
      if state != NONE && state != LISTEN && state != CONNECT {
        Answer(ERR_INPROGRESS);
      } else if pcb != NoPcb {
        state := CLOSE;
        msg := msg.(rx := true, tx := true);
        currentMsg := Some(msg.id);
        DoCloseInternal(r);
      } else {
        SemSignal();
      }
    }

    /** poll_tcp; `enough` tells whether the send buffer is above its low-water mark */
    method PollTcp(io: Io, r: Err, enough: bool)
      modifies this
      ensures Abs() == var d := GoOn(old(Abs()), io, r); if d.check then Room(d, enough) else d
    {
      if state == WRITE {
        DoWritemore(io);
      } else if state == CLOSE {
        DoCloseInternal(r);
      }
      if checkWritespace {
        if pcb != NoPcb && enough {
          checkWritespace := false;
        }
      }
    }

    /** sent_tcp */
    method SentTcp(io: Io, r: Err, enough: bool)
      modifies this
      ensures Abs() == Room(GoOn(old(Abs()), io, r), enough)
    {
      if state == WRITE {
        DoWritemore(io);
      } else if state == CLOSE {
        DoCloseInternal(r);
      }
      if pcb != NoPcb && enough {
        checkWritespace := false;
      }
    }

    /** err_tcp */
    method ErrTcp(e: Err)
      modifies this
      ensures Abs() == Netconn.ErrTcp(old(Abs()), e)
    {
      pcb := NoPcb;
      lastErr := e;
      var oldState := state;
      state := NONE;
      if oldState == WRITE || oldState == CLOSE || oldState == CONNECT {
        var wasNonblockingConnect := inNonblockingConnect;
        inNonblockingConnect := false;
        if !wasNonblockingConnect {
          msg := msg.(err := Some(e));
          currentMsg := None;
          SemSignal();
        }
      }
    }

    /** do_connected */
    method DoConnected(e: Err)
      modifies this
      ensures Abs() == Netconn.DoConnected(old(Abs()), e)
    {
      pcb := Open;
      if currentMsg.Some? {
        msg := msg.(err := Some(e));
      }
      var wasBlocking := !inNonblockingConnect;
      inNonblockingConnect := false;
      currentMsg := None;
      state := NONE;
      if !wasBlocking {
        lastErr := SafeErr(lastErr, ERR_OK);
      }
      if wasBlocking {
        SemSignal();
      }
    }

    /** The end of a call in the application thread: wait for the semaphore, keep the error. */
    method Finished()
      requires opCompleted > 0
      modifies this
      ensures Abs() == Wake(old(Abs()))
    {
      opCompleted := opCompleted - 1;
      busy := false;
      if msg.err.Some? && msg.kind != Silent && msg.kind != Delete {
        lastErr := SafeErr(lastErr, msg.err.value);
      }
    }

    /** netconn_write_partly up to the wait; bytes_written is given */
    method WritePartly(size: nat, flag: bool, timed: bool, io: Io)
      requires Enabled(Abs(), CallWrite(size, flag, timed, io))
      modifies this
      ensures Abs() == Step(old(Abs()), CallWrite(size, flag, timed, io))
    {
      var dontblock := nonblocking || flag;
      Post(Write);
      msg := msg.(size := size, len := size, flag := flag, dontblock := dontblock, timed := timed);
      DoWrite(io);
    }

    /** netconn_close_shutdown up to the wait */
    method CloseShutdown(rx: bool, tx: bool, r: Err)
      requires Enabled(Abs(), CallClose(rx, tx, r))
      modifies this
      ensures Abs() == Step(old(Abs()), CallClose(rx, tx, r))
    {
      Post(Close);
      msg := msg.(rx := rx, tx := tx);
      DoClose(r);
    }

    /** A message of the application, from the posting to the wait. */
    method Call(ev: Event)
      requires ev.CallConnect? || ev.CallListen? || ev.CallWrite? || ev.CallClose? || ev.CallDelete? || ev.CallQuick?
      requires Enabled(Abs(), ev)
      modifies this
      ensures Abs() == Step(old(Abs()), ev)
    {
      match ev {
        case CallConnect(r) => Post(Connect); DoConnect(r);
        case CallListen(found, mbox) => Post(Listen); DoListen(found, mbox);
        case CallWrite(size, flag, timed, io) => WritePartly(size, flag, timed, io);
        case CallClose(rx, tx, r) => CloseShutdown(rx, tx, r);
        case CallDelete(r) => Post(Delete); DoDelconn(r);
        case CallQuick(e, silent) => Post(if silent then Silent else Quick); Answer(e);
      }
    }

    /** A callback of the TCP layer, or a step of the application thread outside of a call. */
    method Callback(ev: Event)
      requires ev.Poll? || ev.Sent? || ev.Error? || ev.Connected? || ev.Return? || ev.SetNonblocking? || ev.LastError?
      requires Enabled(Abs(), ev)
      modifies this
      ensures Abs() == Step(old(Abs()), ev)
    {
      match ev {
        case Poll(io, r, enough) => PollTcp(io, r, enough);
        case Sent(io, r, enough) => SentTcp(io, r, enough);
        case Error(e) => ErrTcp(e);
        case Connected(e) => DoConnected(e);
        case Return => Finished();
        case SetNonblocking(b) => nonblocking := b;
        case LastError(e) => lastErr := SafeErr(lastErr, e);
      }
    }

    /** Whatever happens to the netconn, the methods take the step of the run, so what holds in every
        run holds of the fields. */
    method Perform(ev: Event)
      requires Enabled(Abs(), ev)
      modifies this
      ensures Abs() == Step(old(Abs()), ev)
      ensures Inv(old(Abs())) && ClosesConnecting(old(Abs()), ev) ==> Inv(Abs())
    {
      ghost var c := Abs();
      if ev.Poll? || ev.Sent? || ev.Error? || ev.Connected? || ev.Return? || ev.SetNonblocking? || ev.LastError? {
        Callback(ev);
      } else {
        Call(ev);
      }
      if Inv(c) && ClosesConnecting(c, ev) { StepKeeps(c, ev); }
    }
  }
}
