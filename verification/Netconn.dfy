/**
  TCP netconns (api_msg.c): how the calls of an application thread, carried out by the
  TCP/IP thread, come to their end.  A call that cannot be finished at once leaves its
  message in current_msg and is finished later by a callback of the TCP layer.

  The TCP layer is not modelled: its results are parameters of the steps, and its
  callbacks may come at any time while the netconn has a pcb.  One call is outstanding
  at a time, and a netconn does not change between blocking and non-blocking during a
  call.  Core locking is off; events for select are left out.
*/
module Netconn {
  import opened Common

  datatype Err = ERR_OK | ERR_MEM | ERR_WOULDBLOCK | ERR_INPROGRESS | ERR_VAL | ERR_ISCONN | ERR_CLSD | ERR_CONN
               | Other(fatal: bool)

  predicate IsFatal(e: Err) {
    e == ERR_CLSD || e == ERR_CONN || e == Other(true)
  }

  datatype NetconnState = NONE | WRITE | LISTEN | CONNECT | CLOSE

  datatype Pcb = NoPcb | Idle | Connecting | Open | Listening

  /** Quick calls only answer; Silent ones do not even keep the answer as the last error. */
  datatype Kind = Connect | Listen | Write | Close | Delete | Quick | Silent

  /** A piece of the caller's buffer that tcp_write accepted. */
  datatype Chunk = Chunk(start: nat, len: nat)

  /**
    The message of a call.  For a write: `size` is what the caller asked for, `len` the
    length field that is overwritten with the length to report, `flag` NETCONN_DONTBLOCK,
    `dontblock` the value netconn_write_partly computes, `timed` whether a send timeout is
    set.  `chunks` records what was accepted.
  */
  datatype Msg = Msg(id: nat, kind: Kind, err: Option<Err>, size: nat, len: nat, flag: bool, dontblock: bool, timed: bool,
                     rx: bool, tx: bool, chunks: seq<Chunk>)

  /**
    A netconn, the message of the latest call, and what is left of op_completed.
    `signals` records, at each signal, the message of the call that it wakes up.
  */
  datatype Conn = Conn(st: NetconnState, current: Option<nat>, offset: nat, nbc: bool, nonblocking: bool, check: bool,
                       pcb: Pcb, lastErr: Err, msg: Msg, busy: bool, sem: nat, calls: nat, signals: seq<Msg>)

  /** What the TCP layer answers while a write goes on: room in the send buffer, the result of
      tcp_write, and whether the send timeout, if any, has passed. */
  datatype Io = Io(available: nat, result: Err, late: bool)

  // ----------------------------------------------------------------- the steps

  /** sys_sem_signal of op_completed */
  function Signal(c: Conn): Conn {
    c.(sem := c.sem + 1, signals := c.signals + [c.msg])
  }

  /** The message gets its error and is let go; the waiting thread is woken up. */
  function Finish(c: Conn, e: Err): Conn {
    Signal(c.(msg := c.msg.(err := Some(e)), current := None, st := NONE))
  }

  /** A function that is done at once. */
  function Ack(c: Conn, e: Err): Conn {
    Signal(c.(msg := c.msg.(err := Some(e))))
  }

  function Min(a: nat, b: nat): nat {
    if a <= b then a else b
  }

  /** What do_writemore would like to write. */
  function Wish(c: Conn): nat {
    if c.offset <= c.msg.len then Min(c.msg.len - c.offset, 0xffff) else 0
  }

  /** How much do_writemore tries to write. */
  function Portion(c: Conn, available: nat): nat {
    Min(available, Wish(c))
  }

  /** The message with one more chunk. */
  function More(m: Msg, start: nat, len: nat): Msg {
    m.(chunks := m.chunks + [Chunk(start, len)])
  }

  /** do_writemore once the outcome for a portion of `len` bytes is known. */
  function Wrote(c: Conn, len: nat, err: Err): Conn {
    var dontblock := c.nonblocking || c.msg.flag;
    if err == ERR_OK then
      var end := c.offset + len;
      if end == c.msg.len || dontblock
      then Finish(c.(msg := More(c.msg, c.offset, len).(len := end), offset := 0), ERR_OK)
      else c.(msg := More(c.msg, c.offset, len), offset := end)
    else if err == ERR_MEM && !dontblock then c
    else Finish(c.(msg := c.msg.(len := 0)), err)
  }

  /** do_writemore */
  function WriteMore(c: Conn, io: Io): Conn {
    var dontblock := c.nonblocking || c.msg.flag;
    var len := Portion(c, io.available);
    if c.msg.timed && io.late then
      Finish(c.(msg := c.msg.(len := c.offset)), if c.offset == 0 then ERR_WOULDBLOCK else ERR_OK)
    else
      var full := dontblock && len == 0 && io.available < Wish(c);
      var err := if full then ERR_WOULDBLOCK else io.result;
      var marked := full || ((err == ERR_OK || err == ERR_MEM) && dontblock && len < c.msg.len);
      Wrote(c.(check := c.check || marked), len, err)
  }

  /** do_close_internal; r is the result of tcp_close or tcp_shutdown, which for a listening
      pcb is always ERR_OK. */
  function CloseInternal(c: Conn, r: Err): Conn {
    if r == ERR_OK || c.pcb == Listening then
      Finish(c.(pcb := if c.msg.rx && c.msg.tx then NoPcb else c.pcb), ERR_OK)
    else c
  }

  /** The API function sends a message. */
  function Begin(c: Conn, kind: Kind): Conn {
    c.(msg := Msg(c.calls, kind, None, 0, 0, false, false, false, false, false, []), calls := c.calls + 1, busy := true)
  }

  /** do_connect; r is the result of tcp_connect */
  function DoConnect(c: Conn, r: Err): Conn {
    if c.pcb == NoPcb then Ack(c, ERR_CLSD)
    else if c.st != NONE then Ack(c, ERR_ISCONN)
    else if r != ERR_OK then Ack(c, r)
    else
      var c1 := c.(st := CONNECT, nbc := c.nonblocking, pcb := Connecting);
      if c.nonblocking then Ack(c1, ERR_INPROGRESS) else c1.(msg := c.msg.(err := Some(r)), current := Some(c.msg.id))
  }

  /** do_listen; `found` tells whether there was a listening pcb, mbox is the result for the accept mailbox */
  function DoListen(c: Conn, found: bool, mbox: Err): Conn {
    if IsFatal(c.lastErr) then Ack(c, c.lastErr)
    else if c.pcb == NoPcb || c.st != NONE then Ack(c, ERR_CONN)
    else if !found then Ack(c, ERR_MEM)
    else if mbox == ERR_OK then Ack(c.(st := LISTEN, pcb := Listening), ERR_OK)
    else Ack(c.(pcb := NoPcb), mbox)
  }

  /** do_write */
  function DoWrite(c: Conn, io: Io): Conn {
    if IsFatal(c.lastErr) then Ack(c, c.lastErr)
    else if c.st != NONE then Ack(c, ERR_INPROGRESS)
    else if c.pcb == NoPcb then Ack(c, ERR_CONN)
    else WriteMore(c.(st := WRITE, current := Some(c.msg.id), offset := 0), io)
  }

  /** do_close */
  function DoClose(c: Conn, r: Err): Conn {
    if c.st != NONE && c.st != LISTEN then Ack(c, ERR_INPROGRESS)
    else if c.pcb == NoPcb then Ack(c, ERR_VAL)
    else if !(c.msg.rx && c.msg.tx) && c.st == LISTEN then Ack(c, ERR_CONN)
    else CloseInternal(c.(st := CLOSE, current := Some(c.msg.id)), r)
  }

  /** do_delconn; without a pcb it does not set the error of its message */
  function DoDelconn(c: Conn, r: Err): Conn {
    if c.st != NONE && c.st != LISTEN && c.st != CONNECT then Ack(c, ERR_INPROGRESS)
    else if c.pcb == NoPcb then Signal(c)
    else CloseInternal(c.(st := CLOSE, msg := c.msg.(rx := true, tx := true), current := Some(c.msg.id)), r)
  }

  /** poll_tcp and sent_tcp, but for NETCONN_FLAG_CHECK_WRITESPACE */
  function GoOn(c: Conn, io: Io, r: Err): Conn {
    if c.st == WRITE then WriteMore(c, io) else if c.st == CLOSE then CloseInternal(c, r) else c
  }

  /** The write space is looked at when a flag says so (poll_tcp) or always (sent_tcp). */
  function Room(c: Conn, enough: bool): Conn {
    if c.pcb != NoPcb && enough then c.(check := false) else c
  }

  /** err_tcp */
  function ErrTcp(c: Conn, e: Err): Conn {
    var c1 := c.(pcb := NoPcb, lastErr := e, st := NONE);
    if c.st == WRITE || c.st == CLOSE || c.st == CONNECT then
      if c.nbc then c1.(nbc := false)
      else Signal(c1.(msg := c.msg.(err := Some(e)), current := None))
    else c1
  }

  function SafeErr(last: Err, e: Err): Err {
    if IsFatal(last) then last else e
  }

  /** do_connected */
  function DoConnected(c: Conn, e: Err): Conn {
    var msg := if c.current.Some? then c.msg.(err := Some(e)) else c.msg;
    var c1 := c.(msg := msg, nbc := false, current := None, st := NONE, pcb := Open);
    if c.nbc then c1.(lastErr := SafeErr(c.lastErr, ERR_OK)) else Signal(c1)
  }

  /** The application thread gets the semaphore and its call returns. */
  function Wake(c: Conn): Conn
    requires c.sem > 0
  {
    var e := if c.msg.err.Some? && c.msg.kind != Silent && c.msg.kind != Delete
             then SafeErr(c.lastErr, c.msg.err.value) else c.lastErr;
    c.(sem := c.sem - 1, busy := false, lastErr := e)
  }

  datatype Event =
    | CallConnect(r: Err)
    | CallListen(found: bool, mbox: Err)
    | CallWrite(size: nat, flag: bool, timed: bool, io: Io)
    | CallClose(rx: bool, tx: bool, r: Err)
    | CallDelete(r: Err)
    | CallQuick(e: Err, silent: bool)            // do_bind and do_getaddr; silent: do_recv
    | Poll(io: Io, r: Err, enough: bool)
    | Sent(io: Io, r: Err, enough: bool)
    | Error(e: Err)
    | Connected(e: Err)
    | Return
    | SetNonblocking(b: bool)
    | LastError(e: Err)                          // netconn_recv and netconn_accept keep an error

  /** A call is outstanding that has not been finished. */
  predicate Pending(c: Conn) {
    c.busy && c.sem == 0
  }

  predicate MayCall(c: Conn) {
    !c.busy && !(c.calls > 0 && c.msg.kind == Delete)
  }

  /** When the events can happen.  tcp_connect and tcp_listen succeed on a closed pcb only. */
  predicate Enabled(c: Conn, ev: Event) {
    match ev
    case CallConnect(r) => MayCall(c) && (r == ERR_OK && c.st == NONE ==> c.pcb == Idle || c.pcb == NoPcb)
    case CallListen(found, _) => MayCall(c) && (found && c.st == NONE ==> c.pcb == Idle || c.pcb == NoPcb)
    case CallWrite(size, _, _, _) => MayCall(c) && size > 0
    case CallClose(_, _, _) => MayCall(c)
    case CallDelete(_) => MayCall(c)
    case CallQuick(_, _) => MayCall(c)
    case Poll(_, _, _) => c.pcb != NoPcb
    case Sent(_, _, _) => c.pcb != NoPcb
    case Error(e) => IsFatal(e) && (c.pcb == Connecting || c.pcb == Open)
    case Connected(_) => c.pcb == Connecting
    case Return => c.busy && c.sem > 0
    case SetNonblocking(_) => MayCall(c)
    case LastError(_) => MayCall(c)
  }

  /** tcp_close of a pcb that is still connecting succeeds. */
  predicate ClosesConnecting(c: Conn, ev: Event) {
    ev.CallDelete? && c.pcb == Connecting ==> ev.r == ERR_OK
  }

  function Step(c: Conn, ev: Event): Conn
    requires Enabled(c, ev)
  {
    match ev
    case CallConnect(r) => DoConnect(Begin(c, Connect), r)
    case CallListen(found, mbox) => DoListen(Begin(c, Listen), found, mbox)
    case CallWrite(size, flag, timed, io) =>
      var b := Begin(c, Write);
      DoWrite(b.(msg := b.msg.(size := size, len := size, flag := flag, dontblock := c.nonblocking || flag, timed := timed)), io)
    case CallClose(rx, tx, r) =>
      var b := Begin(c, Close);
      DoClose(b.(msg := b.msg.(rx := rx, tx := tx)), r)
    case CallDelete(r) => DoDelconn(Begin(c, Delete), r)
    case CallQuick(e, silent) => Ack(Begin(c, if silent then Silent else Quick), e)
    case Poll(io, r, enough) => var d := GoOn(c, io, r); if d.check then Room(d, enough) else d
    case Sent(io, r, enough) => Room(GoOn(c, io, r), enough)
    case Error(e) => ErrTcp(c, e)
    case Connected(e) => DoConnected(c, e)
    case Return => Wake(c)
    case SetNonblocking(b) => c.(nonblocking := b)
    case LastError(e) => c.(lastErr := SafeErr(c.lastErr, e))
  }

  // ------------------------------------------------------------- what is kept

  /** The chunks follow each other without gap or overlap and end at n. */
  predicate Tiles(chunks: seq<Chunk>, n: nat)
    decreases |chunks|
  {
    if chunks == [] then n == 0
    else
      var last := chunks[|chunks| - 1];
      last.start + last.len == n && Tiles(chunks[..|chunks| - 1], last.start)
  }

  /** How a write may end. */
  ghost predicate Outcome(m: Msg) {
    exists n: nat :: WroteUpTo(m, n)
  }

  predicate WroteUpTo(m: Msg, n: nat) {
    && Tiles(m.chunks, n) && n <= m.size
    && (m.err == Some(ERR_OK) ==> m.len == n && (!m.dontblock && !m.timed ==> n == m.size))
    && (m.err != Some(ERR_OK) && m.dontblock ==> n == 0)
  }

  /** A message whose call has been finished. */
  ghost predicate DoneOk(m: Msg, i: nat) {
    && m.id == i && (m.err == None ==> m.kind == Delete)
    && (m.kind == Write ==> Outcome(m))
  }

  predicate CurrentOk(c: Conn) {
    && (c.current.Some? <==> c.st == WRITE || c.st == CLOSE || (c.st == CONNECT && !c.nbc))
    && (c.current.Some? ==> c.current.value == c.msg.id && Pending(c))
    && (Pending(c) ==> c.current.Some?)
  }

  predicate PcbOk(c: Conn) {
    && (c.st == CONNECT <==> c.pcb == Connecting)
    && (c.st == WRITE || c.st == CLOSE ==> c.pcb != NoPcb)
    && (c.nbc ==> c.st == CONNECT || (c.calls > 0 && c.msg.kind == Delete && c.pcb == NoPcb))
    && (c.pcb == Listening ==> c.st == LISTEN)
  }

  /** A write that goes on is a blocking one, and what has been accepted ends at the offset. */
  predicate WritingOk(c: Conn) {
    c.st == WRITE ==>
      && c.msg.kind == Write && c.offset < c.msg.len == c.msg.size && !c.msg.dontblock
      && Tiles(c.msg.chunks, c.offset) && c.msg.err == None
  }

  ghost predicate SignalsOk(c: Conn) {
    && |c.signals| + (if Pending(c) then 1 else 0) == c.calls
    && (forall i {:trigger DoneOk(c.signals[i], i)} :: 0 <= i < |c.signals| ==> DoneOk(c.signals[i], i))
  }

  ghost predicate Inv(c: Conn) {
    && CurrentOk(c) && PcbOk(c) && WritingOk(c) && SignalsOk(c)
    && (c.busy ==> c.calls > 0 && c.msg.id == c.calls - 1 && (c.msg.kind == Write ==> c.msg.dontblock == (c.nonblocking || c.msg.flag)))
    && c.sem <= 1 && (c.sem == 1 ==> c.busy)
    && (c.st == CLOSE ==> c.msg.kind == Close || (c.msg.kind == Delete && c.msg.rx && c.msg.tx))
    && (c.st == CONNECT && !c.nbc ==> c.msg.kind == Connect)
  }

  // ------------------------------------------------------------ keeping it

  /** The message of an outstanding call is about to be finished. */
  ghost predicate Waiting(c: Conn) {
    && c.busy && c.sem == 0 && c.calls > 0 && c.msg.id == c.calls - 1
    && |c.signals| == c.calls - 1 && forall i {:trigger DoneOk(c.signals[i], i)} :: 0 <= i < |c.signals| ==> DoneOk(c.signals[i], i)
  }

  lemma SignalKeeps(c: Conn)
    requires Waiting(c) && DoneOk(c.msg, c.calls - 1)
    ensures SignalsOk(Signal(c)) && !Pending(Signal(c))
  {
  }

  /** A netconn that waits for nothing but the thread that has been woken up. */
  predicate Settled(c: Conn) {
    && c.current == None && PcbOk(c) && c.sem <= 1 && (c.sem == 1 ==> c.busy) && !Pending(c)
    && (c.st == NONE || c.st == LISTEN || (c.st == CONNECT && c.nbc))
  }

  lemma DoneAtOnce(c: Conn, e: Err)
    requires Waiting(c) && Settled(Ack(c, e)) && e != ERR_OK
    requires c.msg.chunks == []
    requires c.msg.kind == Write ==> c.msg.dontblock == (c.nonblocking || c.msg.flag)
    ensures Inv(Ack(c, e))
  {
    var m := c.msg.(err := Some(e));
    assert WroteUpTo(m, 0);
    SignalKeeps(c.(msg := m));
  }

  lemma TilesMore(chunks: seq<Chunk>, n: nat, len: nat)
    requires Tiles(chunks, n)
    ensures Tiles(chunks + [Chunk(n, len)], n + len)
  {
    assert (chunks + [Chunk(n, len)])[..|chunks|] == chunks;
  }

  /** A write comes to an end with the message m. */
  lemma FinishKeeps(c: Conn, m: Msg, offset: nat, e: Err, n: nat)
    requires Waiting(c) && PcbOk(c) && !c.nbc && c.st == WRITE && c.current == Some(c.msg.id)
    requires m.kind == Write && m.id == c.msg.id && m.dontblock == (c.nonblocking || m.flag)
    requires WroteUpTo(m.(err := Some(e)), n)
    ensures Inv(Finish(c.(msg := m, offset := offset), e))
  {
    SignalKeeps(c.(msg := m.(err := Some(e)), offset := offset, current := None, st := NONE));
  }

  /** A write goes on. */
  lemma StillWriting(c: Conn)
    requires Waiting(c) && PcbOk(c) && c.st == WRITE && WritingOk(c) && c.current == Some(c.msg.id)
    requires c.msg.dontblock == (c.nonblocking || c.msg.flag)
    ensures Inv(c)
  {
  }

  /** A write in progress, seen from inside do_writemore. */
  ghost predicate Writing(c: Conn) {
    && Waiting(c) && c.st == WRITE && c.current == Some(c.msg.id) && c.msg.kind == Write && PcbOk(c) && !c.nbc
    && c.offset < c.msg.len == c.msg.size && Tiles(c.msg.chunks, c.offset) && c.msg.err == None
    && c.msg.dontblock == (c.nonblocking || c.msg.flag) && (c.msg.dontblock ==> c.offset == 0 && c.msg.chunks == [])
  }

  lemma WroteEnds(c: Conn, len: nat)
    requires c.offset + len == c.msg.len || c.nonblocking || c.msg.flag
    ensures Wrote(c, len, ERR_OK)
      == Finish(c.(msg := More(c.msg, c.offset, len).(len := c.offset + len), offset := 0), ERR_OK)
  {
  }

  lemma AcceptedEnds(c: Conn, len: nat)
    requires Writing(c) && c.offset + len <= c.msg.len && (c.offset + len == c.msg.len || c.msg.dontblock)
    ensures Inv(Finish(c.(msg := More(c.msg, c.offset, len).(len := c.offset + len), offset := 0), ERR_OK))
  {
    EndOutcome(c.msg, c.offset, len);
    FinishKeeps(c, More(c.msg, c.offset, len).(len := c.offset + len), 0, ERR_OK, c.offset + len);
  }

  lemma EndOutcome(m: Msg, offset: nat, len: nat)
    requires Tiles(m.chunks, offset) && offset + len <= m.size && (offset + len == m.size || m.dontblock)
    ensures WroteUpTo(More(m, offset, len).(len := offset + len, err := Some(ERR_OK)), offset + len)
  {
    TilesMore(m.chunks, offset, len);
  }

  lemma AcceptedGoesOn(c: Conn, len: nat)
    requires Writing(c) && c.offset + len < c.msg.len && !c.msg.dontblock
    ensures Inv(Wrote(c, len, ERR_OK))
  {
    TilesMore(c.msg.chunks, c.offset, len);
    StillWriting(c.(msg := More(c.msg, c.offset, len), offset := c.offset + len));
  }

  lemma RefusedKeeps(c: Conn, len: nat, err: Err)
    requires Writing(c) && err != ERR_OK
    ensures Inv(Wrote(c, len, err))
    ensures c.msg.dontblock ==> Wrote(c, len, err).st == NONE
  {
    if err == ERR_MEM && !c.msg.dontblock {
      StillWriting(c);
    } else {
      FinishKeeps(c, c.msg.(len := 0), c.offset, err, c.offset);
    }
  }

  lemma WroteKeeps(c: Conn, len: nat, err: Err)
    requires Writing(c) && c.offset + len <= c.msg.len
    ensures Inv(Wrote(c, len, err)) && (c.msg.dontblock ==> Wrote(c, len, err).st == NONE)
  {
    if err != ERR_OK {
      RefusedKeeps(c, len, err);
    } else if c.offset + len == c.msg.len || c.msg.dontblock {
      WroteEnds(c, len);
      AcceptedEnds(c, len);
    } else {
      AcceptedGoesOn(c, len);
    }
  }

  /** What had been accepted stays so, and there is more exactly if tcp_write took a portion that is
      not empty. */
  predicate Further(c: Conn, d: Conn, io: Io) {
    && c.msg.chunks <= d.msg.chunks && c.offset <= d.offset
    && (c.offset < d.offset <==> io.result == ERR_OK && io.available > 0)
  }

  lemma WriteGoesOn(c: Conn, io: Io)
    requires Writing(c) && WriteMore(c, io).st == WRITE
    ensures Further(c, WriteMore(c, io), io)
  {
  }

  lemma TurnKeeps(c: Conn, io: Io)
    requires Writing(c)
    ensures Inv(WriteMore(c, io))
    ensures c.msg.dontblock ==> WriteMore(c, io).st == NONE
  {
    if c.msg.timed && io.late {
      FinishKeeps(c, c.msg.(len := c.offset), c.offset, if c.offset == 0 then ERR_WOULDBLOCK else ERR_OK, c.offset);
    } else {
      var len := Portion(c, io.available);
      var full := c.msg.dontblock && len == 0 && io.available < Wish(c);
      var err := if full then ERR_WOULDBLOCK else io.result;
      var marked := full || ((err == ERR_OK || err == ERR_MEM) && c.msg.dontblock && len < c.msg.len);
      WroteKeeps(c.(check := c.check || marked), len, err);
    }
  }

  /** do_writemore either ends the write, with one of the permitted outcomes, or leaves it with a
      prefix accepted that is no shorter. */
  lemma WriteMoreKeeps(c: Conn, io: Io)
    requires Writing(c)
    ensures Inv(WriteMore(c, io))
    ensures c.msg.dontblock ==> WriteMore(c, io).st == NONE
    ensures WriteMore(c, io).st == WRITE ==> Further(c, WriteMore(c, io), io)
  {
    TurnKeeps(c, io);
    if WriteMore(c, io).st == WRITE { WriteGoesOn(c, io); }
  }

  lemma CloseKeeps(c: Conn, r: Err)
    requires Waiting(c) && c.st == CLOSE && c.current == Some(c.msg.id)
    requires c.msg.kind == Close || (c.msg.kind == Delete && c.msg.rx && c.msg.tx)
    requires c.pcb != NoPcb && (c.pcb == Listening || c.pcb == Connecting ==> c.msg.rx && c.msg.tx)
    requires c.pcb == Connecting ==> r == ERR_OK
    requires c.nbc ==> c.msg.kind == Delete && c.pcb == Connecting && c.msg.rx && c.msg.tx
    ensures Inv(CloseInternal(c, r))
  {
    var c' := CloseInternal(c, r);
    if c'.st == NONE {
      SignalKeeps(c.(msg := c'.msg, pcb := c'.pcb, current := None, st := NONE));
    }
  }

  lemma CallConnectKeeps(c: Conn, r: Err)
    requires Inv(c) && Enabled(c, CallConnect(r))
    ensures Inv(Step(c, CallConnect(r)))
  {
    var b := Begin(c, Connect);
    if c.pcb != NoPcb && c.st == NONE && r == ERR_OK {
      if c.nonblocking { DoneAtOnce(b.(st := CONNECT, nbc := true, pcb := Connecting), ERR_INPROGRESS); }
    } else {
      DoneAtOnce(b, if c.pcb == NoPcb then ERR_CLSD else if c.st != NONE then ERR_ISCONN else r);
    }
  }

  lemma CallListenKeeps(c: Conn, found: bool, mbox: Err)
    requires Inv(c) && Enabled(c, CallListen(found, mbox))
    ensures Inv(Step(c, CallListen(found, mbox)))
  {
    var b := Begin(c, Listen);
    if IsFatal(c.lastErr) || c.pcb == NoPcb || c.st != NONE || !found {
      DoneAtOnce(b, if IsFatal(c.lastErr) then c.lastErr else if c.pcb == NoPcb || c.st != NONE then ERR_CONN else ERR_MEM);
    } else if mbox == ERR_OK {
      SignalKeeps(b.(st := LISTEN, pcb := Listening, msg := b.msg.(err := Some(ERR_OK))));
    } else {
      DoneAtOnce(b.(pcb := NoPcb), mbox);
    }
  }

  lemma CallWriteKeeps(c: Conn, size: nat, flag: bool, timed: bool, io: Io)
    requires Inv(c) && Enabled(c, CallWrite(size, flag, timed, io))
    ensures Inv(Step(c, CallWrite(size, flag, timed, io)))
  {
    var b0 := Begin(c, Write);
    var b := b0.(msg := b0.msg.(size := size, len := size, flag := flag, dontblock := c.nonblocking || flag, timed := timed));
    if IsFatal(c.lastErr) || c.st != NONE || c.pcb == NoPcb {
      DoneAtOnce(b, if IsFatal(c.lastErr) then c.lastErr else if c.st != NONE then ERR_INPROGRESS else ERR_CONN);
    } else {
      WriteMoreKeeps(b.(st := WRITE, current := Some(b.msg.id), offset := 0), io);
    }
  }

  lemma CallCloseKeeps(c: Conn, rx: bool, tx: bool, r: Err)
    requires Inv(c) && Enabled(c, CallClose(rx, tx, r))
    ensures Inv(Step(c, CallClose(rx, tx, r)))
  {
    var b0 := Begin(c, Close);
    var b := b0.(msg := b0.msg.(rx := rx, tx := tx));
    if c.st != NONE && c.st != LISTEN {
      DoneAtOnce(b, ERR_INPROGRESS);
    } else if c.pcb == NoPcb {
      DoneAtOnce(b, ERR_VAL);
    } else if !(rx && tx) && c.st == LISTEN {
      DoneAtOnce(b, ERR_CONN);
    } else {
      CloseKeeps(b.(st := CLOSE, current := Some(b.msg.id)), r);
    }
  }

  lemma CallDeleteKeeps(c: Conn, r: Err)
    requires Inv(c) && Enabled(c, CallDelete(r)) && ClosesConnecting(c, CallDelete(r))
    ensures Inv(Step(c, CallDelete(r)))
  {
    var b := Begin(c, Delete);
    if c.pcb == NoPcb {
      SignalKeeps(b);
    } else {
      CloseKeeps(b.(st := CLOSE, msg := b.msg.(rx := true, tx := true), current := Some(b.msg.id)), r);
    }
  }

  /** The flag that asks for room has no part in the invariant. */
  lemma RoomKeeps(c: Conn, enough: bool)
    requires Inv(c)
    ensures Inv(Room(c, enough))
  {
  }

  lemma GoOnKeeps(c: Conn, io: Io, r: Err)
    requires Inv(c) && c.pcb != NoPcb && (c.st == CLOSE && c.pcb == Listening ==> c.msg.rx && c.msg.tx)
    ensures Inv(GoOn(c, io, r))
  {
    if c.st == WRITE {
      WriteMoreKeeps(c, io);
    } else if c.st == CLOSE {
      CloseKeeps(c, r);
    }
  }

  lemma CallbackKeeps(c: Conn, ev: Event)
    requires Inv(c) && Enabled(c, ev)
    requires ev.Poll? || ev.Sent? || ev.Error? || ev.Connected?
    ensures Inv(Step(c, ev))
  {
    match ev
    case Poll(io, r, enough) =>
      GoOnKeeps(c, io, r);
      RoomKeeps(GoOn(c, io, r), enough);
    case Sent(io, r, enough) =>
      GoOnKeeps(c, io, r);
      RoomKeeps(GoOn(c, io, r), enough);
    case Error(e) => ErrorKeeps(c, e);
    case Connected(e) =>
      if !c.nbc {
        var m := c.msg.(err := Some(e));
        SignalKeeps(c.(msg := m, nbc := false, current := None, st := NONE, pcb := Open));
      }
  }

  lemma ErrorKeeps(c: Conn, e: Err)
    requires Inv(c) && (c.pcb == Connecting || c.pcb == Open) && IsFatal(e)
    ensures Inv(ErrTcp(c, e))
  {
    if c.current.Some? {
      var m := c.msg.(err := Some(e));
      if c.st == WRITE { assert WroteUpTo(m, c.offset); }
      SignalKeeps(c.(pcb := NoPcb, lastErr := e, st := NONE, msg := m, current := None));
    }
  }

  /** Every step keeps the invariant. */
  lemma StepKeeps(c: Conn, ev: Event)
    requires Inv(c) && Enabled(c, ev) && ClosesConnecting(c, ev)
    ensures Inv(Step(c, ev))
  {
    match ev
    case Return =>
    case SetNonblocking(b) =>
    case LastError(_) =>
    case Poll(_, _, _) => CallbackKeeps(c, ev);
    case Sent(_, _, _) => CallbackKeeps(c, ev);
    case Error(_) => CallbackKeeps(c, ev);
    case Connected(_) => CallbackKeeps(c, ev);
    case CallConnect(r) => CallConnectKeeps(c, r);
    case CallListen(found, mbox) => CallListenKeeps(c, found, mbox);
    case CallWrite(size, flag, timed, io) => CallWriteKeeps(c, size, flag, timed, io);
    case CallClose(rx, tx, r) => CallCloseKeeps(c, rx, tx, r);
    case CallDelete(r) => CallDeleteKeeps(c, r);
    case CallQuick(e, silent) =>
      var b := Begin(c, if silent then Silent else Quick);
      SignalKeeps(b.(msg := b.msg.(err := Some(e))));
  }

  // --------------------------------------------------------------------- runs

  predicate Fresh(c: Conn) {
    && c.st == NONE && c.pcb == Idle && c.current == None && !c.nbc && !c.busy
    && c.sem == 0 && c.calls == 0 && c.signals == [] && c.offset == 0
  }

  ghost predicate IsRun(run: seq<Conn>, evs: seq<Event>) {
    && |run| == |evs| + 1 && Fresh(run[0])
    && forall i :: 0 <= i < |evs| ==>
         Enabled(run[i], evs[i]) && ClosesConnecting(run[i], evs[i]) && run[i + 1] == Step(run[i], evs[i])
  }

  lemma {:induction false} RunKeeps(run: seq<Conn>, evs: seq<Event>, i: nat)
    requires IsRun(run, evs) && i < |run|
    ensures Inv(run[i])
  {
    if i > 0 {
      RunKeeps(run, evs, i - 1);
      StepKeeps(run[i - 1], evs[i - 1]);
    }
  }

  /** In every run the calls are finished one by one: the k-th signal wakes the k-th call, whose
      error has been set (only the deletion of a netconn without pcb sets none), and all calls but
      an outstanding one have been finished. */
  lemma OneSignalPerCall(run: seq<Conn>, evs: seq<Event>, i: nat)
    requires IsRun(run, evs) && i < |run|
    ensures |run[i].signals| == run[i].calls - if Pending(run[i]) then 1 else 0
    ensures forall k :: 0 <= k < |run[i].signals| ==>
      run[i].signals[k].id == k && (run[i].signals[k].err.Some? || run[i].signals[k].kind == Delete)
  {
    RunKeeps(run, evs, i);
    forall k | 0 <= k < |run[i].signals|
      ensures run[i].signals[k].id == k && (run[i].signals[k].err.Some? || run[i].signals[k].kind == Delete)
    {
      assert DoneOk(run[i].signals[k], k);
    }
  }

  /** In every run current_msg is set exactly while a write, a close or a blocking connect is
      unfinished, and it then belongs to the outstanding call. */
  lemma CurrentMessageExactly(run: seq<Conn>, evs: seq<Event>, i: nat)
    requires IsRun(run, evs) && i < |run|
    ensures run[i].current.Some? <==>
      run[i].st == WRITE || run[i].st == CLOSE || (run[i].st == CONNECT && !run[i].nbc)
    ensures run[i].current.Some? <==> Pending(run[i])
    ensures run[i].current.Some? ==> run[i].current.value == run[i].calls - 1
  {
    RunKeeps(run, evs, i);
  }

  /** Byte k of the caller's buffer lies in chunk j. */
  predicate Covers(chunks: seq<Chunk>, j: nat, k: nat) {
    j < |chunks| && chunks[j].start <= k < chunks[j].start + chunks[j].len
  }

  /** Byte k lies in exactly one chunk if it is one of the first n, and in none otherwise. */
  ghost predicate CoveredOnce(chunks: seq<Chunk>, n: nat, k: nat) {
    && (k < n <==> exists j: nat :: Covers(chunks, j, k))
    && forall i: nat, j: nat :: Covers(chunks, i, k) && Covers(chunks, j, k) ==> i == j
  }

  /** Chunks that tile n bytes cover each of them exactly once, and nothing else. */
  lemma {:induction false} TilesCoverOnce(chunks: seq<Chunk>, n: nat, k: nat)
    requires Tiles(chunks, n)
    ensures CoveredOnce(chunks, n, k)
    decreases |chunks|
  {
    if chunks != [] {
      var m := |chunks| - 1;
      var rest, last := chunks[..m], chunks[m];
      TilesCoverOnce(rest, last.start, k);
      forall j: nat ensures Covers(chunks, j, k) <==> Covers(rest, j, k) || (j == m && last.start <= k < n) { }
      if k < n {
        if k < last.start {
          var j: nat :| Covers(rest, j, k);
          assert Covers(chunks, j, k);
        } else {
          assert Covers(chunks, m, k);
        }
      }
    }
  }

  /** What netconn_write_partly reports after ERR_OK. */
  function Reported(m: Msg): nat {
    if m.dontblock || m.timed then m.len else m.size
  }

  /** In every run, what was accepted of a finished write is a prefix of the caller's buffer, each
      byte of it once; after ERR_OK the call reports the length of that prefix, which for a
      blocking call without timeout is everything; a non-blocking call that fails wrote nothing. */
  lemma WritesTile(run: seq<Conn>, evs: seq<Event>, i: nat, k: nat) returns (n: nat)
    requires IsRun(run, evs) && i < |run| && k < |run[i].signals| && run[i].signals[k].kind == Write
    ensures var m := run[i].signals[k];
      && n <= m.size
      && (forall b: nat :: CoveredOnce(m.chunks, n, b))
      && (m.err == Some(ERR_OK) ==> Reported(m) == n && (!m.dontblock && !m.timed ==> n == m.size))
      && (m.err != Some(ERR_OK) && m.dontblock ==> n == 0)
  {
    RunKeeps(run, evs, i);
    var m := run[i].signals[k];
    assert DoneOk(m, k);
    n :| WroteUpTo(m, n);
    forall b: nat ensures CoveredOnce(m.chunks, n, b) {
      TilesCoverOnce(m.chunks, n, b);
    }
  }

  /** A non-blocking write is finished by the time do_write returns. */
  lemma NonblockingAtOnce(c: Conn, size: nat, flag: bool, timed: bool, io: Io)
    requires Inv(c) && Enabled(c, CallWrite(size, flag, timed, io)) && (c.nonblocking || flag)
    ensures !Pending(Step(c, CallWrite(size, flag, timed, io)))
  {
    CallWriteKeeps(c, size, flag, timed, io);
    if !(IsFatal(c.lastErr) || c.st != NONE || c.pcb == NoPcb) {
      var b0 := Begin(c, Write);
      var b := b0.(msg := b0.msg.(size := size, len := size, flag := flag, dontblock := c.nonblocking || flag, timed := timed));
      WriteMoreKeeps(b.(st := WRITE, current := Some(b.msg.id), offset := 0), io);
    }
  }

  // ------------------------------------------------------------- how calls end

  /** Step j is the one that signals for call k. */
  predicate Ends(run: seq<Conn>, j: nat, k: nat) {
    j + 1 < |run| && |run[j].signals| == k && |run[j + 1].signals| == k + 1
  }

  /** d comes of c by signals for the present message of d, one at most, and keeps a fatal error. */
  predicate Says(c: Conn, d: Conn) {
    && (d.signals == c.signals || d.signals == c.signals + [d.msg])
    && (IsFatal(c.lastErr) ==> IsFatal(d.lastErr))
  }

  lemma WroteSays(c: Conn, len: nat, err: Err)
    ensures Says(c, Wrote(c, len, err))
  {
  }

  lemma TurnSays(c: Conn, io: Io)
    ensures Says(c, WriteMore(c, io))
  {
    if !(c.msg.timed && io.late) {
      var dontblock := c.nonblocking || c.msg.flag;
      var len := Portion(c, io.available);
      var full := dontblock && len == 0 && io.available < Wish(c);
      var err := if full then ERR_WOULDBLOCK else io.result;
      var marked := full || ((err == ERR_OK || err == ERR_MEM) && dontblock && len < c.msg.len);
      WroteSays(c.(check := c.check || marked), len, err);
    }
  }

  lemma GoOnSays(c: Conn, io: Io, r: Err, enough: bool)
    ensures var d := GoOn(c, io, r); Says(c, d) && Says(c, Room(d, enough))
  {
    if c.st == WRITE { TurnSays(c, io); }
    RoomOnly(GoOn(c, io, r), enough);
  }

  lemma CallbackSays(c: Conn, ev: Event)
    requires Enabled(c, ev) && (ev.Poll? || ev.Sent? || ev.Error? || ev.Connected?)
    ensures Says(c, Step(c, ev))
  {
    match ev
    case Poll(io, r, enough) => GoOnSays(c, io, r, enough);
    case Sent(io, r, enough) => GoOnSays(c, io, r, enough);
    case Error(_) =>
    case Connected(_) =>
  }

  lemma WriteSays(c: Conn, size: nat, flag: bool, timed: bool, io: Io)
    requires Enabled(c, CallWrite(size, flag, timed, io))
    ensures Says(c, Step(c, CallWrite(size, flag, timed, io)))
  {
    var b := Begin(c, Write);
    var m := b.(msg := b.msg.(size := size, len := size, flag := flag, dontblock := c.nonblocking || flag, timed := timed));
    TurnSays(m.(st := WRITE, current := Some(m.msg.id), offset := 0), io);
    assert Says(m, DoWrite(m, io));
  }

  lemma CloseSays(c: Conn, rx: bool, tx: bool, r: Err)
    requires Enabled(c, CallClose(rx, tx, r))
    ensures Says(c, Step(c, CallClose(rx, tx, r)))
  {
  }

  lemma DeleteSays(c: Conn, r: Err)
    requires Enabled(c, CallDelete(r))
    ensures Says(c, Step(c, CallDelete(r)))
  {
  }

  lemma OpenSays(c: Conn, ev: Event)
    requires Enabled(c, ev) && (ev.CallConnect? || ev.CallListen? || ev.CallQuick?)
    ensures Says(c, Step(c, ev))
  {
    match ev
    case CallConnect(r) =>
    case CallListen(found, mbox) =>
    case CallQuick(e, silent) =>
  }

  lemma StepSays(c: Conn, ev: Event)
    requires Enabled(c, ev)
    ensures Says(c, Step(c, ev))
  {
    match ev
    case CallWrite(size, flag, timed, io) => WriteSays(c, size, flag, timed, io);
    case CallClose(rx, tx, r) => CloseSays(c, rx, tx, r);
    case CallDelete(r) => DeleteSays(c, r);
    case CallConnect(_) => OpenSays(c, ev);
    case CallListen(_, _) => OpenSays(c, ev);
    case CallQuick(_, _) => OpenSays(c, ev);
    case Return =>
    case SetNonblocking(_) =>
    case LastError(_) =>
    case _ => CallbackSays(c, ev);
  }

  lemma RunSays(run: seq<Conn>, evs: seq<Event>, i: nat)
    requires IsRun(run, evs) && i < |evs|
    ensures Says(run[i], run[i + 1])
  {
    StepSays(run[i], evs[i]);
  }

  lemma {:induction false} EndOf(run: seq<Conn>, evs: seq<Event>, i: nat, k: nat) returns (j: nat)
    requires IsRun(run, evs) && i < |run| && k < |run[i].signals|
    ensures j < i && Ends(run, j, k) && run[i].signals[k] == run[j + 1].msg
  {
    var h := i - 1;
    RunSays(run, evs, h);
    if k < |run[h].signals| {
      j := EndOf(run, evs, h, k);
    } else {
      j := h;
    }
  }

  /** The call that is outstanding when err_tcp or do_connected comes is signalled by it, and gets its
      error; err_tcp leaves no pcb, do_connected an open one. */
  lemma EndedByCallback(run: seq<Conn>, evs: seq<Event>, i: nat)
    requires IsRun(run, evs) && i < |evs| && Pending(run[i]) && (evs[i].Error? || evs[i].Connected?)
    ensures run[i + 1].signals == run[i].signals + [run[i].msg.(err := Some(evs[i].e))]
    ensures run[i + 1].st == NONE && run[i + 1].pcb == if evs[i].Error? then NoPcb else Open
    ensures evs[i].Error? ==> run[i + 1].lastErr == evs[i].e
  {
    RunKeeps(run, evs, i);
  }

  /** A connect that is over was answered by do_connect itself, or ended by do_connected or err_tcp. */
  predicate ConnectEnds(c: Conn, ev: Event, m: Msg) {
    match ev
    case Connected(e) => c.st == CONNECT && m.err == Some(e)
    case Error(e) => c.st == CONNECT && m.err == Some(e)
    case CallConnect(r) =>
      m.err == Some(if c.pcb == NoPcb then ERR_CLSD else if c.st != NONE then ERR_ISCONN
                    else if r == ERR_OK then ERR_INPROGRESS else r)
    case _ => false
  }

  /** A close that is over was refused, or ended when the pcb could be closed, or by err_tcp.  Only a full
      close takes the pcb away. */
  predicate CloseEnds(c: Conn, ev: Event, m: Msg, d: Conn) {
    match ev
    case Error(e) => c.st == CLOSE && m.err == Some(e) && d.pcb == NoPcb
    case CallClose(rx, tx, r) =>
      if AssertsOffset(c, ev)
      then (r == ERR_OK || c.pcb == Listening) && m.err == Some(ERR_OK) && d.pcb == if rx && tx then NoPcb else c.pcb
      else d.pcb == c.pcb && m.err == Some(if c.st != NONE && c.st != LISTEN then ERR_INPROGRESS
                                           else if c.pcb == NoPcb then ERR_VAL else ERR_CONN)
    case Poll(_, r, _) => ClosedAtLast(c, r, m, d)
    case Sent(_, r, _) => ClosedAtLast(c, r, m, d)
    case _ => false
  }

  predicate ClosedAtLast(c: Conn, r: Err, m: Msg, d: Conn) {
    && c.st == CLOSE && (r == ERR_OK || c.pcb == Listening)
    && m.err == Some(ERR_OK) && d.pcb == if m.rx && m.tx then NoPcb else c.pcb
  }

  /** A write that is over was refused, or ended with a turn of do_writemore, or by err_tcp. */
  predicate WriteEnds(c: Conn, ev: Event, m: Msg) {
    match ev
    case Error(e) => c.st == WRITE && m.err == Some(e)
    case CallWrite(_, _, _, io) =>
      if StartsWrite(c, ev) then TurnEnds(0, m, io)
      else m.err == Some(if IsFatal(c.lastErr) then c.lastErr else if c.st != NONE then ERR_INPROGRESS else ERR_CONN)
    case Poll(io, _, _) => c.st == WRITE && TurnEnds(c.offset, m, io)
    case Sent(io, _, _) => c.st == WRITE && TurnEnds(c.offset, m, io)
    case _ => false
  }

  /** The error of a write that a turn has ended: of the timeout, of a full buffer that the write does not
      want to wait for, or of tcp_write, where a lack of memory ends only a write that does not wait. */
  predicate TurnEnds(before: nat, m: Msg, io: Io) {
    if m.timed && io.late then m.err == Some(if before == 0 then ERR_WOULDBLOCK else ERR_OK)
    else if m.dontblock && io.available == 0 && before < m.size then m.err == Some(ERR_WOULDBLOCK)
    else m.err == Some(io.result) && (io.result == ERR_MEM ==> m.dontblock)
  }

  /** A deletion that is over leaves no pcb; the error is unset if there was none. */
  predicate DeleteEnds(c: Conn, ev: Event, m: Msg, d: Conn) {
    && d.pcb == NoPcb
    && match ev
       case Error(e) => c.st == CLOSE && m.err == Some(e)
       case CallDelete(r) =>
         if c.pcb == NoPcb then m.err == None else m.err == Some(ERR_OK) && (r == ERR_OK || c.pcb == Listening)
       case Poll(_, r, _) => ClosedAtLast(c, r, m, d)
       case Sent(_, r, _) => ClosedAtLast(c, r, m, d)
       case _ => false
  }

  /** Listening is refused, or goes on with a listening pcb; without a mailbox the pcb is lost. */
  predicate ListenEnds(c: Conn, ev: Event, m: Msg, d: Conn) {
    && ev.CallListen?
    && (m.err == Some(ERR_OK) <==> MayListen(c) && ev.found && ev.mbox == ERR_OK)
    && if m.err == Some(ERR_OK) then d.st == LISTEN && d.pcb == Listening
       else d.st == c.st && d.pcb == if MayListen(c) && ev.found then NoPcb else c.pcb
  }

  predicate MayListen(c: Conn) {
    !IsFatal(c.lastErr) && c.pcb != NoPcb && c.st == NONE
  }

  /** Every other call is over at once. */
  predicate OtherEnds(ev: Event, m: Msg) {
    ev.CallQuick? && (ev.silent <==> m.kind == Silent) && m.err == Some(ev.e)
  }

  predicate EndsRightly(c: Conn, ev: Event, m: Msg, d: Conn) {
    match m.kind
    case Connect => ConnectEnds(c, ev, m)
    case Close => CloseEnds(c, ev, m, d)
    case Write => WriteEnds(c, ev, m)
    case Delete => DeleteEnds(c, ev, m, d)
    case Listen => ListenEnds(c, ev, m, d)
    case _ => OtherEnds(ev, m)
  }

  lemma ConnectEndsRightly(c: Conn, r: Err)
    requires Inv(c) && Enabled(c, CallConnect(r)) && |Step(c, CallConnect(r)).signals| > |c.signals|
    ensures var d := Step(c, CallConnect(r)); EndsRightly(c, CallConnect(r), d.msg, d)
  {
  }

  lemma CloseEndsRightly(c: Conn, rx: bool, tx: bool, r: Err)
    requires Inv(c) && Enabled(c, CallClose(rx, tx, r)) && |Step(c, CallClose(rx, tx, r)).signals| > |c.signals|
    ensures var d := Step(c, CallClose(rx, tx, r)); EndsRightly(c, CallClose(rx, tx, r), d.msg, d)
  {
  }

  lemma ListenEndsRightly(c: Conn, found: bool, mbox: Err)
    requires Inv(c) && Enabled(c, CallListen(found, mbox))
    ensures var d := Step(c, CallListen(found, mbox)); EndsRightly(c, CallListen(found, mbox), d.msg, d)
  {
  }

  /** The error with which a turn of do_writemore ends a write. */
  lemma TurnEndsRightly(c: Conn, io: Io)
    requires Writing(c) && WriteMore(c, io).st != WRITE
    ensures var m := WriteMore(c, io).msg; m.kind == Write && TurnEnds(c.offset, m, io)
  {
    if !(c.msg.timed && io.late) {
      var len := Portion(c, io.available);
      var full := c.msg.dontblock && len == 0 && io.available < Wish(c);
      var err := if full then ERR_WOULDBLOCK else io.result;
      var marked := full || ((err == ERR_OK || err == ERR_MEM) && c.msg.dontblock && len < c.msg.len);
      WroteEndsRightly(c.(check := c.check || marked), len, err);
    }
  }

  lemma WroteEndsRightly(c: Conn, len: nat, err: Err)
    requires c.st == WRITE && Wrote(c, len, err).st != WRITE
    ensures var m := Wrote(c, len, err).msg; SameWrite(c.msg, m) && m.err == Some(err)
    ensures err == ERR_MEM ==> c.nonblocking || c.msg.flag
  {
    if err == ERR_OK {
      WroteEnds(c, len);
      FinishedWith(c.(msg := More(c.msg, c.offset, len).(len := c.offset + len), offset := 0), ERR_OK);
    } else {
      FinishedWith(c.(msg := c.msg.(len := 0)), err);
    }
  }

  predicate SameWrite(m: Msg, m': Msg) {
    m'.kind == m.kind && m'.size == m.size && m'.timed == m.timed && m'.dontblock == m.dontblock
  }

  lemma FinishedWith(c: Conn, e: Err)
    ensures Finish(c, e).msg == c.msg.(err := Some(e))
  {
  }

  lemma WriteEndsRightly(c: Conn, size: nat, flag: bool, timed: bool, io: Io)
    requires Inv(c) && Enabled(c, CallWrite(size, flag, timed, io))
    requires |Step(c, CallWrite(size, flag, timed, io)).signals| > |c.signals|
    ensures var d := Step(c, CallWrite(size, flag, timed, io)); EndsRightly(c, CallWrite(size, flag, timed, io), d.msg, d)
  {
    if StartsWrite(c, CallWrite(size, flag, timed, io)) {
      var b := Begin(c, Write);
      var m := b.(msg := b.msg.(size := size, len := size, flag := flag, dontblock := c.nonblocking || flag, timed := timed));
      var w := m.(st := WRITE, current := Some(m.msg.id), offset := 0);
      assert WriteMore(w, io).st != WRITE by { StillSilent(w, io); }
      TurnEndsRightly(w, io);
    }
  }

  /** A turn that does not end the write does not signal. */
  lemma StillSilent(c: Conn, io: Io)
    requires c.st == WRITE
    ensures |WriteMore(c, io).signals| > |c.signals| <==> WriteMore(c, io).st != WRITE
  {
  }

  lemma CallEndsRightly(c: Conn, ev: Event)
    requires Inv(c) && Enabled(c, ev) && |Step(c, ev).signals| > |c.signals|
    requires !ev.Poll? && !ev.Sent? && !ev.Error? && !ev.Connected?
    ensures EndsRightly(c, ev, Step(c, ev).msg, Step(c, ev))
  {
    match ev
    case CallConnect(r) => ConnectEndsRightly(c, r);
    case CallListen(found, mbox) => ListenEndsRightly(c, found, mbox);
    case CallWrite(size, flag, timed, io) => WriteEndsRightly(c, size, flag, timed, io);
    case CallClose(rx, tx, r) => CloseEndsRightly(c, rx, tx, r);
    case CallDelete(r) => DeleteEndsRightly(c, r);
    case CallQuick(e, silent) =>
    case _ =>
  }

  lemma DeleteEndsRightly(c: Conn, r: Err)
    requires Inv(c) && Enabled(c, CallDelete(r)) && |Step(c, CallDelete(r)).signals| > |c.signals|
    ensures var d := Step(c, CallDelete(r)); EndsRightly(c, CallDelete(r), d.msg, d)
  {
  }

  lemma GoOnEndsRightly(c: Conn, io: Io, r: Err)
    requires Inv(c) && |GoOn(c, io, r).signals| > |c.signals|
    ensures var d := GoOn(c, io, r);
      if c.st == WRITE then d.msg.kind == Write && TurnEnds(c.offset, d.msg, io)
      else
        && c.st == CLOSE && (d.msg.kind == Delete || d.msg.kind == Close) && ClosedAtLast(c, r, d.msg, d)
        && (d.msg.kind == Delete ==> d.pcb == NoPcb)
  {
    if c.st == WRITE {
      StillSilent(c, io);
      TurnEndsRightly(c, io);
    }
  }

  lemma CallbackEndsRightly(c: Conn, ev: Event)
    requires Inv(c) && Enabled(c, ev) && |Step(c, ev).signals| > |c.signals|
    requires ev.Poll? || ev.Sent? || ev.Error? || ev.Connected?
    ensures EndsRightly(c, ev, Step(c, ev).msg, Step(c, ev))
  {
    match ev
    case Poll(io, r, enough) =>
      GoOnEndsRightly(c, io, r);
      RoomOnly(GoOn(c, io, r), enough);
    case Sent(io, r, enough) =>
      GoOnEndsRightly(c, io, r);
      RoomOnly(GoOn(c, io, r), enough);
    case Error(_) =>
    case Connected(_) =>
  }

  lemma RoomOnly(c: Conn, enough: bool)
    ensures var d := Room(c, enough);
      d.msg == c.msg && d.signals == c.signals && d.pcb == c.pcb && d.st == c.st && d.lastErr == c.lastErr
  {
  }

  /** In every run each call that is over was ended by one step, with the error that step calls for. */
  lemma CallsEndRightly(run: seq<Conn>, evs: seq<Event>, i: nat, k: nat) returns (j: nat)
    requires IsRun(run, evs) && i < |run| && k < |run[i].signals|
    ensures j < i && j < |evs| && Ends(run, j, k) && EndsRightly(run[j], evs[j], run[i].signals[k], run[j + 1])
  {
    j := EndOf(run, evs, i, k);
    RunKeeps(run, evs, j);
    if evs[j].Poll? || evs[j].Sent? || evs[j].Error? || evs[j].Connected? {
      CallbackEndsRightly(run[j], evs[j]);
    } else {
      CallEndsRightly(run[j], evs[j]);
    }
  }

  /** So a connect reports success if and only if do_connected ended it without an error. */
  lemma ConnectOkExactly(run: seq<Conn>, evs: seq<Event>, i: nat, k: nat)
    requires IsRun(run, evs) && i < |run| && k < |run[i].signals| && run[i].signals[k].kind == Connect
    ensures run[i].signals[k].err == Some(ERR_OK)
      <==> exists j: nat :: j < i && Ends(run, j, k) && evs[j] == Connected(ERR_OK)
  {
    var j := CallsEndRightly(run, evs, i, k);
    RunSaysAll(run, evs);
    forall h: nat | h < i && Ends(run, h, k) ensures h == j { EndsOnce(run, h, j, k); }
  }

  lemma EndsOnce(run: seq<Conn>, h: nat, j: nat, k: nat)
    requires AllSay(run) && Ends(run, h, k) && Ends(run, j, k)
    ensures h == j
  {
    if h < j { SignalsGrow(run, h + 1, j); } else if j < h { SignalsGrow(run, j + 1, h); }
  }

  ghost predicate AllSay(run: seq<Conn>) {
    forall i :: 0 <= i < |run| - 1 ==> Says(run[i], run[i + 1])
  }

  lemma RunSaysAll(run: seq<Conn>, evs: seq<Event>)
    requires IsRun(run, evs)
    ensures AllSay(run)
  {
    forall i | 0 <= i < |run| - 1 ensures Says(run[i], run[i + 1]) { RunSays(run, evs, i); }
  }

  lemma {:induction false} SignalsGrow(run: seq<Conn>, a: nat, b: nat)
    requires AllSay(run) && a <= b < |run|
    ensures |run[a].signals| <= |run[b].signals|
    ensures IsFatal(run[a].lastErr) ==> IsFatal(run[b].lastErr)
    decreases b
  {
    if a < b {
      SignalsGrow(run, a, b - 1);
      assert Says(run[b - 1], run[b]);
    }
  }

  /** A close that is going on ends with the next callback exactly if the pcb can be closed. */
  lemma CloseGoesOn(c: Conn, ev: Event)
    requires Inv(c) && Enabled(c, ev) && c.st == CLOSE && (ev.Poll? || ev.Sent?)
    ensures Step(c, ev).st == (if ev.r == ERR_OK || c.pcb == Listening then NONE else CLOSE)
    ensures |Step(c, ev).signals| > |c.signals| <==> ev.r == ERR_OK || c.pcb == Listening
  {
  }

  /** In every run a fatal last error is never replaced by one that is not. */
  lemma FatalStays(run: seq<Conn>, evs: seq<Event>, a: nat, b: nat)
    requires IsRun(run, evs) && a <= b < |run| && IsFatal(run[a].lastErr)
    ensures IsFatal(run[b].lastErr)
  {
    RunSaysAll(run, evs);
    SignalsGrow(run, a, b);
  }

  /** The end of a non-blocking connect signals nobody: err_tcp leaves its error as the last one,
      do_connected clears the last error unless it is fatal. */
  lemma NonblockingConnectEnds(c: Conn, ev: Event)
    requires Inv(c) && Enabled(c, ev) && c.nbc && c.st == CONNECT && (ev.Error? || ev.Connected?)
    ensures var d := Step(c, ev);
      && d.signals == c.signals && d.st == NONE && !d.nbc
      && d.pcb == (if ev.Error? then NoPcb else Open)
      && d.lastErr == if ev.Error? then ev.e else if IsFatal(c.lastErr) then c.lastErr else ERR_OK
  {
  }

  /** A non-blocking write that succeeds without writing everything asks for the write space to be looked
      at, and only then. */
  lemma PartialWriteAsks(c: Conn, size: nat, flag: bool, timed: bool, io: Io)
    requires Inv(c) && Enabled(c, CallWrite(size, flag, timed, io)) && StartsWrite(c, CallWrite(size, flag, timed, io))
    requires (c.nonblocking || flag) && !(timed && io.late) && io.result == ERR_OK && io.available > 0
    ensures var d := Step(c, CallWrite(size, flag, timed, io));
      d.msg.err == Some(ERR_OK) && (d.check <==> c.check || d.msg.len < size)
  {
  }

  /** A callback that finds enough room ends that. */
  lemma RoomAnswers(c: Conn, io: Io, r: Err, enough: bool)
    requires Inv(c) && c.pcb != NoPcb && c.st == NONE
    ensures Step(c, Poll(io, r, enough)).check <==> c.check && !enough
    ensures Step(c, Sent(io, r, enough)).check <==> c.check && !enough
  {
  }

  /** When a call has returned, its error is the last one, unless that was fatal; deletions and silent
      calls leave none. */
  lemma ReturnKeepsError(c: Conn)
    requires Inv(c) && Enabled(c, Return)
    ensures var d := Step(c, Return);
      && !d.busy && d.sem == 0
      && d.lastErr == if IsFatal(c.lastErr) || c.msg.kind == Silent || c.msg.kind == Delete || c.msg.err == None
                      then c.lastErr else c.msg.err.value
  {
  }

  // --------------------------------------------------- the assertions of the source

  /** What LWIP_ASSERT states in err_tcp, do_connected, do_writemore, do_close_internal,
      do_delconn, do_write and do_close, but for the write offset being 0, which does not always
      hold: see OffsetAssertionExactly. */
  predicate Asserted(c: Conn, ev: Event) {
    match ev
    case Error(_) => if (c.st == WRITE || c.st == CLOSE || c.st == CONNECT) && !c.nbc then c.current.Some? else c.current.None?
    case Connected(_) => c.st == CONNECT && (c.current.Some? || c.nbc)
    case Poll(_, _, _) => AssertedGoOn(c)
    case Sent(_, _, _) => AssertedGoOn(c)
    case CallWrite(_, _, _, _) => c.st == NONE ==> c.current.None?
    case CallClose(_, _, _) => c.st == NONE || c.st == LISTEN ==> c.current.None?
    case CallDelete(_) => (c.st == CONNECT ==> c.nbc) && c.current.None?
    case _ => true
  }

  predicate AssertedGoOn(c: Conn) {
    && (c.st == WRITE ==> c.current.Some? && c.pcb != NoPcb && c.offset < c.msg.len)
    && (c.st == CLOSE ==> c.current.Some? && c.pcb != NoPcb && c.pcb != Listening)
  }

  /** They hold whenever these functions are reached. */
  lemma AssertionsHold(run: seq<Conn>, evs: seq<Event>, i: nat)
    requires IsRun(run, evs) && i < |evs|
    ensures Asserted(run[i], evs[i])
  {
    RunKeeps(run, evs, i);
  }

  // ------------------------------------------- the assertion on the write offset

  /** do_write, do_close or do_delconn comes to assert that the write offset is 0. */
  predicate AssertsOffset(c: Conn, ev: Event) {
    match ev
    case CallWrite(_, _, _, _) => StartsWrite(c, ev)
    case CallClose(rx, tx, _) => c.pcb != NoPcb && (c.st == NONE || (c.st == LISTEN && rx && tx))
    case CallDelete(_) => c.pcb != NoPcb && (c.st == NONE || c.st == LISTEN || c.st == CONNECT)
    case _ => false
  }

  /** The write gets as far as do_writemore. */
  predicate StartsWrite(c: Conn, ev: Event) {
    ev.CallWrite? && !IsFatal(c.lastErr) && c.st == NONE && c.pcb != NoPcb
  }

  /** tcp_write has accepted something of the write. */
  predicate AcceptedSome(m: Msg) {
    exists k :: 0 <= k < |m.chunks| && m.chunks[k].len > 0
  }

  /** A callback ends a write of which something had been accepted before, by the send timeout or
      with an error of tcp_write. */
  predicate EndsShort(c: Conn, ev: Event) {
    && (ev.Poll? || ev.Sent?) && c.st == WRITE && AcceptedSome(c.msg)
    && ((c.msg.timed && ev.io.late) || (ev.io.result != ERR_OK && ev.io.result != ERR_MEM))
  }

  /** The last write before state i that got as far as do_writemore was ended short by event j. */
  ghost predicate LeftShort(run: seq<Conn>, evs: seq<Event>, j: nat, i: nat)
    requires |run| == |evs| + 1 && i <= |evs|
  {
    && j < i && EndsShort(run[j], evs[j])
    && forall k :: j < k < i ==> !StartsWrite(run[k], evs[k])
  }

  lemma {:induction false} TilesSome(m: Msg, n: nat)
    requires Tiles(m.chunks, n)
    ensures n > 0 <==> AcceptedSome(m)
    decreases |m.chunks|
  {
    if m.chunks != [] {
      var j := |m.chunks| - 1;
      var rest := m.(chunks := m.chunks[..j]);
      TilesSome(rest, m.chunks[j].start);
      if AcceptedSome(rest) {
        var k :| 0 <= k < |rest.chunks| && rest.chunks[k].len > 0;
        assert m.chunks[k].len > 0;
      }
      if AcceptedSome(m) && m.chunks[j].len == 0 {
        var k :| 0 <= k < |m.chunks| && m.chunks[k].len > 0;
        assert rest.chunks[k].len > 0;
      }
    }
  }

  /** The offset of a write that has just ended is 0 exactly if nothing had been accepted before
      or the last portion was; after an error or a timeout behind an accepted part it stays. */
  lemma OffsetAfterWrite(c: Conn, io: Io)
    requires Writing(c) && WriteMore(c, io).st == NONE
    ensures WriteMore(c, io).offset == 0 <==>
      c.offset == 0 || (!(c.msg.timed && io.late) && io.result == ERR_OK)
  {
  }

  /** The offset is that of the last write that got as far as do_writemore: it is not 0 exactly if
      that write was ended short. */
  predicate OffsetOk(c: Conn, short: bool) {
    && (c.st == WRITE ==> !short)
    && (c.st != WRITE && c.pcb != NoPcb ==> (c.offset != 0 <==> short))
  }

  /** A turn of do_writemore in a callback. */
  lemma OffsetTurn(c: Conn, io: Io)
    requires Inv(c) && c.st == WRITE
    ensures var d := WriteMore(c, io);
      d.st != WRITE ==> (d.offset != 0 <==>
        AcceptedSome(c.msg) && ((c.msg.timed && io.late) || (io.result != ERR_OK && io.result != ERR_MEM)))
  {
    TilesSome(c.msg, c.offset);
    if WriteMore(c, io).st == NONE { OffsetAfterWrite(c, io); }
  }

  /** A write that do_write finishes at once leaves the offset at 0. */
  lemma OffsetStart(c: Conn, ev: Event)
    requires Inv(c) && Enabled(c, ev) && StartsWrite(c, ev)
    ensures var d := Step(c, ev); d.st != WRITE ==> d.offset == 0
  {
  }

  /** The offset is not touched, and a pcb that is gone does not come back. */
  predicate OffsetKept(c: Conn, d: Conn) {
    d.offset == c.offset && (d.pcb == NoPcb || (c.pcb != NoPcb && (d.st == WRITE <==> c.st == WRITE)))
  }

  lemma OffsetCall(c: Conn, ev: Event)
    requires Enabled(c, ev) && !StartsWrite(c, ev) && (ev.CallWrite? || ev.CallClose? || ev.CallDelete? || ev.CallQuick?)
    ensures OffsetKept(c, Step(c, ev))
  {
    match ev
    case CallWrite(_, _, _, _) =>
    case CallClose(_, _, _) =>
    case CallDelete(_) =>
    case CallQuick(_, _) =>
  }

  lemma OffsetConnection(c: Conn, ev: Event)
    requires PcbOk(c) && Enabled(c, ev) && (ev.CallConnect? || ev.CallListen? || ev.Connected? || ev.Error?)
    ensures OffsetKept(c, Step(c, ev))
  {
    match ev
    case CallConnect(_) =>
    case CallListen(_, _) =>
    case Connected(_) =>
    case Error(_) =>
  }

  /** Nothing but a write changes the offset. */
  lemma OffsetElsewhere(c: Conn, ev: Event)
    requires PcbOk(c) && Enabled(c, ev) && !StartsWrite(c, ev) && !((ev.Poll? || ev.Sent?) && c.st == WRITE)
    ensures OffsetKept(c, Step(c, ev))
  {
    if ev.CallWrite? || ev.CallClose? || ev.CallDelete? || ev.CallQuick? {
      OffsetCall(c, ev);
    } else if ev.CallConnect? || ev.CallListen? || ev.Connected? || ev.Error? {
      OffsetConnection(c, ev);
    }
  }

  lemma OffsetStep(c: Conn, ev: Event, short: bool)
    requires Inv(c) && Enabled(c, ev) && OffsetOk(c, short)
    ensures OffsetOk(Step(c, ev), EndsShort(c, ev) || (short && !StartsWrite(c, ev)))
  {
    if StartsWrite(c, ev) {
      OffsetStart(c, ev);
    } else if (ev.Poll? || ev.Sent?) && c.st == WRITE {
      OffsetCallback(c, ev);
    } else {
      OffsetElsewhere(c, ev);
    }
  }

  lemma OffsetCallback(c: Conn, ev: Event)
    requires Inv(c) && Enabled(c, ev) && (ev.Poll? || ev.Sent?) && c.st == WRITE
    ensures OffsetOk(Step(c, ev), EndsShort(c, ev))
  {
    OffsetTurn(c, ev.io);
  }

  lemma LeftShortNext(run: seq<Conn>, evs: seq<Event>, h: nat, i: nat)
    requires |run| == |evs| + 1 && i == h + 1 && i <= |evs|
    ensures (exists j: nat :: LeftShort(run, evs, j, i))
      <==> EndsShort(run[h], evs[h]) || ((exists j: nat :: LeftShort(run, evs, j, h)) && !StartsWrite(run[h], evs[h]))
  {
    if EndsShort(run[h], evs[h]) {
      assert LeftShort(run, evs, h, i);
    } else {
      forall j: nat ensures LeftShort(run, evs, j, i) <==> LeftShort(run, evs, j, h) && !StartsWrite(run[h], evs[h]) { }
    }
  }

  lemma {:induction false} OffsetInRuns(run: seq<Conn>, evs: seq<Event>, i: nat)
    requires IsRun(run, evs) && i < |run|
    ensures OffsetOk(run[i], exists j: nat :: LeftShort(run, evs, j, i))
  {
    if i > 0 {
      var h := i - 1;
      OffsetInRuns(run, evs, h);
      RunKeeps(run, evs, h);
      OffsetStep(run[h], evs[h], exists j: nat :: LeftShort(run, evs, j, h));
      LeftShortNext(run, evs, h, i);
    }
  }

  /** In every run, the assertion of do_write, do_close and do_delconn that the write offset is 0
      fails exactly when the last write was ended, behind an accepted part, by its timeout or by an
      error of tcp_write. */
  lemma OffsetAssertionExactly(run: seq<Conn>, evs: seq<Event>, i: nat)
    requires IsRun(run, evs) && i < |evs| && AssertsOffset(run[i], evs[i])
    ensures run[i].offset != 0 <==> exists j: nat :: LeftShort(run, evs, j, i)
  {
    OffsetInRuns(run, evs, i);
  }

  /** A connected netconn at rest comes to the assertion, a write only after no fatal error. */
  lemma AssertsWhenOpen(c: Conn, ev: Event)
    requires c.st == NONE && c.pcb == Open && (ev.CallClose? || ev.CallDelete? || (ev.CallWrite? && !IsFatal(c.lastErr)))
    ensures AssertsOffset(c, ev)
  {
  }

  /** It does fail: a run, by a send timeout or by an error of tcp_write, to a connected netconn at rest
      on which a close or deletion, and after the timeout a write too, comes to the assertion with an
      offset that is not 0. */
  lemma LeftoverOffset(c: Conn, timeout: bool) returns (run: seq<Conn>, evs: seq<Event>)
    requires Fresh(c) && !c.nonblocking && !IsFatal(c.lastErr)
    ensures IsRun(run, evs) && run[0] == c
    ensures var last := run[|run| - 1];
      && MayCall(last) && last.offset != 0
      && forall ev: Event :: ev.CallClose? || ev.CallDelete? || (timeout && ev.CallWrite?) ==> AssertsOffset(last, ev)
  {
    run, evs := [c], [];
    run, evs := OneMore(run, evs, CallConnect(ERR_OK));
    run, evs := OneMore(run, evs, Connected(ERR_OK));
    run, evs := OneMore(run, evs, Return);
    run, evs := HalfWritten(run, evs, timeout);
    var last := run[|run| - 1];
    forall ev: Event | ev.CallClose? || ev.CallDelete? || (timeout && ev.CallWrite?) ensures AssertsOffset(last, ev) {
      AssertsWhenOpen(last, ev);
    }
  }

  /** One of two bytes is written before the time is up or tcp_write fails. */
  lemma HalfWritten(run: seq<Conn>, evs: seq<Event>, timeout: bool) returns (run': seq<Conn>, evs': seq<Event>)
    requires IsRun(run, evs)
    requires var c := run[|run| - 1];
      MayCall(c) && c.sem == 0 && c.st == NONE && c.pcb == Open && !c.nonblocking && !IsFatal(c.lastErr)
    ensures IsRun(run', evs') && run'[0] == run[0]
    ensures var c := run'[|run'| - 1];
      MayCall(c) && c.offset == 1 && c.st == NONE && c.pcb == Open && (timeout ==> !IsFatal(c.lastErr))
  {
    run', evs' := OneMore(run, evs, CallWrite(2, false, timeout, Io(1, ERR_OK, false)));
    var c := run'[|run'| - 1];
    assert c.st == WRITE && c.offset == 1 && c.msg.len == 2 && c.busy && c.pcb == Open && c.msg.kind == Write;
    run', evs' := OneMore(run', evs', Poll(Io(1, ERR_CONN, timeout), ERR_OK, true));
    c := run'[|run'| - 1];
    assert c.st == NONE && c.offset == 1 && c.sem == 1 && c.pcb == Open && c.msg.kind == Write;
    assert c.msg.err == Some(if timeout then ERR_OK else ERR_CONN);
    run', evs' := OneMore(run', evs', Return);
  }

  lemma OneMore(run: seq<Conn>, evs: seq<Event>, ev: Event) returns (run': seq<Conn>, evs': seq<Event>)
    requires IsRun(run, evs) && Enabled(run[|run| - 1], ev) && ClosesConnecting(run[|run| - 1], ev)
    ensures IsRun(run', evs') && run'[0] == run[0] && run' != [] && run'[|run'| - 1] == Step(run[|run| - 1], ev)
  {
    run', evs' := run + [Step(run[|run| - 1], ev)], evs + [ev];
  }

  // ------------------------------------- deleting a netconn that is still connecting

  /** Nothing can happen any more, and a call waits. */
  ghost predicate Stuck(c: Conn) {
    Pending(c) && forall ev :: !Enabled(c, ev)
  }

  /** While a non-blocking connect goes on, do_delconn can leave its caller waiting for ever if and
      only if tcp_close fails: a connection error is then taken for one of the connect. */
  lemma DeleteWhileConnecting(c: Conn, r: Err)
    requires Inv(c) && MayCall(c) && c.nbc
    ensures (exists e :: Enabled(Step(c, CallDelete(r)), Error(e)) && Stuck(Step(Step(c, CallDelete(r)), Error(e))))
      <==> r != ERR_OK
  {
    var d := Step(c, CallDelete(r));
    if r != ERR_OK {
      var e := Other(true);
      assert Enabled(d, Error(e));
      var s := Step(d, Error(e));
      assert s.pcb == NoPcb && s.busy && s.sem == 0;
      assert Stuck(s);
    } else {
      assert d.pcb == NoPcb;
    }
  }
}
