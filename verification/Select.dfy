/**
  The select/wake-up protocol of the socket layer.

  Any number of threads run `lwip_select` and any number of `event_callback`
  walks are in progress at the same time.  Every stretch between protect and
  unprotect is one atomic step, so the protocol is a transition system: an
  `Action` is one such stretch, and a run is a sequence of enabled actions.

  The pointer-level version of the same steps is in SocketLayer.dfy.
*/
module Select {

  /** What event_callback is told about a socket. */
  datatype Event = RcvPlus | RcvMinus | SendPlus | SendMinus | Error

  /** The part of a socket that select looks at. */
  datatype Sock = Sock(rcv: int, send: bool, err: bool, lastdata: bool, waiting: int)

  /** The arguments of one select call: descriptors below `maxfd` are scanned. */
  datatype Want = Want(maxfd: nat, read: set<nat>, write: set<nat>, except: set<nat>)

  /** Where a select call is between putting itself on the list and leaving it. */
  datatype Phase =
    | Counting(i: nat)                  // raising select_waiting, next descriptor i
    | Scanning(i: nat, nready: bool)    // second scan, next descriptor i
    | Waiting                           // in sys_arch_sem_wait
    | Uncounting(i: nat)                // lowering select_waiting, next descriptor i

  datatype Thread = Thread(want: Want, phase: Phase, signalled: bool, sem: nat)

  /** An event_callback that has let go of the lock after visiting `scb`. */
  datatype Walker = Walker(fd: nat, scb: nat, seen: nat)

  datatype State = State(
    socks: map<nat, Sock>,
    threads: map<nat, Thread>,   // the calls that are on the list
    list: seq<nat>,              // select_cb_list, front first
    ctr: nat,                    // select_cb_ctr
    walkers: map<nat, Walker>)

  datatype Action =
    | Enlist(t: nat, want: Want)
    | Count(t: nat)
    | Scan(t: nat)
    | Wake(t: nat, timeout: bool)
    | Uncount(t: nat)
    | Raise(w: nat, fd: nat, evt: Event)   // event_callback up to its first unprotect
    | Walk(w: nat)                         // event_callback from protect to unprotect
    | Lastdata(fd: nat, present: bool)     // a receiving thread keeps or drops left-over data

  // ---------------------------------------------------------------- conditions

  /** The descriptors for which a select call raises select_waiting. */
  predicate Watches(want: Want, fd: nat) {
    fd < want.maxfd && (fd in want.read || fd in want.write || fd in want.except)
  }

  /** The test of event_callback. */
  predicate Matches(want: Want, fd: nat, sock: Sock) {
    || (sock.rcv > 0 && fd in want.read)
    || (sock.send && fd in want.write)
    || (sock.err && fd in want.except)
  }

  /** The test of lwip_selscan, which also looks at left-over data. */
  predicate Ready(want: Want, fd: nat, sock: Sock) {
    || ((sock.lastdata || sock.rcv > 0) && fd in want.read)
    || (sock.send && fd in want.write)
    || (sock.err && fd in want.except)
  }

  function SetEvent(sock: Sock, evt: Event): Sock {
    match evt
    case RcvPlus => sock.(rcv := sock.rcv + 1)
    case RcvMinus => sock.(rcv := sock.rcv - 1)
    case SendPlus => sock.(send := true)
    case SendMinus => sock.(send := false)
    case Error => sock.(err := true)
  }

  /** One visit of event_callback: signal the semaphore unless that was done before. */
  function Poke(th: Thread, fd: nat, sock: Sock): Thread {
    if !th.signalled && Matches(th.want, fd, sock)
    then th.(signalled := true, sem := th.sem + 1)
    else th
  }

  /** Whether this call currently contributes to select_waiting of `fd`. */
  predicate Counted(th: Thread, fd: nat) {
    Watches(th.want, fd) &&
    match th.phase
    case Counting(i) => fd < i
    case Scanning(_, _) => true
    case Waiting => true
    case Uncounting(i) => fd >= i
  }

  /** The second scan has passed `fd` and found nothing so far. */
  predicate Armed(th: Thread, fd: nat) {
    Watches(th.want, fd) &&
    (th.phase.Waiting? || (th.phase.Scanning? && !th.phase.nready && fd < th.phase.i))
  }

  function IndexOf(list: seq<nat>, t: nat): (k: nat)
    ensures k <= |list|
    ensures k < |list| ==> list[k] == t
    ensures k == |list| <==> t !in list
    ensures forall j :: 0 <= j < k ==> list[j] != t
  {
    if list == [] then 0
    else if list[0] == t then 0
    else 1 + IndexOf(list[1..], t)
  }

  predicate Distinct(list: seq<nat>) {
    forall i, j :: 0 <= i < j < |list| ==> list[i] != list[j]
  }

  // ------------------------------------------------------------------- steps

  /** What holds of the data independently of who is where. */
  ghost predicate Shape(s: State) {
    && Distinct(s.list)
    && (forall t :: t in s.list <==> t in s.threads)
    && (forall t, fd :: t in s.threads && Watches(s.threads[t].want, fd) ==> fd in s.socks)
    && (forall w :: w in s.walkers ==> s.walkers[w].fd in s.socks && s.walkers[w].seen <= s.ctr)
    // a walker that will follow its pointer points to an element of the list
    && (forall w :: w in s.walkers && s.walkers[w].seen == s.ctr ==> s.walkers[w].scb in s.list)
  }

  /** The loop body from element k of the list up to the unprotect, or the end of the walk. */
  function Visit(s: State, w: nat, fd: nat, k: nat): State
    requires k <= |s.list| && fd in s.socks
    requires forall t :: t in s.list ==> t in s.threads
  {
    if k == |s.list| then s.(walkers := s.walkers - {w})
    else
      var t := s.list[k];
      s.(threads := s.threads[t := Poke(s.threads[t], fd, s.socks[fd])],
         walkers := s.walkers[w := Walker(fd, t, s.ctr)])
  }

  predicate Enabled(s: State, a: Action) {
    match a
    case Enlist(t, want) =>
      && t !in s.threads
      && (forall fd :: 0 <= fd < want.maxfd && Watches(want, fd) ==> fd in s.socks)
    case Count(t) => t in s.threads && s.threads[t].phase.Counting?
    case Scan(t) => t in s.threads && s.threads[t].phase.Scanning?
    case Wake(t, timeout) =>
      t in s.threads && s.threads[t].phase.Waiting? && (timeout || s.threads[t].sem > 0)
    case Uncount(t) => t in s.threads && s.threads[t].phase.Uncounting?
    case Raise(w, fd, _) => w !in s.walkers && fd in s.socks
    case Walk(w) => w in s.walkers
    case Lastdata(fd, _) => fd in s.socks
  }

  function SetPhase(s: State, t: nat, phase: Phase): State
    requires t in s.threads
  {
    s.(threads := s.threads[t := s.threads[t].(phase := phase)])
  }

  function AddWaiting(s: State, fd: nat, d: int): State
    requires fd in s.socks
  {
    s.(socks := s.socks[fd := s.socks[fd].(waiting := s.socks[fd].waiting + d)])
  }

  /** One turn of the loop that raises or lowers select_waiting. */
  function Pass(s: State, t: nat, phase: Phase, i: nat, d: int): State
    requires t in s.threads
    requires Watches(s.threads[t].want, i) ==> i in s.socks
  {
    var s1 := SetPhase(s, t, phase);
    if Watches(s.threads[t].want, i) then AddWaiting(s1, i, d) else s1
  }

  function Without(list: seq<nat>, t: nat): seq<nat> {
    var k := IndexOf(list, t);
    if k < |list| then list[..k] + list[k + 1..] else list
  }

  function Leave(s: State, t: nat): State {
    s.(threads := s.threads - {t}, list := Without(s.list, t), ctr := s.ctr + 1)
  }

  /** event_callback up to its first unprotect. */
  function StartWalk(s: State, w: nat, fd: nat, evt: Event): State
    requires fd in s.socks
    requires forall t :: t in s.list ==> t in s.threads
  {
    var s1 := s.(socks := s.socks[fd := SetEvent(s.socks[fd], evt)]);
    if s1.socks[fd].waiting == 0 then s1 else Visit(s1, w, fd, 0)
  }

  /** Where event_callback goes on after taking the lock again. */
  function NextPosition(s: State, w: nat): (k: nat)
    requires w in s.walkers
    requires s.walkers[w].seen == s.ctr ==> s.walkers[w].scb in s.list
    ensures k <= |s.list|
  {
    if s.walkers[w].seen != s.ctr then 0 else IndexOf(s.list, s.walkers[w].scb) + 1
  }

  /** The loop that raises select_waiting. */
  function CountTurn(s: State, t: nat): State
    requires t in s.threads && s.threads[t].phase.Counting?
    requires Watches(s.threads[t].want, s.threads[t].phase.i) ==> s.threads[t].phase.i in s.socks
  {
    var i := s.threads[t].phase.i;
    if i >= s.threads[t].want.maxfd then SetPhase(s, t, Scanning(0, false)) else Pass(s, t, Counting(i + 1), i, 1)
  }

  /** The loop that lowers select_waiting, or the end of the call's time on the list. */
  function UncountTurn(s: State, t: nat): State
    requires t in s.threads && s.threads[t].phase.Uncounting?
    requires Watches(s.threads[t].want, s.threads[t].phase.i) ==> s.threads[t].phase.i in s.socks
  {
    var i := s.threads[t].phase.i;
    if i >= s.threads[t].want.maxfd then Leave(s, t) else Pass(s, t, Uncounting(i + 1), i, -1)
  }

  /** The second scan: the next descriptor, or the end. */
  function ScanTurn(s: State, t: nat): State
    requires t in s.threads && s.threads[t].phase.Scanning?
  {
    var th := s.threads[t];
    var i := th.phase.i;
    if i >= th.want.maxfd then
      SetPhase(s, t, if th.phase.nready then Uncounting(0) else Waiting)
    else
      var r := i in s.socks && Ready(th.want, i, s.socks[i]);
      SetPhase(s, t, Scanning(i + 1, th.phase.nready || r))
  }

  /** The wait ends with a token of the semaphore or by a timeout. */
  function WakeTurn(s: State, t: nat, timeout: bool): State
    requires t in s.threads && (timeout || s.threads[t].sem > 0)
  {
    var s1 := SetPhase(s, t, Uncounting(0));
    if timeout then s1
    else s1.(threads := s1.threads[t := s1.threads[t].(sem := s1.threads[t].sem - 1)])
  }

  ghost function Apply(s: State, a: Action): State
    requires Shape(s) && Enabled(s, a)
  {
    match a
    case Enlist(t, want) =>
      s.(threads := s.threads[t := Thread(want, Counting(0), false, 0)],
         list := [t] + s.list,
         ctr := s.ctr + 1)
    case Count(t) => CountTurn(s, t)
    case Scan(t) => ScanTurn(s, t)
    case Wake(t, timeout) => WakeTurn(s, t, timeout)
    case Uncount(t) => UncountTurn(s, t)
    case Raise(w, fd, evt) =>
      StartWalk(s, w, fd, evt)
    case Walk(w) =>
      Visit(s, w, s.walkers[w].fd, NextPosition(s, w))
    case Lastdata(fd, present) =>
      s.(socks := s.socks[fd := s.socks[fd].(lastdata := present)])
  }

  // --------------------------------------------------------------- invariant

  ghost function Waiters(s: State, fd: nat): set<nat> {
    set t | t in s.threads && Counted(s.threads[t], fd)
  }

  /** select_waiting of every socket is the number of calls counted on it. */
  ghost predicate CountersExact(s: State) {
    forall fd :: fd in s.socks ==> s.socks[fd].waiting == |Waiters(s, fd)|
  }

  /** A restarted walk visits everyone; any other walk visits what follows its position. */
  predicate WillReach(s: State, k: Walker, t: nat) {
    k.seen != s.ctr || IndexOf(s.list, k.scb) < IndexOf(s.list, t)
  }

  ghost predicate Covered(s: State, t: nat, fd: nat) {
    exists w :: w in s.walkers && s.walkers[w].fd == fd && WillReach(s, s.walkers[w], t)
  }

  /** Call `t` should be woken for `fd` and has not been signalled. */
  predicate Missing(s: State, t: nat, fd: nat) {
    && t in s.threads && fd in s.socks && Armed(s.threads[t], fd)
    && Matches(s.threads[t].want, fd, s.socks[fd]) && !s.threads[t].signalled
  }

  ghost predicate NoLostWakeup(s: State) {
    forall t, fd :: Missing(s, t, fd) ==> Covered(s, t, fd)
  }

  /** The semaphore holds one token exactly between the signal and the wait that takes it. */
  ghost predicate SignalOnce(s: State) {
    forall t :: t in s.threads ==>
      var th := s.threads[t];
      && th.sem <= (if th.signalled then 1 else 0)
      && (!th.phase.Uncounting? ==> th.sem == if th.signalled then 1 else 0)
  }

  ghost predicate Inv(s: State) {
    Shape(s) && CountersExact(s) && NoLostWakeup(s) && SignalOnce(s)
  }

  // ------------------------------------------------------- one step keeps it

  lemma IndexOfAt(list: seq<nat>, k: nat)
    requires Distinct(list) && k < |list|
    ensures IndexOf(list, list[k]) == k
  {
  }

  lemma WithoutProperties(list: seq<nat>, t: nat)
    requires Distinct(list) && t in list
    ensures Distinct(Without(list, t))
    ensures forall u :: u in Without(list, t) <==> u in list && u != t
  {
    var k := IndexOf(list, t);
    var r := Without(list, t);
    forall u | u in list && u != t ensures u in r {
      var i := IndexOf(list, u);
      assert r[if i < k then i else i - 1] == u;
    }
  }

  /** Adding or removing one element of a waiter set. */
  lemma WaitersMove(s: State, s': State, t: nat, fd: nat)
    requires forall u :: u != t ==> (u in s.threads <==> u in s'.threads)
    requires forall u :: u != t && u in s.threads ==>
      (Counted(s.threads[u], fd) <==> Counted(s'.threads[u], fd))
    ensures var was := t in s.threads && Counted(s.threads[t], fd);
            var now := t in s'.threads && Counted(s'.threads[t], fd);
            |Waiters(s', fd)| == |Waiters(s, fd)| + (if now then 1 else 0) - (if was then 1 else 0)
  {
    var a, b := Waiters(s, fd), Waiters(s', fd);
    forall u ensures u in a - {t} <==> u in b - {t} {
    }
    assert a - {t} == b - {t};
    SizeWithout(a, t);
    SizeWithout(b, t);
  }

  lemma SizeWithout(a: set<nat>, t: nat)
    ensures |a| == |a - {t}| + if t in a then 1 else 0
  {
    if t in a {
      assert a == (a - {t}) + {t};
    } else {
      assert a == a - {t};
    }
  }

  lemma EnlistKeeps(s: State, t: nat, want: Want)
    requires Inv(s) && Enabled(s, Enlist(t, want))
    ensures Inv(Apply(s, Enlist(t, want)))
  {
    var s' := Apply(s, Enlist(t, want));
    assert t !in s.list;
    forall fd | fd in s'.socks ensures s'.socks[fd].waiting == |Waiters(s', fd)| {
      WaitersMove(s, s', t, fd);
    }
    forall u, fd | Missing(s', u, fd) ensures Covered(s', u, fd) {
      assert Missing(s, u, fd);
      var w :| w in s.walkers && s.walkers[w].fd == fd && WillReach(s, s.walkers[w], u);
      assert WillReach(s', s'.walkers[w], u);
    }
  }

  /** Steps that touch neither list nor walkers and make nobody newly missing. */
  lemma Unmoved(s: State, s': State)
    requires NoLostWakeup(s)
    requires s'.list == s.list && s'.ctr == s.ctr && s'.walkers == s.walkers
    requires forall t, fd :: Missing(s', t, fd) ==> Missing(s, t, fd)
    ensures NoLostWakeup(s')
  {
    forall t, fd | Missing(s', t, fd) ensures Covered(s', t, fd) {
      assert Missing(s, t, fd);
      var w :| w in s.walkers && s.walkers[w].fd == fd && WillReach(s, s.walkers[w], t);
      assert WillReach(s', s'.walkers[w], t);
    }
  }

  /** A step of call `t` that changes only its own record and the counts of one socket. */
  lemma OwnStepKeeps(s: State, s': State, t: nat)
    requires Inv(s) && t in s.threads && t in s'.threads
    requires s' == s.(threads := s.threads[t := s'.threads[t]], socks := s'.socks)
    requires s'.socks.Keys == s.socks.Keys && s'.threads[t].want == s.threads[t].want
    requires forall fd :: fd in s.socks ==>
      && s'.socks[fd] == s.socks[fd].(waiting := s'.socks[fd].waiting)
      && s'.socks[fd].waiting == s.socks[fd].waiting
           + (if Counted(s'.threads[t], fd) then 1 else 0) - (if Counted(s.threads[t], fd) then 1 else 0)
    requires forall fd :: Missing(s', t, fd) ==> Missing(s, t, fd)
    requires var th := s'.threads[t];
      && th.sem <= (if th.signalled then 1 else 0)
      && (!th.phase.Uncounting? ==> th.sem == if th.signalled then 1 else 0)
    ensures Inv(s')
  {
    forall fd | fd in s'.socks ensures s'.socks[fd].waiting == |Waiters(s', fd)| {
      WaitersMove(s, s', t, fd);
    }
    forall u, fd | Missing(s', u, fd) ensures Missing(s, u, fd) {
    }
    Unmoved(s, s');
  }

  lemma PassKeeps(s: State, t: nat, phase: Phase, i: nat, d: int)
    requires Inv(s) && t in s.threads && i < s.threads[t].want.maxfd
    requires || (s.threads[t].phase == Counting(i) && phase == Counting(i + 1) && d == 1)
             || (s.threads[t].phase == Uncounting(i) && phase == Uncounting(i + 1) && d == -1)
    ensures Inv(Pass(s, t, phase, i, d))
  {
    OwnStepKeeps(s, Pass(s, t, phase, i, d), t);
  }

  lemma CountKeeps(s: State, t: nat)
    requires Inv(s) && Enabled(s, Count(t))
    ensures Inv(Apply(s, Count(t)))
  {
    var i := s.threads[t].phase.i;
    if i >= s.threads[t].want.maxfd {
      OwnStepKeeps(s, SetPhase(s, t, Scanning(0, false)), t);
    } else {
      PassKeeps(s, t, Counting(i + 1), i, 1);
      assert Apply(s, Count(t)) == Pass(s, t, Counting(i + 1), i, 1);
    }
  }

  lemma ScanKeeps(s: State, t: nat)
    requires Inv(s) && Enabled(s, Scan(t))
    ensures Inv(Apply(s, Scan(t)))
  {
    OwnStepKeeps(s, Apply(s, Scan(t)), t);
  }

  lemma WakeKeeps(s: State, t: nat, timeout: bool)
    requires Inv(s) && Enabled(s, Wake(t, timeout))
    ensures Inv(Apply(s, Wake(t, timeout)))
  {
    OwnStepKeeps(s, Apply(s, Wake(t, timeout)), t);
  }

  lemma UncountKeeps(s: State, t: nat)
    requires Inv(s) && Enabled(s, Uncount(t))
    ensures Inv(Apply(s, Uncount(t)))
  {
    if s.threads[t].phase.i >= s.threads[t].want.maxfd {
      DelistKeeps(s, t);
    } else {
      var i := s.threads[t].phase.i;
      PassKeeps(s, t, Uncounting(i + 1), i, -1);
      assert Apply(s, Uncount(t)) == Pass(s, t, Uncounting(i + 1), i, -1);
    }
  }

  lemma DelistKeeps(s: State, t: nat)
    requires Inv(s) && Enabled(s, Uncount(t)) && s.threads[t].phase.i >= s.threads[t].want.maxfd
    ensures Inv(Apply(s, Uncount(t)))
  {
    var s' := Apply(s, Uncount(t));
    WithoutProperties(s.list, t);
    forall fd | fd in s'.socks ensures s'.socks[fd].waiting == |Waiters(s', fd)| {
      WaitersMove(s, s', t, fd);
    }
    forall u, fd | Missing(s', u, fd) ensures Covered(s', u, fd) {
      assert Missing(s, u, fd);
      var w :| w in s.walkers && s.walkers[w].fd == fd && WillReach(s, s.walkers[w], u);
      assert WillReach(s', s'.walkers[w], u);
    }
  }

  /** The heart of the protocol: a visit at k serves element k and leaves the rest covered. */
  lemma VisitKeeps(s: State, w: nat, fd: nat, k: nat)
    requires Shape(s) && CountersExact(s) && SignalOnce(s)
    requires fd in s.socks && k <= |s.list|
    // everyone missing is covered by another walker, or sits at k or behind it waiting for fd
    requires forall t, f :: Missing(s, t, f) ==>
      || (f == fd && IndexOf(s.list, t) >= k)
      || (exists v :: v != w && v in s.walkers && s.walkers[v].fd == f && WillReach(s, s.walkers[v], t))
    ensures Inv(Visit(s, w, fd, k))
  {
    var s' := Visit(s, w, fd, k);
    VisitKeepsData(s, w, fd, k);
    forall t, f | Missing(s', t, f) ensures Covered(s', t, f) {
      assert Missing(s, t, f);
      VisitCovers(s, w, fd, k, t, f);
    }
  }

  lemma VisitKeepsData(s: State, w: nat, fd: nat, k: nat)
    requires Shape(s) && CountersExact(s) && SignalOnce(s) && fd in s.socks && k <= |s.list|
    ensures var s' := Visit(s, w, fd, k);
            Shape(s') && CountersExact(s') && SignalOnce(s') && (forall t, f :: Missing(s', t, f) ==> Missing(s, t, f))
  {
    if k < |s.list| {
      var s1 := s.(threads := Visit(s, w, fd, k).threads);
      PokeKeepsData(s, s.list[k], fd, s1);
      WalkersOnly(s1, s1.walkers[w := Walker(fd, s.list[k], s.ctr)]);
    } else {
      WalkersOnly(s, s.walkers - {w});
    }
  }

  /** Walkers have no part in the counters and signals. */
  lemma WalkersOnly(s: State, walkers: map<nat, Walker>)
    requires Shape(s) && CountersExact(s) && SignalOnce(s)
    requires forall w :: w in walkers ==>
      walkers[w].fd in s.socks && walkers[w].seen <= s.ctr && (walkers[w].seen == s.ctr ==> walkers[w].scb in s.list)
    ensures var s' := s.(walkers := walkers);
      Shape(s') && CountersExact(s') && SignalOnce(s') && (forall t, f :: Missing(s', t, f) <==> Missing(s, t, f))
  {
    var s' := s.(walkers := walkers);
    forall f | f in s'.socks ensures s'.socks[f].waiting == |Waiters(s', f)| {
      assert Waiters(s', f) == Waiters(s, f);
    }
  }

  lemma PokeKeepsData(s: State, t: nat, fd: nat, s1: State)
    requires Shape(s) && CountersExact(s) && SignalOnce(s) && fd in s.socks && t in s.threads
    requires s1 == s.(threads := s.threads[t := Poke(s.threads[t], fd, s.socks[fd])])
    ensures Shape(s1) && CountersExact(s1) && SignalOnce(s1)
    ensures forall u, f :: Missing(s1, u, f) ==> Missing(s, u, f)
  {
    forall f | f in s1.socks ensures s1.socks[f].waiting == |Waiters(s1, f)| {
      assert Waiters(s1, f) == Waiters(s, f);
    }
  }

  lemma VisitCovers(s: State, w: nat, fd: nat, k: nat, t: nat, f: nat)
    requires Shape(s) && fd in s.socks && k <= |s.list|
    requires Missing(s, t, f) && Missing(Visit(s, w, fd, k), t, f)
    requires || (f == fd && IndexOf(s.list, t) >= k)
             || (exists v :: v != w && v in s.walkers && s.walkers[v].fd == f && WillReach(s, s.walkers[v], t))
    ensures Covered(Visit(s, w, fd, k), t, f)
  {
    var s' := Visit(s, w, fd, k);
    if v :| v != w && v in s.walkers && s.walkers[v].fd == f && WillReach(s, s.walkers[v], t) {
      assert v in s'.walkers && s'.walkers[v] == s.walkers[v];
      assert WillReach(s', s'.walkers[v], t);
    } else {
      assert t in s.list;
      assert IndexOf(s.list, t) != k;   // element k was signalled or does not match
      IndexOfAt(s.list, k);
      assert w in s'.walkers && WillReach(s', s'.walkers[w], t);
    }
  }

  lemma RaiseKeeps(s: State, w: nat, fd: nat, evt: Event)
    requires Inv(s) && Enabled(s, Raise(w, fd, evt))
    ensures Inv(Apply(s, Raise(w, fd, evt)))
  {
    var s1 := s.(socks := s.socks[fd := SetEvent(s.socks[fd], evt)]);
    forall f | f in s1.socks ensures s1.socks[f].waiting == |Waiters(s1, f)| {
      WaitersMove(s, s1, 0, f);
    }
    forall t, f | Missing(s1, t, f)
      ensures f == fd ==> t in Waiters(s1, fd)
      ensures f != fd ==> exists v :: v != w && v in s1.walkers && s1.walkers[v].fd == f && WillReach(s1, s1.walkers[v], t)
    {
      if f != fd {
        assert Missing(s, t, f);
        var v :| v in s.walkers && s.walkers[v].fd == f && WillReach(s, s.walkers[v], t);
        assert WillReach(s1, s1.walkers[v], t);
      }
    }
    if s1.socks[fd].waiting == 0 {
      assert Waiters(s1, fd) == {};
    } else {
      VisitKeeps(s1, w, fd, 0);
    }
  }

  lemma WalkKeeps(s: State, w: nat)
    requires Inv(s) && Enabled(s, Walk(w))
    ensures Inv(Apply(s, Walk(w)))
  {
    var me := s.walkers[w];
    var k := NextPosition(s, w);
    forall t, f | Missing(s, t, f)
      ensures (f == me.fd && IndexOf(s.list, t) >= k) ||
              exists v :: v != w && v in s.walkers && s.walkers[v].fd == f && WillReach(s, s.walkers[v], t)
    {
      var v :| v in s.walkers && s.walkers[v].fd == f && WillReach(s, s.walkers[v], t);
    }
    VisitKeeps(s, w, me.fd, k);
  }

  lemma LastdataKeeps(s: State, fd: nat, present: bool)
    requires Inv(s) && Enabled(s, Lastdata(fd, present))
    ensures Inv(Apply(s, Lastdata(fd, present)))
  {
    var s' := Apply(s, Lastdata(fd, present));
    forall f | f in s'.socks ensures s'.socks[f].waiting == |Waiters(s', f)| {
      WaitersMove(s, s', 0, f);
    }
    Unmoved(s, s');
  }

  /** Every atomic step of every thread and every callback keeps the whole invariant. */
  lemma StepKeeps(s: State, a: Action)
    requires Inv(s) && Enabled(s, a)
    ensures Inv(Apply(s, a))
  {
    match a
    case Enlist(t, want) => EnlistKeeps(s, t, want);
    case Count(t) => CountKeeps(s, t);
    case Scan(t) => ScanKeeps(s, t);
    case Wake(t, timeout) => WakeKeeps(s, t, timeout);
    case Uncount(t) => UncountKeeps(s, t);
    case Raise(w, fd, evt) => RaiseKeeps(s, w, fd, evt);
    case Walk(w) => WalkKeeps(s, w);
    case Lastdata(fd, present) => LastdataKeeps(s, fd, present);
  }

  // -------------------------------------------------------------- whole runs

  ghost predicate Init(s: State) {
    && s.threads == map[] && s.list == [] && s.walkers == map[]
    && (forall fd :: fd in s.socks ==> s.socks[fd].waiting == 0)
  }

  /** A run is the sequence of states it goes through.  Steps are defined for states of the right shape,
      which those of a run turn out to have. */
  ghost predicate IsRun(run: seq<State>, acts: seq<Action>) {
    && |run| == |acts| + 1
    && Init(run[0])
    && forall i :: 0 <= i < |acts| ==>
         Enabled(run[i], acts[i]) && (Shape(run[i]) ==> run[i + 1] == Apply(run[i], acts[i]))
  }

  lemma {:induction false} RunKeeps(run: seq<State>, acts: seq<Action>)
    requires IsRun(run, acts)
    ensures forall i :: 0 <= i < |run| ==> Inv(run[i])
  {
    if acts == [] {
      forall fd | fd in run[0].socks ensures run[0].socks[fd].waiting == |Waiters(run[0], fd)| {
        assert Waiters(run[0], fd) == {};
      }
    } else {
      var n := |acts| - 1;
      RunKeeps(run[..n + 1], acts[..n]);
      assert Inv(run[..n + 1][n]);
      StepKeeps(run[n], acts[n]);
      forall i | 0 <= i < |run| ensures Inv(run[i]) {
        if i <= n { assert run[i] == run[..n + 1][i]; }
      }
    }
  }

  /**
    In every reachable state, if a call has passed a socket in its second scan, has found
    nothing ready, has not been signalled, and the socket shows a matching event, then some
    event_callback on that very socket is still walking and will visit the call.
  */
  lemma NoLostWakeupInRuns(run: seq<State>, acts: seq<Action>, i: nat, t: nat, fd: nat)
    requires IsRun(run, acts) && i < |run|
    requires t in run[i].threads && Armed(run[i].threads[t], fd) && !run[i].threads[t].signalled
    requires fd in run[i].socks && Matches(run[i].threads[t].want, fd, run[i].socks[fd])
    ensures exists w :: w in run[i].walkers && run[i].walkers[w].fd == fd && WillReach(run[i], run[i].walkers[w], t)
  {
    RunKeeps(run, acts);
    assert Missing(run[i], t, fd);
    assert Covered(run[i], t, fd);
  }

  /** A walker about to follow scb->next holds a pointer to a live element. */
  lemma PointersLiveInRuns(run: seq<State>, acts: seq<Action>, i: nat, w: nat)
    requires IsRun(run, acts) && i < |run| && w in run[i].walkers
    requires run[i].walkers[w].seen == run[i].ctr
    ensures run[i].walkers[w].scb in run[i].list && run[i].walkers[w].scb in run[i].threads
  {
    RunKeeps(run, acts);
  }

  /** In every reachable state select_waiting is the number of calls counted on the socket. */
  lemma CountersExactInRuns(run: seq<State>, acts: seq<Action>, i: nat, fd: nat)
    requires IsRun(run, acts) && i < |run| && fd in run[i].socks
    ensures run[i].socks[fd].waiting == |set t | t in run[i].threads && Counted(run[i].threads[t], fd)|
    ensures run[i].socks[fd].waiting >= 0
  {
    RunKeeps(run, acts);
    assert Waiters(run[i], fd) == set t | t in run[i].threads && Counted(run[i].threads[t], fd);
  }

  // ---------------------------------------------------------- walks come to an end

  /** How many more steps a walk makes as long as the list stays as it is. */
  function Remaining(s: State, w: nat): nat
    requires w in s.walkers
  {
    var k := s.walkers[w];
    if k.seen != s.ctr then |s.list| + 1 else |s.list| - IndexOf(s.list, k.scb)
  }

  /** Two states with the same sockets and the same calls, up to who has been signalled. */
  ghost predicate SameCalls(s: State, s': State) {
    && s'.socks == s.socks && s'.threads.Keys == s.threads.Keys
    && forall t :: t in s.threads ==>
         s'.threads[t].want == s.threads[t].want && s'.threads[t].phase == s.threads[t].phase
  }

  lemma VisitParks(s: State, w: nat, fd: nat, k: nat)
    requires Shape(s) && fd in s.socks && k <= |s.list|
    ensures var s' := Visit(s, w, fd, k);
      && SameCalls(s, s') && s'.list == s.list && s'.ctr == s.ctr
      && s'.walkers.Keys == (if k < |s.list| then s.walkers.Keys + {w} else s.walkers.Keys - {w})
      && (w in s'.walkers ==> k < |s.list| && Remaining(s', w) == |s.list| - k)
  {
    if k < |s.list| { IndexOfAt(s.list, k); }
  }

  /** Its own steps bring a walk closer to its end. */
  lemma WalkAdvances(s: State, w: nat)
    requires Inv(s) && w in s.walkers
    ensures var s' := Apply(s, Walk(w));
      && SameCalls(s, s') && (w in s'.walkers ==> Remaining(s', w) < Remaining(s, w))
      && s'.walkers.Keys == (if w in s'.walkers then s.walkers.Keys else s.walkers.Keys - {w})
  {
    var k := s.walkers[w];
    VisitParks(s, w, k.fd, NextPosition(s, w));
  }

  /** A step that leaves the walk where it is. */
  ghost predicate Undelayed(s: State, s': State, a: Action, w: nat)
    requires w in s.walkers
  {
    && w in s'.walkers && s'.walkers[w] == s.walkers[w]
    && (s'.ctr == s.ctr ==> Remaining(s', w) == Remaining(s, w))
    && (s'.ctr != s.ctr ==> a.Enlist? || a.Uncount?)
  }

  lemma OwnStepLeaves(s: State, a: Action, w: nat)
    requires Inv(s) && Enabled(s, a) && w in s.walkers && (a.Count? || a.Scan? || a.Uncount?)
    ensures Undelayed(s, Apply(s, a), a, w)
  {
    match a
    case Count(_) =>
    case Scan(_) =>
    case Uncount(_) =>
  }

  /** Nobody else's step sets a walk back unless that step changes the list. */
  lemma OthersDoNotDelay(s: State, a: Action, w: nat)
    requires Inv(s) && Enabled(s, a) && w in s.walkers && a != Walk(w)
    ensures var s' := Apply(s, a);
      && w in s'.walkers && s'.walkers[w] == s.walkers[w]
      && (s'.ctr == s.ctr ==> Remaining(s', w) == Remaining(s, w))
      && (s'.ctr != s.ctr ==> a.Enlist? || a.Uncount?)
  {
    if a.Count? || a.Scan? || a.Uncount? {
      OwnStepLeaves(s, a, w);
    } else {
      match a
      case Raise(v, fd, evt) => VisitLeaves(s.(socks := StartWalk(s, v, fd, evt).socks), v, fd, 0, w);
      case Walk(v) => VisitLeaves(s, v, s.walkers[v].fd, NextPosition(s, v), w);
      case _ =>
    }
  }

  lemma VisitLeaves(s: State, v: nat, fd: nat, k: nat, w: nat)
    requires k <= |s.list| && fd in s.socks && w in s.walkers && v != w
    requires forall t :: t in s.list ==> t in s.threads
    ensures var s' := Visit(s, v, fd, k);
      w in s'.walkers && s'.walkers[w] == s.walkers[w] && s'.list == s.list && s'.ctr == s.ctr
  {
  }

  ghost predicate Reaches(s: State, acts: seq<Action>, s': State)
    decreases |acts|
  {
    if acts == [] then s == s'
    else Shape(s) && Enabled(s, acts[0]) && Reaches(Apply(s, acts[0]), acts[1..], s')
  }

  lemma ReachesCons(s: State, a: Action, m: State, acts: seq<Action>, s': State)
    requires Shape(s) && Enabled(s, a) && m == Apply(s, a) && Reaches(m, acts, s')
    ensures Reaches(s, [a] + acts, s')
  {
    assert ([a] + acts)[0] == a && ([a] + acts)[1..] == acts;
  }

  /** One step of a walk, as a state transition whose inner workings do not matter. */
  lemma WalkStep(s: State, w: nat) returns (m: State)
    requires Inv(s) && w in s.walkers
    ensures Enabled(s, Walk(w)) && m == Apply(s, Walk(w)) && Inv(m) && SameCalls(s, m)
    ensures if w in m.walkers then m.walkers.Keys == s.walkers.Keys && Remaining(m, w) < Remaining(s, w)
            else |m.walkers.Keys| < |s.walkers.Keys|
  {
    m := Apply(s, Walk(w));
    StepKeeps(s, Walk(w));
    WalkAdvances(s, w);
    SizeWithout(s.walkers.Keys, w);
  }

  lemma DrainCons(s: State, w: nat, m: State, rest: seq<Action>, s': State)
    requires Inv(s) && Enabled(s, Walk(w)) && m == Apply(s, Walk(w))
    requires SameCalls(s, m) && SameCalls(m, s')
    requires Reaches(m, rest, s') && forall i :: 0 <= i < |rest| ==> rest[i].Walk?
    ensures Reaches(s, [Walk(w)] + rest, s') && SameCalls(s, s')
    ensures forall i :: 0 <= i < |[Walk(w)] + rest| ==> ([Walk(w)] + rest)[i].Walk?
  {
    ReachesCons(s, Walk(w), m, rest, s');
  }

  /** Run walk `w` to its end, then the others. */
  lemma {:induction false} DrainFrom(s: State, w: nat) returns (acts: seq<Action>, s': State)
    requires Inv(s) && w in s.walkers
    ensures Reaches(s, acts, s') && Inv(s') && s'.walkers == map[] && SameCalls(s, s')
    ensures forall i :: 0 <= i < |acts| ==> acts[i].Walk?
    decreases |s.walkers.Keys|, Remaining(s, w)
  {
    var m := WalkStep(s, w);
    var rest := [];
    s' := m;
    if w in m.walkers {
      rest, s' := DrainFrom(m, w);
    } else if v :| v in m.walkers {
      rest, s' := DrainFrom(m, v);
    }
    DrainCons(s, w, m, rest, s');
    acts := [Walk(w)] + rest;
  }

  /** A call that is blocked although one of its sockets shows a matching event. */
  predicate ShouldWake(s: State, t: nat, fd: nat) {
    && t in s.threads && s.threads[t].phase.Waiting? && Watches(s.threads[t].want, fd)
    && fd in s.socks && Matches(s.threads[t].want, fd, s.socks[fd])
  }

  lemma QuietMeansSignalled(s: State, t: nat, fd: nat)
    requires Inv(s) && s.walkers == map[] && ShouldWake(s, t, fd)
    ensures s.threads[t].signalled && Enabled(s, Wake(t, false))
  {
    assert Missing(s, t, fd) ==> Covered(s, t, fd);
  }

  /**
    Letting the callbacks in progress finish is enough: afterwards every call that
    waits for a socket with a matching event has been signalled and has its token.
  */
  lemma DrainWakesEveryone(s: State) returns (acts: seq<Action>, s': State)
    requires Inv(s)
    ensures Reaches(s, acts, s') && s'.walkers == map[] && SameCalls(s, s')
    ensures forall i :: 0 <= i < |acts| ==> acts[i].Walk?
    ensures forall t, fd :: ShouldWake(s, t, fd) ==>
      t in s'.threads && s'.threads[t].signalled && Enabled(s', Wake(t, false))
  {
    acts, s' := [], s;
    if w :| w in s.walkers {
      acts, s' := DrainFrom(s, w);
    }
    forall t, fd | ShouldWake(s, t, fd)
      ensures t in s'.threads && s'.threads[t].signalled && Enabled(s', Wake(t, false))
    {
      assert ShouldWake(s', t, fd);
      QuietMeansSignalled(s', t, fd);
    }
  }

  // ------------------------------------------------- what the events add up to

  /** How many of the first n actions raise this event on fd. */
  function Raised(acts: seq<Action>, n: nat, fd: nat, evt: Event): nat
    requires n <= |acts|
  {
    if n == 0 then 0
    else Raised(acts, n - 1, fd, evt) + if acts[n - 1].Raise? && acts[n - 1].fd == fd && acts[n - 1].evt == evt then 1 else 0
  }

  predicate Raises(acts: seq<Action>, j: nat, fd: nat, evt: Event) {
    j < |acts| && acts[j].Raise? && acts[j].fd == fd && acts[j].evt == evt
  }

  /** Since event `on` came, or from the beginning if it held then, event `off` has not come. */
  ghost predicate Stands(acts: seq<Action>, n: nat, fd: nat, first: bool, on: Event, off: Event) {
    || (first && forall k: nat :: k < n ==> !Raises(acts, k, fd, off))
    || exists j: nat :: j < n && Raises(acts, j, fd, on) && forall k: nat :: j < k < n ==> !Raises(acts, k, fd, off)
  }

  /** Left-over data was last said to be there. */
  ghost predicate LeftOver(acts: seq<Action>, n: nat, fd: nat, first: bool)
    requires n <= |acts|
  {
    if n == 0 then first
    else if acts[n - 1].Lastdata? && acts[n - 1].fd == fd then acts[n - 1].present
    else LeftOver(acts, n - 1, fd, first)
  }

  /** The socket as the events so far have made it from what it was. */
  ghost predicate SumsUp(first: Sock, sock: Sock, acts: seq<Action>, n: nat, fd: nat)
    requires n <= |acts|
  {
    && sock.rcv == first.rcv + Raised(acts, n, fd, RcvPlus) - Raised(acts, n, fd, RcvMinus)
    && (sock.send <==> Stands(acts, n, fd, first.send, SendPlus, SendMinus))
    && (sock.err <==> first.err || exists j: nat :: j < n && Raises(acts, j, fd, Error))
    && (sock.lastdata <==> LeftOver(acts, n, fd, first.lastdata))
  }

  /** What one step does to a socket, apart from the number of waiting calls. */
  lemma SockStep(s: State, a: Action, fd: nat)
    requires Shape(s) && Enabled(s, a) && fd in s.socks
    ensures fd in Apply(s, a).socks
    ensures var sock, after := s.socks[fd], Apply(s, a).socks[fd];
      && after.lastdata == (if a.Lastdata? && a.fd == fd then a.present else sock.lastdata)
      && if a.Raise? && a.fd == fd
         then after.(waiting := 0, lastdata := false) == SetEvent(sock, a.evt).(waiting := 0, lastdata := false)
         else after.rcv == sock.rcv && after.send == sock.send && after.err == sock.err
  {
    match a
    case Count(_) =>
    case Uncount(_) =>
    case _ =>
  }

  lemma SumsUpNext(first: Sock, sock: Sock, after: Sock, acts: seq<Action>, n: nat, fd: nat)
    requires 0 < n <= |acts| && SumsUp(first, sock, acts, n - 1, fd)
    requires var a := acts[n - 1];
      && after.lastdata == (if a.Lastdata? && a.fd == fd then a.present else sock.lastdata)
      && if a.Raise? && a.fd == fd
         then after.(waiting := 0, lastdata := false) == SetEvent(sock, a.evt).(waiting := 0, lastdata := false)
         else after.rcv == sock.rcv && after.send == sock.send && after.err == sock.err
    ensures SumsUp(first, after, acts, n, fd)
  {
    var h := n - 1;
    StandsNext(acts, n, fd, first.send, SendPlus, SendMinus);
    assert (exists j: nat :: j < n && Raises(acts, j, fd, Error))
      <==> Raises(acts, h, fd, Error) || exists j: nat :: j < h && Raises(acts, j, fd, Error);
  }

  lemma StandsNext(acts: seq<Action>, n: nat, fd: nat, first: bool, on: Event, off: Event)
    requires 0 < n <= |acts| && on != off
    ensures Stands(acts, n, fd, first, on, off)
      <==> Raises(acts, n - 1, fd, on) || (Stands(acts, n - 1, fd, first, on, off) && !Raises(acts, n - 1, fd, off))
  {
    var h := n - 1;
    if Raises(acts, h, fd, on) {
      assert h < n && forall k: nat :: h < k < n ==> !Raises(acts, k, fd, off);
    } else if !Raises(acts, h, fd, off) {
      if j: nat :| j < h && Raises(acts, j, fd, on) && forall k: nat :: j < k < h ==> !Raises(acts, k, fd, off) {
        assert forall k: nat :: j < k < n ==> !Raises(acts, k, fd, off);
      }
    }
  }

  /** In every run a socket counts the data that came and was taken, can be written to if the last word
      was that it can, and shows an error if it did at first or one came. */
  lemma {:induction false} SocketsSumUp(run: seq<State>, acts: seq<Action>, i: nat, fd: nat)
    requires IsRun(run, acts) && i < |run| && fd in run[0].socks
    ensures fd in run[i].socks && SumsUp(run[0].socks[fd], run[i].socks[fd], acts, i, fd)
  {
    if i > 0 {
      SocketsSumUp(run, acts, i - 1, fd);
      RunKeeps(run, acts);
      SockStep(run[i - 1], acts[i - 1], fd);
      SumsUpNext(run[0].socks[fd], run[i - 1].socks[fd], run[i].socks[fd], acts, i, fd);
    }
  }

  /** In every run, once the walks have ended, each call that waits to read from a socket to which more
      came than was taken has its token, so has each that waits to write to one whose last word was that
      it can be written to, and each that waits for an error of one that had any. */
  lemma EventsWake(run: seq<State>, acts: seq<Action>, i: nat, t: nat, fd: nat)
    requires IsRun(run, acts) && i < |run| && run[i].walkers == map[] && fd in run[0].socks
    requires t in run[i].threads && run[i].threads[t].phase.Waiting? && fd < run[i].threads[t].want.maxfd
    ensures var want, first := run[i].threads[t].want, run[0].socks[fd];
      || (fd in want.read && first.rcv + Raised(acts, i, fd, RcvPlus) > Raised(acts, i, fd, RcvMinus))
      || (fd in want.write && Stands(acts, i, fd, first.send, SendPlus, SendMinus))
      || (fd in want.except && (first.err || exists j: nat :: j < i && Raises(acts, j, fd, Error)))
      ==> run[i].threads[t].signalled && run[i].threads[t].sem > 0
  {
    SocketsSumUp(run, acts, i, fd);
    RunKeeps(run, acts);
    if ShouldWake(run[i], t, fd) {
      QuietMeansSignalled(run[i], t, fd);
    }
  }

  /** The second scan finds a descriptor that can be read, or has left-over data, can be written to or
      shows an error, and only those; a call that has found one does not wait. */
  lemma ScanFinds(s: State, t: nat)
    requires Inv(s) && t in s.threads && s.threads[t].phase.Scanning?
    ensures var th, i, after := s.threads[t], s.threads[t].phase.i, Apply(s, Scan(t)).threads[t].phase;
      var read := i in s.socks && i in th.want.read && (s.socks[i].lastdata || s.socks[i].rcv > 0);
      var write := i in s.socks && i in th.want.write && s.socks[i].send;
      var except := i in s.socks && i in th.want.except && s.socks[i].err;
      if i < th.want.maxfd then after == Scanning(i + 1, th.phase.nready || read || write || except)
      else after == if th.phase.nready then Uncounting(0) else Waiting
  {
  }

  /** A call is signalled by a visit only, and only for an event that it waits for. */
  lemma SignalMeansEvent(s: State, a: Action, t: nat)
    requires Inv(s) && Enabled(s, a) && t in s.threads && !s.threads[t].signalled
    requires t in Apply(s, a).threads && Apply(s, a).threads[t].signalled
    ensures a.Raise? || a.Walk?
    ensures var fd := if a.Raise? then a.fd else if a.Walk? then s.walkers[a.w].fd else 0;
      var want, socks := s.threads[t].want, Apply(s, a).socks;
      && fd in socks
      && ((fd in want.read && socks[fd].rcv > 0) || (fd in want.write && socks[fd].send) || (fd in want.except && socks[fd].err))
  {
    match a
    case Raise(w, fd, evt) => VisitSignals(StartSet(s, fd, evt), w, fd, 0, t);
    case Walk(w) => VisitSignals(s, w, s.walkers[w].fd, NextPosition(s, w), t);
    case _ =>
  }

  /** The socket after the event was set. */
  function StartSet(s: State, fd: nat, evt: Event): State
    requires fd in s.socks
  {
    s.(socks := s.socks[fd := SetEvent(s.socks[fd], evt)])
  }

  lemma VisitSignals(s: State, w: nat, fd: nat, k: nat, t: nat)
    requires k <= |s.list| && fd in s.socks && t in s.threads && !s.threads[t].signalled
    requires forall u :: u in s.list ==> u in s.threads
    ensures var s' := Visit(s, w, fd, k); s'.socks == s.socks && t in s'.threads
    ensures Visit(s, w, fd, k).threads[t].signalled ==> Matches(s.threads[t].want, fd, s.socks[fd])
  {
  }
}
