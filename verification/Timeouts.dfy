/**
  The timeout list of lwIP (timers.c).  Every element stores its time relative to the
  element before it; this module says what the operations do to such a list and shows
  that it stands for a set of absolute deadlines.

  Times are assumed to fit in 32 bits.  `id` numbers the successful calls of
  sys_timeout; the source has no such field, it only serves to say who came first.
*/
module Timeouts {
  datatype Timeo = Timeo(time: int, h: nat, arg: int, id: nat)

  datatype Due = Due(at: int, h: nat, arg: int, id: nat)

  // ------------------------------------------------------------ the operations

  /** sys_timeout with t.time milliseconds to go */
  function Insert(list: seq<Timeo>, t: Timeo): seq<Timeo>
    decreases |list|
  {
    if list == [] then [t]
    else if list[0].time > t.time then [t, list[0].(time := list[0].time - t.time)] + list[1..]
    else [list[0]] + Insert(list[1..], t.(time := t.time - list[0].time))
  }

  /** sys_untimeout */
  function Remove(list: seq<Timeo>, h: nat, arg: int): seq<Timeo>
    decreases |list|
  {
    if list == [] then []
    else if list[0].h == h && list[0].arg == arg then
      if |list| == 1 then [] else [list[1].(time := list[1].time + list[0].time)] + list[2..]
    else [list[0]] + Remove(list[1..], h, arg)
  }

  /** A message came after `elapsed` milliseconds. */
  function Elapse(list: seq<Timeo>, elapsed: nat): seq<Timeo> {
    if list == [] then []
    else [list[0].(time := if elapsed < list[0].time then list[0].time - elapsed else 0)] + list[1..]
  }

  /** No stored time is negative, so no subtraction on unsigned times went below zero. */
  predicate NoNegative(list: seq<Timeo>) {
    forall i :: 0 <= i < |list| ==> list[i].time >= 0
  }

  // ------------------------------------------------------- absolute deadlines

  /** The list read from the moment `base` on. */
  function Deadlines(base: int, list: seq<Timeo>): (ds: seq<Due>)
    ensures |ds| == |list|
    decreases |list|
  {
    if list == [] then []
    else
      var at := base + list[0].time;
      [Due(at, list[0].h, list[0].arg, list[0].id)] + Deadlines(at, list[1..])
  }

  /** d goes behind everything due at the same time or before. */
  function InsertDue(ds: seq<Due>, d: Due): seq<Due>
    decreases |ds|
  {
    if ds == [] || ds[0].at > d.at then [d] + ds else [ds[0]] + InsertDue(ds[1..], d)
  }

  /** The first entry of that handler and argument goes. */
  function RemoveDue(ds: seq<Due>, h: nat, arg: int): seq<Due>
    decreases |ds|
  {
    if ds == [] then []
    else if ds[0].h == h && ds[0].arg == arg then ds[1..]
    else [ds[0]] + RemoveDue(ds[1..], h, arg)
  }

  /** Arming a timeout adds its deadline and changes no other. */
  lemma {:induction false} InsertDeadlines(base: int, list: seq<Timeo>, t: Timeo)
    ensures Deadlines(base, Insert(list, t)) == InsertDue(Deadlines(base, list), Due(base + t.time, t.h, t.arg, t.id))
    decreases |list|
  {
    if list == [] {
      assert [t][1..] == [];
    } else if list[0].time > t.time {
      var cut := list[0].(time := list[0].time - t.time);
      assert ([t, cut] + list[1..])[1..] == [cut] + list[1..];
      assert ([cut] + list[1..])[1..] == list[1..];
    } else {
      var rest := Insert(list[1..], t.(time := t.time - list[0].time));
      assert ([list[0]] + rest)[1..] == rest;
      InsertDeadlines(base + list[0].time, list[1..], t.(time := t.time - list[0].time));
    }
  }

  /** Cancelling a timeout takes its deadline out and changes no other. */
  lemma {:induction false} RemoveDeadlines(base: int, list: seq<Timeo>, h: nat, arg: int)
    ensures Deadlines(base, Remove(list, h, arg)) == RemoveDue(Deadlines(base, list), h, arg)
    decreases |list|
  {
    if list != [] {
      if list[0].h == h && list[0].arg == arg {
        if |list| > 1 {
          var first := list[1].(time := list[1].time + list[0].time);
          assert ([first] + list[2..])[1..] == list[2..] == list[1..][1..];
        }
      } else {
        var rest := Remove(list[1..], h, arg);
        assert ([list[0]] + rest)[1..] == rest;
        RemoveDeadlines(base + list[0].time, list[1..], h, arg);
      }
    }
  }

  /** Waiting moves the base, at most up to the first deadline, and no deadline. */
  lemma ElapseDeadlines(base: int, list: seq<Timeo>, elapsed: nat)
    requires list != []
    ensures var run := if elapsed < list[0].time then elapsed else list[0].time;
      Deadlines(base + run, Elapse(list, elapsed)) == Deadlines(base, list)
  {
    assert Elapse(list, elapsed)[1..] == list[1..];
  }

  /** Taking the head off at its deadline changes no other deadline. */
  lemma PopDeadlines(base: int, list: seq<Timeo>)
    requires list != []
    ensures Deadlines(base + list[0].time, list[1..]) == Deadlines(base, list)[1..]
  {
  }

  lemma {:induction false} InsertNoNegative(list: seq<Timeo>, t: Timeo)
    requires NoNegative(list) && t.time >= 0
    ensures NoNegative(Insert(list, t))
    decreases |list|
  {
    if list != [] && list[0].time <= t.time {
      InsertNoNegative(list[1..], t.(time := t.time - list[0].time));
    }
  }

  lemma {:induction false} RemoveNoNegative(list: seq<Timeo>, h: nat, arg: int)
    requires NoNegative(list)
    ensures NoNegative(Remove(list, h, arg))
    decreases |list|
  {
    if list != [] && !(list[0].h == h && list[0].arg == arg) {
      RemoveNoNegative(list[1..], h, arg);
    }
  }

  // --------------------------------------------------------- a set of deadlines

  /** Earlier deadlines first, equal ones in the order of arming. */
  predicate Before(a: Due, b: Due) {
    a.at < b.at || (a.at == b.at && a.id < b.id)
  }

  predicate Ordered(ds: seq<Due>) {
    forall i, j :: 0 <= i < j < |ds| ==> Before(ds[i], ds[j])
  }

  function Elements(ds: seq<Due>): set<Due> {
    set d | d in ds
  }

  lemma OrderedTail(ds: seq<Due>)
    requires Ordered(ds) && ds != []
    ensures Ordered(ds[1..]) && Elements(ds[1..]) == Elements(ds) - {ds[0]}
    ensures forall d :: d in Elements(ds[1..]) ==> Before(ds[0], d)
  {
    forall i, j | 0 <= i < j < |ds[1..]| ensures Before(ds[1..][i], ds[1..][j]) {
      assert Before(ds[i + 1], ds[j + 1]);
    }
    forall d ensures d in ds <==> d == ds[0] || d in ds[1..] {
      assert ds == [ds[0]] + ds[1..];
    }
    forall d | d in ds[1..] ensures Before(ds[0], d) {
      var k :| 0 <= k < |ds[1..]| && ds[1..][k] == d;
      assert Before(ds[0], ds[k + 1]);
    }
  }

  lemma OrderedCons(a: Due, ds: seq<Due>)
    requires Ordered(ds) && forall d :: d in Elements(ds) ==> Before(a, d)
    ensures Ordered([a] + ds) && Elements([a] + ds) == Elements(ds) + {a}
  {
    var all := [a] + ds;
    forall i, j | 0 <= i < j < |all| ensures Before(all[i], all[j]) {
      assert all[j] == ds[j - 1] && ds[j - 1] in Elements(ds);
      if i > 0 { assert Before(ds[i - 1], ds[j - 1]); }
    }
  }

  /** A new deadline, armed after all others, finds its place in the order. */
  lemma {:induction false} InsertOrdered(ds: seq<Due>, d: Due)
    requires Ordered(ds) && forall e :: e in Elements(ds) ==> e.id < d.id
    ensures Ordered(InsertDue(ds, d)) && Elements(InsertDue(ds, d)) == Elements(ds) + {d}
    decreases |ds|
  {
    if ds == [] {
      OrderedCons(d, ds);
    } else {
      OrderedTail(ds);
      assert ds[0] in Elements(ds);
      if ds[0].at > d.at {
        OrderedCons(d, ds);
      } else {
        InsertOrdered(ds[1..], d);
        OrderedCons(ds[0], InsertDue(ds[1..], d));
      }
    }
  }

  predicate Matches(d: Due, h: nat, arg: int) {
    d.h == h && d.arg == arg
  }

  /** d is the first of the deadlines with that handler and argument. */
  predicate IsFirst(pending: set<Due>, h: nat, arg: int, d: Due) {
    d in pending && Matches(d, h, arg) && forall e :: e in pending && Matches(e, h, arg) ==> e == d || Before(d, e)
  }

  /** What cancelling leaves of a set of deadlines. */
  ghost predicate Cancelled(pending: set<Due>, h: nat, arg: int, left: set<Due>) {
    if forall d :: d in pending ==> !Matches(d, h, arg) then left == pending
    else exists d :: IsFirst(pending, h, arg, d) && left == pending - {d}
  }

  /** A deadline that does not match plays no part in cancelling. */
  lemma CancelledCons(a: Due, less: set<Due>, h: nat, arg: int, left: set<Due>)
    requires Cancelled(less, h, arg, left) && !Matches(a, h, arg) && a !in less
    ensures Cancelled(less + {a}, h, arg, left + {a})
    ensures left <= less
  {
    if d :| d in less && Matches(d, h, arg) {
      var e :| IsFirst(less, h, arg, e) && left == less - {e};
      assert d in less + {a};
      assert IsFirst(less + {a}, h, arg, e) && left + {a} == less + {a} - {e};
    }
  }

  lemma {:induction false} RemoveOrdered(ds: seq<Due>, h: nat, arg: int)
    requires Ordered(ds)
    ensures Ordered(RemoveDue(ds, h, arg)) && Cancelled(Elements(ds), h, arg, Elements(RemoveDue(ds, h, arg)))
    ensures |RemoveDue(ds, h, arg)| ==
      if forall d :: d in Elements(ds) ==> !Matches(d, h, arg) then |ds| else |ds| - 1
    decreases |ds|
  {
    if ds != [] {
      OrderedTail(ds);
      var a, all, less := ds[0], Elements(ds), Elements(ds[1..]);
      assert a in all && all == less + {a};
      if Matches(a, h, arg) {
        assert IsFirst(all, h, arg, a);
      } else {
        RemoveOrdered(ds[1..], h, arg);
        CancelledCons(a, less, h, arg, Elements(RemoveDue(ds[1..], h, arg)));
        OrderedCons(a, RemoveDue(ds[1..], h, arg));
      }
    }
  }

  // ------------------------------------------------------------------- runs

  datatype Fired = Fired(due: Due, ran: int)

  /**
    The list with `room` free list elements, the number of sys_timeout calls that got
    one, and what happened so far.  `clock` is the base of the list; `now` is real time.
    `start` says, by call, when its timeout was asked to run in real time.
  */
  datatype State = State(list: seq<Timeo>, room: nat, calls: nat, clock: int, now: int,
                         start: map<nat, int>, log: seq<Fired>)

  datatype Op =
    | Timeout(msecs: nat, h: nat, arg: int)    // sys_timeout
    | Untimeout(h: nat, arg: int)              // sys_untimeout
    | Message(elapsed: nat)                    // the mailbox gave a message
    | Expire(waited: nat)                      // the mailbox gave none in time: the first timeout runs
    | Work(elapsed: nat)                       // a handler or the thread works

  /** sys_arch_mbox_fetch reports a timeout only after the time asked for, and never for an
      empty list, where it is told to wait forever. */
  predicate Possible(s: State, op: Op) {
    match op
    case Expire(waited) => s.list != [] && waited >= s.list[0].time && (s.list[0].time == 0 ==> waited == 0)
    case Message(elapsed) => s.list != [] ==> s.list[0].time > 0
    case _ => true
  }

  function Step(s: State, op: Op): State
    requires Possible(s, op)
  {
    match op
    case Timeout(msecs, h, arg) =>
      if s.room == 0 then s
      else s.(list := Insert(s.list, Timeo(msecs, h, arg, s.calls)), room := s.room - 1, calls := s.calls + 1,
              start := s.start[s.calls := s.now + msecs])
    case Untimeout(h, arg) =>
      var list := Remove(s.list, h, arg);
      s.(list := list, room := if |list| < |s.list| then s.room + 1 else s.room)
    case Message(elapsed) =>
      s.(list := Elapse(s.list, elapsed), now := s.now + elapsed,
         clock := s.clock + if s.list != [] && elapsed >= s.list[0].time then s.list[0].time else elapsed)
    case Expire(waited) =>
      var at, t := s.clock + s.list[0].time, s.list[0];
      s.(list := s.list[1..], room := s.room + 1, clock := at, now := s.now + waited,
         log := s.log + [Fired(Due(at, t.h, t.arg, t.id), s.now + waited)])
    case Work(elapsed) => s.(now := s.now + elapsed)
  }

  /** The deadlines of the list. */
  function Pending(s: State): set<Due> {
    Elements(Deadlines(s.clock, s.list))
  }

  /**
    The specification: a set of deadlines.  Arming adds one, cancelling takes the first
    that matches, and what runs is the first of all, when the clock has come to it.
  */
  ghost predicate SetStep(clock: int, pending: set<Due>, op: Op, s': State, armed: bool, call: nat) {
    match op
    case Timeout(msecs, h, arg) =>
      s'.clock == clock && Pending(s') == if armed then pending + {Due(clock + msecs, h, arg, call)} else pending
    case Untimeout(h, arg) => s'.clock == clock && Cancelled(pending, h, arg, Pending(s'))
    case Expire(_) =>
      && s'.log != [] && s'.log[|s'.log| - 1].due in pending
      && var d := s'.log[|s'.log| - 1].due;
         (forall e :: e in pending && e != d ==> Before(d, e)) && Pending(s') == pending - {d} && s'.clock == d.at >= clock
    case _ => Pending(s') == pending && s'.clock >= clock && forall e :: e in pending ==> e.at >= s'.clock
  }

  /** A deadline is known by its call, is not past, and is not before the moment asked for. */
  predicate DueOk(s: State, d: Due) {
    d.id < s.calls && d.id in s.start && d.at >= s.clock && s.start[d.id] <= d.at + (s.now - s.clock)
  }

  /** What ran had its deadline by now, was not early, and comes before all that is pending. */
  ghost predicate FiredOk(s: State, f: Fired) {
    && f.due.at <= s.clock && f.due.id < s.calls && f.due.id in s.start && f.ran >= s.start[f.due.id]
    && forall d :: d in Pending(s) ==> Before(f.due, d)
  }

  ghost predicate Inv(s: State) {
    && NoNegative(s.list) && Ordered(Deadlines(s.clock, s.list))
    && (forall d :: d in Pending(s) ==> DueOk(s, d))
    && (forall k :: 0 <= k < |s.log| ==> FiredOk(s, s.log[k]))
    && (forall i, j :: 0 <= i < j < |s.log| ==> Before(s.log[i].due, s.log[j].due))
  }

  lemma TimeoutKeeps(s: State, msecs: nat, h: nat, arg: int)
    requires Inv(s)
    ensures var s' := Step(s, Timeout(msecs, h, arg));
      Inv(s') && SetStep(s.clock, Pending(s), Timeout(msecs, h, arg), s', s.room > 0, s.calls)
  {
    if s.room > 0 {
      var t, s' := Timeo(msecs, h, arg, s.calls), Step(s, Timeout(msecs, h, arg));
      var d := Due(s.clock + msecs, h, arg, s.calls);
      InsertDeadlines(s.clock, s.list, t);
      InsertNoNegative(s.list, t);
      forall e | e in Pending(s) ensures e.id < d.id { assert DueOk(s, e); }
      InsertOrdered(Deadlines(s.clock, s.list), d);
      forall e | e in Pending(s') ensures DueOk(s', e) {
        if e != d { assert DueOk(s, e); }
      }
      forall k | 0 <= k < |s'.log| ensures FiredOk(s', s'.log[k]) {
        assert FiredOk(s, s.log[k]);
        forall e | e in Pending(s') ensures Before(s.log[k].due, e) { }
      }
    }
  }

  lemma UntimeoutKeeps(s: State, h: nat, arg: int)
    requires Inv(s)
    ensures var s' := Step(s, Untimeout(h, arg));
      Inv(s') && SetStep(s.clock, Pending(s), Untimeout(h, arg), s', false, 0)
  {
    var s' := Step(s, Untimeout(h, arg));
    RemoveDeadlines(s.clock, s.list, h, arg);
    RemoveNoNegative(s.list, h, arg);
    RemoveOrdered(Deadlines(s.clock, s.list), h, arg);
    assert Pending(s') <= Pending(s);
    forall e | e in Pending(s') ensures DueOk(s', e) { assert DueOk(s, e); }
    forall k | 0 <= k < |s'.log| ensures FiredOk(s', s'.log[k]) { assert FiredOk(s, s.log[k]); }
  }

  /** The deadlines of a list without negative times are not before its base. */
  lemma {:induction false} NotPast(base: int, list: seq<Timeo>, d: Due)
    requires NoNegative(list) && d in Deadlines(base, list)
    ensures list != [] && d.at >= base + list[0].time
    decreases |list|
  {
    if list != [] {
      var at := base + list[0].time;
      if d in Deadlines(at, list[1..]) { NotPast(at, list[1..], d); }
    }
  }

  lemma MessageKeeps(s: State, elapsed: nat)
    requires Inv(s) && Possible(s, Message(elapsed))
    ensures var s' := Step(s, Message(elapsed));
      Inv(s') && SetStep(s.clock, Pending(s), Message(elapsed), s', false, 0)
  {
    var s' := Step(s, Message(elapsed));
    if s.list != [] { ElapseDeadlines(s.clock, s.list, elapsed); }
    forall e | e in Pending(s') ensures DueOk(s', e) {
      assert DueOk(s, e);
      NotPast(s.clock, s.list, e);
    }
    forall k | 0 <= k < |s'.log| ensures FiredOk(s', s'.log[k]) { assert FiredOk(s, s.log[k]); }
  }

  lemma ExpireKeeps(s: State, waited: nat)
    requires Inv(s) && Possible(s, Expire(waited))
    ensures var s' := Step(s, Expire(waited));
      Inv(s') && SetStep(s.clock, Pending(s), Expire(waited), s', false, 0)
  {
    var s', ds := Step(s, Expire(waited)), Deadlines(s.clock, s.list);
    var f := s'.log[|s.log|];
    PopDeadlines(s.clock, s.list);
    OrderedTail(ds);
    assert f.due == ds[0] && ds[0] in Pending(s) && DueOk(s, ds[0]);
    forall e | e in Pending(s') ensures DueOk(s', e) {
      assert DueOk(s, e) && Before(f.due, e);
    }
    forall k | 0 <= k < |s'.log| ensures FiredOk(s', s'.log[k]) {
      if k < |s.log| { assert FiredOk(s, s.log[k]); }
    }
    forall i, j | 0 <= i < j < |s'.log| ensures Before(s'.log[i].due, s'.log[j].due) {
      assert FiredOk(s, s.log[i]);
    }
  }

  /** Every step is a step of the set of deadlines. */
  lemma StepRefines(s: State, op: Op)
    requires Inv(s) && Possible(s, op)
    ensures Inv(Step(s, op)) && SetStep(s.clock, Pending(s), op, Step(s, op), s.room > 0, s.calls)
  {
    match op
    case Timeout(msecs, h, arg) => TimeoutKeeps(s, msecs, h, arg);
    case Untimeout(h, arg) => UntimeoutKeeps(s, h, arg);
    case Message(elapsed) => MessageKeeps(s, elapsed);
    case Expire(waited) => ExpireKeeps(s, waited);
    case Work(elapsed) =>
      var s' := Step(s, op);
      forall e | e in Pending(s') ensures DueOk(s', e) { assert DueOk(s, e); }
      forall k | 0 <= k < |s'.log| ensures FiredOk(s', s'.log[k]) { assert FiredOk(s, s.log[k]); }
  }

  ghost predicate IsRun(run: seq<State>, ops: seq<Op>) {
    && |run| == |ops| + 1 && run[0].list == [] && run[0].log == [] && run[0].clock == run[0].now
    && forall i :: 0 <= i < |ops| ==> Possible(run[i], ops[i]) && run[i + 1] == Step(run[i], ops[i])
  }

  lemma {:induction false} RunKeeps(run: seq<State>, ops: seq<Op>, i: nat)
    requires IsRun(run, ops) && i < |run|
    ensures Inv(run[i])
  {
    if i > 0 {
      RunKeeps(run, ops, i - 1);
      StepRefines(run[i - 1], ops[i - 1]);
    }
  }

  /** In every run timeouts run in deadline order, equal deadlines first in first out, and
      none before the time it was armed for has passed. */
  lemma FiringOrder(run: seq<State>, ops: seq<Op>, i: nat)
    requires IsRun(run, ops) && i < |run|
    ensures forall k, l :: 0 <= k < l < |run[i].log| ==>
      var a, b := run[i].log[k].due, run[i].log[l].due;
      a.at < b.at || (a.at == b.at && a.id < b.id)
    ensures forall k :: 0 <= k < |run[i].log| ==>
      run[i].log[k].due.id in run[i].start && run[i].log[k].ran >= run[i].start[run[i].log[k].due.id]
  {
    RunKeeps(run, ops, i);
    forall k | 0 <= k < |run[i].log|
      ensures run[i].log[k].due.id in run[i].start && run[i].log[k].ran >= run[i].start[run[i].log[k].due.id]
    {
      assert FiredOk(run[i], run[i].log[k]);
    }
    forall k, l | 0 <= k < l < |run[i].log| ensures Before(run[i].log[k].due, run[i].log[l].due) { }
  }

  /** In every run no stored time is negative and list elements are neither lost nor made. */
  lemma {:induction false} ElementsConserved(run: seq<State>, ops: seq<Op>, i: nat)
    requires IsRun(run, ops) && i < |run|
    ensures NoNegative(run[i].list) && |run[i].list| + run[i].room == run[0].room
  {
    RunKeeps(run, ops, i);
    if i > 0 {
      ElementsConserved(run, ops, i - 1);
      RunKeeps(run, ops, i - 1);
      var s := run[i - 1];
      match ops[i - 1]
      case Timeout(msecs, h, arg) => InsertDeadlines(s.clock, s.list, Timeo(msecs, h, arg, s.calls)); InsertLength(s.list, Timeo(msecs, h, arg, s.calls));
      case Untimeout(h, arg) =>
        RemoveDeadlines(s.clock, s.list, h, arg);
        RemoveOrdered(Deadlines(s.clock, s.list), h, arg);
      case _ =>
    }
  }

  lemma {:induction false} InsertLength(list: seq<Timeo>, t: Timeo)
    ensures |Insert(list, t)| == |list| + 1
    decreases |list|
  {
    if list != [] && list[0].time <= t.time {
      InsertLength(list[1..], t.(time := t.time - list[0].time));
    }
  }
}
