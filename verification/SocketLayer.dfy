/**
  The pointer-level form of the select protocol: `lwip_select` links its
  `lwip_select_cb` into a doubly linked list and unlinks it, `event_callback`
  follows `next` pointers.  Every method is one protect..unprotect stretch and
  is proved to be the step of the same name in Select.dfy.
*/
module SocketLayer {
  import opened Common
  import opened Select

  type Links = map<nat, Option<nat>>

  function At(list: seq<nat>, i: int): Option<nat> {
    if 0 <= i < |list| then Some(list[i]) else None
  }

  ghost predicate Forward(list: seq<nat>, next: Links) {
    && (forall i :: 0 <= i < |list| ==> list[i] in next)
    && (forall i {:trigger next[list[i]]} :: 0 <= i < |list| ==> next[list[i]] == At(list, i + 1))
  }

  ghost predicate Backward(list: seq<nat>, prev: Links) {
    && (forall i :: 0 <= i < |list| ==> list[i] in prev)
    && (forall i {:trigger prev[list[i]]} :: 0 <= i < |list| ==> prev[list[i]] == At(list, i - 1))
  }

  /** The pointers spell out exactly `list`, forwards and backwards. */
  ghost predicate SpellOut(list: seq<nat>, head: Option<nat>, next: Links, prev: Links) {
    head == At(list, 0) && Forward(list, next) && Backward(list, prev)
  }

  /** The pointer assignments of pushing `t` spell out [t] + list. */
  lemma PushSpells(list: seq<nat>, head: Option<nat>, next: Links, prev: Links, t: nat)
    requires SpellOut(list, head, next, prev) && Distinct(list) && t !in list
    ensures var p := prev[t := None];
      SpellOut([t] + list, Some(t), next[t := head], if head.Some? then p[head.value := Some(t)] else p)
  {
  }

  /** The pointer assignments of unlinking `t` spell out the list without t. */
  lemma UnlinkSpells(list: seq<nat>, head: Option<nat>, next: Links, prev: Links, t: nat)
    requires SpellOut(list, head, next, prev) && Distinct(list) && t in list
    ensures t in next && t in prev && (head != Some(t) ==> prev[t].Some?)
    ensures SpellOut(Without(list, t),
      if head == Some(t) then next[t] else head,
      if head == Some(t) then next else next[prev[t].value := next[t]],
      if next[t].Some? then prev[next[t].value := prev[t]] else prev)
  {
    var k := IndexOf(list, t);
    assert list[k] == t && next[list[k]] == At(list, k + 1) && prev[list[k]] == At(list, k as int - 1);
    var r := WithoutIs(list, t);
    UnlinkForward(list, next, k, r);
    UnlinkBackward(list, prev, k, r);
  }

  ghost predicate IsWithout(list: seq<nat>, k: nat, r: seq<nat>) {
    |list| == |r| + 1 && forall i :: 0 <= i < |r| ==> r[i] == list[if i < k then i else i + 1]
  }

  lemma WithoutIs(list: seq<nat>, t: nat) returns (r: seq<nat>)
    requires t in list
    ensures r == Without(list, t) && IsWithout(list, IndexOf(list, t), r)
  {
    r := Without(list, t);
  }

  lemma UnlinkForward(list: seq<nat>, next: Links, k: nat, r: seq<nat>)
    requires Forward(list, next) && Distinct(list) && k < |list| && IsWithout(list, k, r)
    ensures Forward(r, if k == 0 then next else next[list[k - 1] := At(list, k + 1)])
  {
    var next' := if k == 0 then next else next[list[k - 1] := At(list, k + 1)];
    forall i | 0 <= i < |r| ensures r[i] in next' && next'[r[i]] == At(r, i + 1) {
      NextAfter(list, next, k, r, i);
    }
  }

  lemma NextAfter(list: seq<nat>, next: Links, k: nat, r: seq<nat>, i: nat)
    requires Forward(list, next) && k < |list| && IsWithout(list, k, r) && i < |r|
    requires k > 0 ==> forall j :: 0 <= j < |list| && list[j] == list[k - 1] ==> j == k - 1
    ensures var next' := if k == 0 then next else next[list[k - 1] := At(list, k + 1)];
            r[i] in next' && next'[r[i]] == At(r, i + 1)
  {
    var j := if i < k then i else i + 1;
    assert r[i] == list[j] && next[list[j]] == At(list, j + 1);
    if j + 1 == k {
      assert At(r, i + 1) == At(list, k + 1);
    } else {
      assert k != 0 ==> list[j] != list[k - 1];
      assert At(r, i + 1) == At(list, j + 1);
    }
  }

  lemma UnlinkBackward(list: seq<nat>, prev: Links, k: nat, r: seq<nat>)
    requires Backward(list, prev) && Distinct(list) && k < |list| && IsWithout(list, k, r)
    ensures Backward(r, if k + 1 == |list| then prev else prev[list[k + 1] := At(list, k - 1)])
  {
    var prev' := if k + 1 == |list| then prev else prev[list[k + 1] := At(list, k - 1)];
    forall i | 0 <= i < |r| ensures r[i] in prev' && prev'[r[i]] == At(r, i - 1) {
      assert prev[list[if i < k then i else i + 1]] == prev[r[i]];
    }
  }

  /** The step of event_callback up to its first unprotect. */
  lemma RaisePlan(s: State, w: nat, fd: nat, evt: Event) returns (s': State)
    requires Inv(s) && Enabled(s, Raise(w, fd, evt))
    ensures fd in s.socks && forall t :: t in s.list ==> t in s.threads
    ensures s' == Apply(s, Raise(w, fd, evt)) == StartWalk(s, w, fd, evt) && Inv(s')
  {
    RaiseKeeps(s, w, fd, evt);
    s' := StartWalk(s, w, fd, evt);
  }

  class Layer {
    var socks: map<nat, Sock>
    var threads: map<nat, Thread>      // the select_cb structures on the list, by address
    var next: map<nat, Option<nat>>    // their next pointers
    var prev: map<nat, Option<nat>>    // their prev pointers
    var head: Option<nat>              // select_cb_list
    var ctr: nat
    var walkers: map<nat, Walker>
    ghost var list: seq<nat>

    ghost function Abs(): State
      reads this
    {
      State(socks, threads, list, ctr, walkers)
    }

    ghost predicate Linked()
      reads this
    {
      SpellOut(list, head, next, prev)
    }

    ghost predicate Valid()
      reads this
    {
      Inv(Abs()) && Linked()
    }

    constructor (socks: map<nat, Sock>)
      requires forall fd :: fd in socks ==> socks[fd].waiting == 0
      ensures Valid() && Init(Abs()) && this.socks == socks
    {
      this.socks := socks;
      threads, next, prev, walkers := map[], map[], map[], map[];
      head, ctr, list := None, 0, [];
      new;
      RunKeeps([Abs()], []);
    }

    method Link(t: nat)
      requires Linked() && Distinct(list) && t !in list
      modifies this`next, this`prev, this`head, this`list
      ensures Linked() && list == [t] + old(list)
    {
      PushSpells(list, head, next, prev, t);
      prev := prev[t := None];
      next := next[t := head];
      if head.Some? {
        prev := prev[head.value := Some(t)];
      }
      head := Some(t);
      list := [t] + list;
    }

    method Unlink(t: nat)
      requires Linked() && Distinct(list) && t in list
      modifies this`next, this`prev, this`head, this`list
      ensures Linked() && list == Without(old(list), t)
    {
      UnlinkSpells(list, head, next, prev, t);
      var n, p := next[t], prev[t];
      if n.Some? {
        prev := prev[n.value := p];
      }
      if head == Some(t) {
        head := n;
      } else {
        next := next[p.value := n];
      }
      list := Without(list, t);
    }

    /** Put a new select_cb on top of the list (lwip_select, first protected region). */
    method EnlistCb(t: nat, want: Want)
      requires Valid() && Enabled(Abs(), Enlist(t, want))
      modifies this
      ensures Valid() && Abs() == Apply(old(Abs()), Enlist(t, want))
    {
      ghost var s := Abs();
      assert t !in list;
      Link(t);
      threads := threads[t := Thread(want, Counting(0), false, 0)];
      ctr := ctr + 1;
      assert Abs() == Apply(s, Enlist(t, want));
      EnlistKeeps(s, t, want);
    }

    /** One turn of a loop of lwip_select: raise or lower select_waiting of descriptor i. */
    method PassSocket(t: nat, phase: Phase, i: nat, d: int)
      requires t in threads && (Watches(threads[t].want, i) ==> i in socks)
      modifies this`threads, this`socks
      ensures Abs() == Pass(old(Abs()), t, phase, i, d)
    {
      var want := threads[t].want;
      threads := threads[t := threads[t].(phase := phase)];
      if i < want.maxfd && (i in want.read || i in want.write || i in want.except) {
        socks := socks[i := socks[i].(waiting := socks[i].waiting + d)];
      }
    }

    method CountSocket(t: nat)
      requires t in threads && threads[t].phase.Counting?
      requires Watches(threads[t].want, threads[t].phase.i) ==> threads[t].phase.i in socks
      modifies this`threads, this`socks
      ensures Abs() == CountTurn(old(Abs()), t)
    {
      var i := threads[t].phase.i;
      if i >= threads[t].want.maxfd {
        threads := threads[t := threads[t].(phase := Scanning(0, false))];
      } else {
        PassSocket(t, Counting(i + 1), i, 1);
      }
    }

    /** Raise select_waiting of the next socket (lwip_select, first loop). */
    method CountCb(t: nat)
      requires Valid() && Enabled(Abs(), Count(t))
      modifies this
      ensures Valid() && Abs() == Apply(old(Abs()), Count(t))
    {
      ghost var s' := Apply(Abs(), Count(t));
      assert Inv(s') by { CountKeeps(Abs(), t); }
      CountSocket(t);
      assert Abs() == s';
    }

    method ScanSocket(t: nat)
      requires t in threads && threads[t].phase.Scanning?
      modifies this`threads
      ensures Abs() == ScanTurn(old(Abs()), t)
    {
      var th := threads[t];
      var i, nready := th.phase.i, th.phase.nready;
      if i >= th.want.maxfd {
        threads := threads[t := th.(phase := if nready then Uncounting(0) else Waiting)];
      } else {
        if i in socks {
          var sock := socks[i];
          if i in th.want.read && (sock.lastdata || sock.rcv > 0) { nready := true; }
          if i in th.want.write && sock.send { nready := true; }
          if i in th.want.except && sock.err { nready := true; }
        }
        threads := threads[t := th.(phase := Scanning(i + 1, nready))];
      }
    }

    /** Look at the next socket under the lock (lwip_selscan, second scan), or end the scan. */
    method ScanCb(t: nat)
      requires Valid() && Enabled(Abs(), Scan(t))
      modifies this
      ensures Valid() && Abs() == Apply(old(Abs()), Scan(t))
    {
      ghost var s' := Apply(Abs(), Scan(t));
      assert Inv(s') by { ScanKeeps(Abs(), t); }
      ScanSocket(t);
      assert Abs() == s';
    }

    method TakeToken(t: nat, timeout: bool)
      requires t in threads && (timeout || threads[t].sem > 0)
      modifies this`threads
      ensures Abs() == WakeTurn(old(Abs()), t, timeout)
    {
      threads := threads[t := threads[t].(phase := Uncounting(0))];
      if !timeout {
        threads := threads[t := threads[t].(sem := threads[t].sem - 1)];
      }
    }

    /** The wait for the semaphore ends, with a token or by a timeout. */
    method WakeCb(t: nat, timeout: bool)
      requires Valid() && Enabled(Abs(), Wake(t, timeout))
      modifies this
      ensures Valid() && Abs() == Apply(old(Abs()), Wake(t, timeout))
    {
      ghost var s' := Apply(Abs(), Wake(t, timeout));
      assert Inv(s') by { WakeKeeps(Abs(), t, timeout); }
      TakeToken(t, timeout);
      assert Abs() == s';
    }

    method UncountSocket(t: nat)
      requires Linked() && Distinct(list) && t in list && t in threads && threads[t].phase.Uncounting?
      requires Watches(threads[t].want, threads[t].phase.i) ==> threads[t].phase.i in socks
      modifies this
      ensures Linked() && Abs() == UncountTurn(old(Abs()), t)
    {
      var i := threads[t].phase.i;
      if i >= threads[t].want.maxfd {
        LeaveList(t);
      } else {
        PassSocket(t, Uncounting(i + 1), i, -1);
      }
    }

    /** Lower select_waiting of the next socket, or leave the list (lwip_select, last loop and
        last protected region). */
    method UncountCb(t: nat)
      requires Valid() && Enabled(Abs(), Uncount(t))
      modifies this
      ensures Valid() && Abs() == Apply(old(Abs()), Uncount(t))
    {
      ghost var s' := Apply(Abs(), Uncount(t));
      assert Inv(s') by { UncountKeeps(Abs(), t); }
      UncountSocket(t);
      assert Abs() == s';
    }

    /** Unlink a select_cb (lwip_select, last protected region). */
    method LeaveList(t: nat)
      requires Linked() && Distinct(list) && t in list
      modifies this
      ensures Linked() && Abs() == Leave(old(Abs()), t)
    {
      Unlink(t);
      ctr := ctr + 1;
      threads := threads - {t};
    }

    /** The test of event_callback and the signal, for one select_cb. */
    method Signal(t: nat, fd: nat)
      requires t in threads && fd in socks
      modifies this`threads
      ensures threads == old(threads)[t := Poke(old(threads)[t], fd, socks[fd])]
    {
      var th := threads[t];
      if !th.signalled {
        var doSignal := false;
        if socks[fd].rcv > 0 {
          if fd in th.want.read { doSignal := true; }
        }
        if socks[fd].send {
          if !doSignal && fd in th.want.write { doSignal := true; }
        }
        if socks[fd].err {
          if !doSignal && fd in th.want.except { doSignal := true; }
        }
        if doSignal {
          th := th.(signalled := true, sem := th.sem + 1);
        }
      }
      threads := threads[t := th];
    }

    /** The loop body of event_callback for the element `scb` points to. */
    method VisitCb(w: nat, fd: nat, scb: Option<nat>, ghost k: nat)
      requires fd in socks && k <= |list| && scb == At(list, k)
      requires forall t :: t in list ==> t in threads
      modifies this`threads, this`walkers
      ensures Abs() == Visit(old(Abs()), w, fd, k)
    {
      if scb.None? {
        walkers := walkers - {w};
      } else {
        Signal(scb.value, fd);
        walkers := walkers[w := Walker(fd, scb.value, ctr)];
      }
    }

    method SetAndVisit(w: nat, fd: nat, evt: Event)
      requires fd in socks && head == At(list, 0)
      requires forall t :: t in list ==> t in threads
      modifies this`socks, this`threads, this`walkers
      ensures Abs() == StartWalk(old(Abs()), w, fd, evt)
    {
      var sock := socks[fd];
      match evt {
        case RcvPlus => sock := sock.(rcv := sock.rcv + 1);
        case RcvMinus => sock := sock.(rcv := sock.rcv - 1);
        case SendPlus => sock := sock.(send := true);
        case SendMinus => sock := sock.(send := false);
        case Error => sock := sock.(err := true);
      }
      socks := socks[fd := sock];
      if sock.waiting != 0 {
        VisitCb(w, fd, head, 0);
      }
    }

    lemma HeadOfList()
      requires Linked()
      ensures head == At(list, 0)
    {
    }

    /** event_callback from its entry to its first unprotect. */
    method RaiseEvent(w: nat, fd: nat, evt: Event)
      requires Valid() && Enabled(Abs(), Raise(w, fd, evt))
      modifies this
      ensures Valid() && Abs() == Apply(old(Abs()), Raise(w, fd, evt))
    {
      ghost var s' := RaisePlan(Abs(), w, fd, evt);
      HeadOfList();
      SetAndVisit(w, fd, evt);
      assert Abs() == s';
    }

    method FollowPointer(w: nat)
      requires Linked() && w in walkers && walkers[w].fd in socks
      requires forall t :: t in list ==> t in threads
      requires walkers[w].seen == ctr ==> walkers[w].scb in list
      modifies this`threads, this`walkers
      ensures Abs() == Visit(old(Abs()), w, old(walkers[w]).fd, NextPosition(old(Abs()), w))
    {
      var me := walkers[w];
      if me.seen != ctr {
        VisitCb(w, me.fd, head, 0);
      } else {
        VisitCb(w, me.fd, next[me.scb], IndexOf(list, me.scb) + 1);
      }
    }

    /** event_callback from a protect to the next unprotect: restart or follow scb->next. */
    method WalkOn(w: nat)
      requires Valid() && w in walkers
      modifies this
      ensures Valid() && Abs() == Apply(old(Abs()), Walk(w))
    {
      ghost var s' := Apply(Abs(), Walk(w));
      assert Inv(s') by { WalkKeeps(Abs(), w); }
      FollowPointer(w);
      assert Abs() == s';
    }
  }
}
