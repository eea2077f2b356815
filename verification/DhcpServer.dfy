/**
  The functions of dhcp_server.c over the array of clients, which they scan with loops
  and update in place, each proved to do to the table what Dhcp.dfy specifies.
*/
module DhcpServer {
  import opened Common
  import opened Dhcp

  class Server {
    const clients: array<Client>
    const self: nat               // ServerIpAddr

    ghost predicate Valid()
      reads this, clients
    {
      clients.Length == CLIENTS && Inv(clients[..])
    }

    /** The table of DHCPS_Start. */
    constructor (net: nat, host: nat, size: nat, self: nat)
      requires size > 0
      ensures fresh(clients) && clients[..] == Started(Pool(net, host, size)) && this.self == self
      ensures Distinct(Pool(net, host, size)) ==> Valid()
    {
      clients := new Client[CLIENTS](_ => Client(IDLE, 0, 0, 0, LEASE));
      this.self := self;
      new;
      var first := (host + 1) % size;
      if first == 0 { first := 1; }
      var i := 0;
      while i < CLIENTS
        invariant 0 <= i <= CLIENTS
        invariant forall k :: 0 <= k < i ==> clients[k] == Client(IDLE, 0, net + HostPart(host, size, k), 0, LEASE)
      {
        var part := (first + i) % size;
        if part == 0 { part := 1; }
        clients[i] := Client(IDLE, 0, net + part, 0, LEASE);
        i := i + 1;
      }
      assert clients[..] == Started(Pool(net, host, size));
      if Distinct(Pool(net, host, size)) {
        RunKeeps([clients[..]], [], Pool(net, host, size), self, 0);
      }
    }

    /** The loop of _ClientTableLookup: the first entry of each kind, the sender's own entry,
        and whether the address is taken. */
    method Scan(m: Message) returns (mine: Option<nat>, history: Option<nat>, requested: Option<nat>,
                                     unused: Option<nat>, other: Option<nat>, taken: bool)
      requires clients.Length == CLIENTS
      ensures mine == Mine(clients[..], m, CLIENTS) && taken == Taken(clients[..], m, CLIENTS)
      ensures history == First(clients[..], MyHistory, m, CLIENTS) && requested == First(clients[..], Requested, m, CLIENTS)
      ensures unused == First(clients[..], Unused, m, CLIENTS) && other == First(clients[..], History, m, CLIENTS)
    {
      mine, history, requested, unused, other, taken := None, None, None, None, None, false;
      var i := 0;
      while i < CLIENTS
        invariant 0 <= i <= CLIENTS
        invariant mine == Mine(clients[..], m, i) && taken == Taken(clients[..], m, i)
        invariant history == First(clients[..], MyHistory, m, i) && requested == First(clients[..], Requested, m, i)
        invariant unused == First(clients[..], Unused, m, i) && other == First(clients[..], History, m, i)
      {
        var c := clients[i];
        TakenNext(clients[..], m, i);
        if c.state == IDLE {
          if history.None? && c.mac == m.mac { history := Some(i); }
          if requested.None? && c.ip == m.ip { requested := Some(i); }
          if unused.None? && c.mac == 0 { unused := Some(i); }
          if other.None? && c.mac != 0 { other := Some(i); }
        } else {
          if c.mac == m.mac {
            mine := Some(i);
          } else if c.ip == m.ip {
            taken := true;
          }
        }
        i := i + 1;
      }
    }

    /** Give an entry up. */
    method GiveUp(i: nat)
      requires i < clients.Length
      modifies clients
      ensures clients[..] == Drop(old(clients[..]), i)
    {
      if clients[i].state != BIND {
        clients[i] := clients[i].(mac := 0);
      }
      clients[i] := clients[i].(state := IDLE);
    }

    /** The DISCOVER case of _ClientTableLookup. */
    method LookupDiscover(m: Message) returns (r: Option<nat>)
      requires clients.Length == CLIENTS && m.kind == Discover
      modifies clients
      ensures clients[..] == Choose(old(clients[..]), m, self).0 && r == Choose(old(clients[..]), m, self).1
    {
      var mine, history, requested, unused, other, taken := Scan(m);
      if mine.Some? {
        clients[mine.value] := clients[mine.value].(state := IDLE);
        if requested.Some? {
          if clients[mine.value].state != BIND {
            clients[mine.value] := clients[mine.value].(mac := 0);
          }
          r := requested;
        } else {
          r := mine;
        }
      } else if requested.Some? {
        r := requested;
      } else if history.Some? {
        r := history;
      } else if unused.Some? {
        r := unused;
      } else {
        r := other;
      }
    }

    /** The REQUEST case. */
    method LookupRequest(m: Message) returns (r: Option<nat>)
      requires clients.Length == CLIENTS && m.kind == Request
      modifies clients
      ensures clients[..] == Choose(old(clients[..]), m, self).0 && r == Choose(old(clients[..]), m, self).1
    {
      var mine, history, requested, unused, other, taken := Scan(m);
      var forMe := m.server == 0 || m.server == self;
      r := None;
      if mine.Some? {
        if taken {
          GiveUp(mine.value);
        } else if requested.Some? {
          GiveUp(mine.value);
          if forMe { r := requested; }
        } else if forMe {
          r := mine;
        }
      } else if !taken && forMe {
        r := requested;
      }
    }

    /** The RELEASE and DECLINE cases. */
    method LookupGiveUp(m: Message) returns (r: Option<nat>)
      requires clients.Length == CLIENTS && (m.kind == Release || m.kind == Decline)
      modifies clients
      ensures clients[..] == Choose(old(clients[..]), m, self).0 && r == Choose(old(clients[..]), m, self).1
    {
      var mine, history, requested, unused, other, taken := Scan(m);
      if mine.Some? {
        GiveUp(mine.value);
      }
      r := None;
    }

    /** _ClientTableLookup */
    method Lookup(m: Message) returns (r: Option<nat>)
      requires clients.Length == CLIENTS
      modifies clients
      ensures r.Some? ==> r.value < CLIENTS
      ensures Choose(old(clients[..]), m, self).1 == r
      ensures var t := Choose(old(clients[..]), m, self).0;
        && (r.None? ==> clients[..] == t)
        && (r.Some? && r.value < |t| ==> clients[..] == t[r.value := t[r.value].(mac := m.mac)])
    {
      match m.kind {
        case Discover => r := LookupDiscover(m);
        case Request => r := LookupRequest(m);
        case OtherType => r := None;
        case _ => r := LookupGiveUp(m);
      }
      ghost var t := clients[..];
      if r.Some? {
        clients[r.value] := clients[r.value].(mac := m.mac);
        assert clients[..] == t[r.value := t[r.value].(mac := m.mac)];
      }
    }

    /** _CleanClientHistory */
    method CleanHistory(mac: nat)
      requires clients.Length == CLIENTS
      modifies clients
      ensures clients[..] == Cleaned(old(clients[..]), mac)
    {
      ghost var t := clients[..];
      var i := 0;
      while i < CLIENTS
        invariant 0 <= i <= CLIENTS
        invariant forall k :: 0 <= k < i ==> clients[k] == Cleaned(t, mac)[k]
        invariant forall k :: i <= k < CLIENTS ==> clients[k] == t[k]
      {
        if clients[i].state == IDLE && clients[i].mac == mac {
          clients[i] := clients[i].(mac := 0);
        }
        i := i + 1;
      }
    }

    /** The REQUEST and BIND cases of the state machine, also reached from IDLE. */
    method Bind(i: nat) returns (reply: Reply)
      requires clients.Length == CLIENTS && i < CLIENTS
      modifies clients
      ensures clients[..] == Bound(old(clients[..]), i) && reply == Ack(old(clients[i]).ip)
    {
      reply := Ack(clients[i].ip);
      clients[i] := clients[i].(lease := LEASE);
      clients[i] := clients[i].(state := BIND);
      CleanHistory(clients[i].mac);
    }

    /** _DhcpClientSMEHandle */
    method SmeHandle(i: nat, kind: MsgType) returns (reply: Reply)
      requires clients.Length == CLIENTS && i < CLIENTS
      modifies clients
      ensures clients[..] == Handle(old(clients[..]), i, kind).0 && reply == Handle(old(clients[..]), i, kind).1
    {
      if clients[i].state == IDLE {
        if kind == Discover {
          clients[i] := clients[i].(state := SELECT);
        } else if kind == Request {
          reply := Bind(i);
          return;
        }
      }
      if clients[i].state == IDLE || clients[i].state == SELECT {
        reply := Offer(clients[i].ip);
        clients[i] := clients[i].(timeout := TIMEOUT);
        clients[i] := clients[i].(state := REQUEST);
      } else {
        reply := Bind(i);
      }
    }

    /** DHCPS_RecvCb behind the parsing */
    method RecvCb(m: Message) returns (reply: Reply)
      requires Valid()
      modifies clients
      ensures Valid() && clients[..] == Receive(old(clients[..]), m, self).0
      ensures reply == Receive(old(clients[..]), m, self).1
    {
      ReceiveKeeps(clients[..], m, self);
      var r := Lookup(m);
      if r.None? {
        reply := if m.kind != Release && m.kind != Decline then Nak else NoReply;
      } else {
        reply := SmeHandle(r.value, m.kind);
      }
    }

    /** _DhcpTickHandle */
    method TickHandle(here: set<nat>)
      requires Valid()
      modifies clients
      ensures Valid() && clients[..] == Tick(old(clients[..]), here)
    {
      ghost var t := clients[..];
      TickKeeps(t, here);
      var i := 0;
      while i < CLIENTS
        invariant 0 <= i <= CLIENTS
        invariant forall k :: 0 <= k < i ==> clients[k] == TickOne(t[k], here)
        invariant forall k :: i <= k < CLIENTS ==> clients[k] == t[k]
      {
        var c := clients[i];
        if c.state == REQUEST {
          if c.timeout > 0 {
            clients[i] := c.(timeout := c.timeout - 1);
            if c.timeout - 1 == 0 {
              clients[i] := clients[i].(mac := 0);
              clients[i] := clients[i].(state := IDLE);
            }
          }
        } else if c.state == BIND {
          if c.lease > 0 {
            clients[i] := c.(lease := c.lease - 1);
          }
          if c.lease > 0 && c.lease - 1 == 0 {
            clients[i] := clients[i].(state := IDLE);
          } else if c.mac !in here {
            clients[i] := clients[i].(state := IDLE);
          }
        }
        i := i + 1;
      }
      assert clients[..] == Tick(t, here);
    }

    /** DHCPS_ClientDelete */
    method ClientDelete(mac: nat) returns (r: DeleteResult)
      requires Valid()
      modifies clients
      ensures Valid() && clients[..] == Delete(old(clients[..]), mac).0 && r == Delete(old(clients[..]), mac).1
    {
      DeleteKeeps(clients[..], mac);
      var i := 0;
      while i < CLIENTS
        invariant 0 <= i <= CLIENTS && clients[..] == old(clients[..]) && Holder(clients[..], mac, i) == None
      {
        var c := clients[i];
        if c.state != IDLE && c.mac == mac {
          HolderFirst(clients[..], mac, i);
          if c.state != BIND {
            return NOT_BIND;
          }
          clients[i] := c.(state := IDLE);
          return SUCCESS;
        }
        i := i + 1;
      }
      r := NOT_FOUND;
    }
  }

  lemma TakenNext(t: Table, m: Message, n: nat)
    requires n < |t|
    ensures Taken(t, m, n + 1) <==> Taken(t, m, n) || IsTaken(t[n], m)
  {
    if Taken(t, m, n + 1) {
      var i :| 0 <= i < n + 1 && IsTaken(t[i], m);
    }
    if Taken(t, m, n) {
      var i :| 0 <= i < n && IsTaken(t[i], m);
    }
  }

  lemma {:induction false} HolderFirst(t: Table, mac: nat, i: nat)
    requires i < |t| && t[i].state != IDLE && t[i].mac == mac && Holder(t, mac, i) == None
    ensures Holder(t, mac, |t|) == Some(i)
  {
    var r := Holder(t, mac, |t|);
    assert r.Some?;
  }
}
