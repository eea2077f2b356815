/**
  The client table of the DHCP server (dhcp_server.c): what messages, ticks and
  deletions do to it, and what is kept over every run (RFC 2131, section 4.3).

  Messages arrive parsed: who sent it, its type, the requested address and the server
  identifier, 0 standing for an absent option.  Hardware address 0 marks an entry that
  nobody has used.  The server is running throughout.
*/
module Dhcp {
  import opened Common

  datatype ClientState = IDLE | SELECT | REQUEST | BIND

  datatype Client = Client(state: ClientState, timeout: nat, ip: nat, mac: nat, lease: nat)

  type Table = seq<Client>

  const CLIENTS := 8             // DHCPS_HISTORY_CLIENT_NUM
  const LEASE := 3600 * 24 * 365 * 10
  const TIMEOUT := 10

  datatype MsgType = Discover | Request | Release | Decline | OtherType

  datatype Message = Message(kind: MsgType, mac: nat, ip: nat, server: nat)

  datatype Reply = NoReply | Nak | Offer(ip: nat) | Ack(ip: nat)

  // --------------------------------------------------------------- looking up

  /** What the scan of _ClientTableLookup remembers the first entry of. */
  datatype Wanted = MyHistory | Requested | Unused | History

  /** An idle entry of the wanted kind. */
  predicate Hit(c: Client, w: Wanted, m: Message) {
    c.state == IDLE &&
    match w
    case MyHistory => c.mac == m.mac
    case Requested => c.ip == m.ip
    case Unused => c.mac == 0
    case History => c.mac != 0
  }

  /** The first of the first n entries that is a hit. */
  function First(t: Table, w: Wanted, m: Message, n: nat): (r: Option<nat>)
    requires n <= |t|
    ensures r.Some? ==> r.value < n && Hit(t[r.value], w, m) && forall i :: 0 <= i < r.value ==> !Hit(t[i], w, m)
    ensures r.None? ==> forall i :: 0 <= i < n ==> !Hit(t[i], w, m)
  {
    if n == 0 then None
    else
      var r := First(t, w, m, n - 1);
      if r.Some? then r else if Hit(t[n - 1], w, m) then Some(n - 1) else None
  }

  predicate IsMine(c: Client, m: Message) {
    c.state != IDLE && c.mac == m.mac
  }

  /** The last of the first n entries that the sender negotiates or has. */
  function Mine(t: Table, m: Message, n: nat): (r: Option<nat>)
    requires n <= |t|
    ensures r.Some? ==> r.value < n && IsMine(t[r.value], m)
    ensures r.None? ==> forall i :: 0 <= i < n ==> !IsMine(t[i], m)
  {
    if n == 0 then None
    else if IsMine(t[n - 1], m) then Some(n - 1)
    else Mine(t, m, n - 1)
  }

  predicate IsTaken(c: Client, m: Message) {
    c.state != IDLE && c.mac != m.mac && c.ip == m.ip
  }

  /** Somebody else negotiates or has the requested address. */
  predicate Taken(t: Table, m: Message, n: nat)
    requires n <= |t|
  {
    exists i :: 0 <= i < n && IsTaken(t[i], m)
  }

  // ------------------------------------------------------------------ messages

  /** An entry that goes back to the pool; its address is remembered for a bound client. */
  function Released(c: Client): Client {
    c.(state := IDLE, mac := if c.state != BIND then 0 else c.mac)
  }

  function Drop(t: Table, i: nat): Table
    requires i < |t|
  {
    t[i := Released(t[i])]
  }

  predicate ForMe(m: Message, self: nat) {
    m.server == 0 || m.server == self
  }

  /** _ClientTableLookup: the table with the sender's old entry given up where necessary, and
      the entry to go on with. */
  function Choose(t: Table, m: Message, self: nat): (r: (Table, Option<nat>))
    ensures |r.0| == |t| && (r.1.Some? ==> r.1.value < |t|)
  {
    var n := |t|;
    var mine, req := Mine(t, m, n), First(t, Requested, m, n);
    match m.kind
    case Discover =>
      if mine.Some? then
        var idle := t[mine.value].(state := IDLE);
        if req.Some? then (t[mine.value := idle.(mac := 0)], req) else (t[mine.value := idle], mine)
      else if req.Some? then (t, req)
      else if First(t, MyHistory, m, n).Some? then (t, First(t, MyHistory, m, n))
      else if First(t, Unused, m, n).Some? then (t, First(t, Unused, m, n))
      else (t, First(t, History, m, n))
    case Request =>
      if mine.Some? then
        if Taken(t, m, n) then (Drop(t, mine.value), None)
        else if req.Some? then (Drop(t, mine.value), if ForMe(m, self) then req else None)
        else if ForMe(m, self) then (t, mine)
        else (t, None)
      else if Taken(t, m, n) || !ForMe(m, self) then (t, None)
      else (t, req)
    case Release => (if mine.Some? then Drop(t, mine.value) else t, None)
    case Decline => (if mine.Some? then Drop(t, mine.value) else t, None)
    case OtherType => (t, None)
  }

  /** _CleanClientHistory: idle entries forget that address. */
  function Cleaned(t: Table, mac: nat): (r: Table)
    ensures |r| == |t|
    ensures forall i :: 0 <= i < |t| ==> r[i] == if t[i].state == IDLE && t[i].mac == mac then t[i].(mac := 0) else t[i]
  {
    seq(|t|, i requires 0 <= i < |t| => if t[i].state == IDLE && t[i].mac == mac then t[i].(mac := 0) else t[i])
  }

  function Bound(t: Table, i: nat): Table
    requires i < |t|
  {
    Cleaned(t[i := t[i].(lease := LEASE, state := BIND)], t[i].mac)
  }

  /** _DhcpClientSMEHandle; an idle entry falls through SELECT to REQUEST. */
  function Handle(t: Table, i: nat, kind: MsgType): (Table, Reply)
    requires i < |t|
  {
    match t[i].state
    case IDLE =>
      if kind == Request then (Bound(t, i), Ack(t[i].ip))
      else (t[i := t[i].(timeout := TIMEOUT, state := REQUEST)], Offer(t[i].ip))
    case SELECT => (t[i := t[i].(timeout := TIMEOUT, state := REQUEST)], Offer(t[i].ip))
    case _ => (Bound(t, i), Ack(t[i].ip))
  }

  /** DHCPS_RecvCb */
  function Receive(t: Table, m: Message, self: nat): (Table, Reply) {
    var (t1, chosen) := Choose(t, m, self);
    match chosen
    case None => (t1, if m.kind == Release || m.kind == Decline then NoReply else Nak)
    case Some(i) => Handle(t1[i := t1[i].(mac := m.mac)], i, m.kind)
  }

  // ----------------------------------------------------------- ticks, deletion

  /** One second passes; `here` are the stations that are still associated. */
  function TickOne(c: Client, here: set<nat>): Client {
    match c.state
    case REQUEST =>
      if c.timeout == 0 then c
      else if c.timeout == 1 then c.(timeout := 0, mac := 0, state := IDLE)
      else c.(timeout := c.timeout - 1)
    case BIND =>
      if c.lease == 1 then c.(lease := 0, state := IDLE)
      else
        var lease := if c.lease == 0 then 0 else c.lease - 1;
        c.(lease := lease, state := if c.mac !in here then IDLE else BIND)
    case _ => c
  }

  function Tick(t: Table, here: set<nat>): (r: Table)
    ensures |r| == |t| && forall i :: 0 <= i < |t| ==> r[i] == TickOne(t[i], here)
  {
    seq(|t|, i requires 0 <= i < |t| => TickOne(t[i], here))
  }

  /** The first entry that is not idle and belongs to mac. */
  function Holder(t: Table, mac: nat, n: nat): (r: Option<nat>)
    requires n <= |t|
    ensures r.Some? ==> r.value < n && t[r.value].state != IDLE && t[r.value].mac == mac
    ensures r.Some? ==> forall i :: 0 <= i < r.value ==> t[i].state == IDLE || t[i].mac != mac
    ensures r.None? ==> forall i :: 0 <= i < n ==> t[i].state == IDLE || t[i].mac != mac
  {
    if n == 0 then None
    else
      var r := Holder(t, mac, n - 1);
      if r.Some? then r else if t[n - 1].state != IDLE && t[n - 1].mac == mac then Some(n - 1) else None
  }

  datatype DeleteResult = SUCCESS | NOT_BIND | NOT_FOUND

  /** DHCPS_ClientDelete */
  function Delete(t: Table, mac: nat): (Table, DeleteResult) {
    match Holder(t, mac, |t|)
    case None => (t, NOT_FOUND)
    case Some(i) => if t[i].state != BIND then (t, NOT_BIND) else (t[i := t[i].(state := IDLE)], SUCCESS)
  }

  // ----------------------------------------------------------------- what is kept

  predicate EntryOk(c: Client) {
    && c.state != SELECT
    && (c.state == REQUEST ==> 1 <= c.timeout <= TIMEOUT)
    && (c.state == BIND ==> 1 <= c.lease <= LEASE)
  }

  /** Two entries have different addresses, and different owners unless one is idle. */
  predicate Apart(t: Table, i: nat, j: nat)
    requires i < |t| && j < |t|
  {
    t[i].ip != t[j].ip && (t[i].state != IDLE && t[j].state != IDLE ==> t[i].mac != t[j].mac)
  }

  ghost predicate Inv(t: Table) {
    && |t| == CLIENTS
    && (forall i :: 0 <= i < |t| ==> EntryOk(t[i]))
    && (forall i, j :: 0 <= i < j < |t| ==> Apart(t, i, j))
  }

  /** Addresses never move, and only the sender's own and idle entries change. */
  ghost predicate OthersKept(t: Table, t': Table, mac: nat) {
    && |t'| == |t| && (forall i :: 0 <= i < |t| ==> t'[i].ip == t[i].ip)
    && (forall i :: 0 <= i < |t| && t[i].state != IDLE && t[i].mac != mac ==> t'[i] == t[i])
  }

  lemma IdleKeeps(t: Table, i: nat, c: Client)
    requires Inv(t) && i < |t| && c.state == IDLE && c.ip == t[i].ip
    ensures Inv(t[i := c])
  {
    var t' := t[i := c];
    forall k, l | 0 <= k < l < |t'| ensures Apart(t', k, l) { assert Apart(t, k, l); }
  }

  lemma ApartAt(t: Table, k: nat, i: nat)
    requires Inv(t) && k < |t| && i < |t| && k != i
    ensures t[k].ip != t[i].ip && (t[k].state != IDLE && t[i].state != IDLE ==> t[k].mac != t[i].mac)
  {
    assert Apart(t, if k < i then k else i, if k < i then i else k);
  }

  /** Only one entry can be the sender's. */
  lemma MineIsOnly(t: Table, m: Message, i: nat)
    requires Inv(t) && i < |t| && IsMine(t[i], m)
    ensures Mine(t, m, |t|) == Some(i)
  {
    forall k | 0 <= k < |t| && k != i ensures !IsMine(t[k], m) { ApartAt(t, k, i); }
  }

  /** After the lookup the chosen entry is idle and the sender has no other, or it is the
      sender's own; nobody else has noticed. */
  lemma ChooseKeeps(t: Table, m: Message, self: nat)
    requires Inv(t)
    ensures var (t1, r) := Choose(t, m, self);
      && Inv(t1) && OthersKept(t, t1, m.mac)
      && (r.Some? && t1[r.value].state == IDLE ==> forall k :: 0 <= k < |t1| ==> !IsMine(t1[k], m))
      && (r.Some? && t1[r.value].state != IDLE ==> m.kind == Request && IsMine(t1[r.value], m) && t1 == t)
  {
    var (t1, r) := Choose(t, m, self);
    var mine := Mine(t, m, |t|);
    if mine.Some? {
      IdleKeeps(t, mine.value, Released(t[mine.value]));
      IdleKeeps(t, mine.value, t[mine.value].(state := IDLE));
      IdleKeeps(t, mine.value, t[mine.value].(state := IDLE, mac := 0));
      forall k | 0 <= k < |t| && IsMine(t[k], m) ensures k == mine.value { MineIsOnly(t, m, k); }
    }
  }

  /** The chosen entry becomes the sender's. */
  lemma ClaimKeeps(t: Table, i: nat, c: Client, m: Message)
    requires Inv(t) && i < |t| && c.ip == t[i].ip && c.mac == m.mac && EntryOk(c)
    requires forall k :: 0 <= k < |t| && k != i ==> !IsMine(t[k], m)
    ensures Inv(t[i := c])
  {
    var t' := t[i := c];
    forall k, l | 0 <= k < l < |t'| ensures Apart(t', k, l) { assert Apart(t, k, l); }
  }

  lemma CleanKeeps(t: Table, mac: nat)
    requires Inv(t)
    ensures Inv(Cleaned(t, mac)) && OthersKept(t, Cleaned(t, mac), mac)
  {
    var t' := Cleaned(t, mac);
    forall k, l | 0 <= k < l < |t'| ensures Apart(t', k, l) { assert Apart(t, k, l); }
  }

  /** A message keeps the invariant and leaves everybody else's entries alone. */
  lemma ReceiveKeeps(t: Table, m: Message, self: nat)
    requires Inv(t)
    ensures Inv(Receive(t, m, self).0) && OthersKept(t, Receive(t, m, self).0, m.mac)
  {
    ChooseKeeps(t, m, self);
    var (t1, r) := Choose(t, m, self);
    if r.Some? {
      var i := r.value;
      var t2 := t1[i := t1[i].(mac := m.mac)];
      OnlyChosen(t1, m, i);
      if t1[i].state == IDLE && m.kind != Request {
        ClaimKeeps(t1, i, t2[i].(timeout := TIMEOUT, state := REQUEST), m);
        assert Receive(t, m, self).0 == t1[i := t2[i].(timeout := TIMEOUT, state := REQUEST)];
      } else {
        var c := t2[i].(lease := LEASE, state := BIND);
        ClaimKeeps(t1, i, c, m);
        CleanKeeps(t1[i := c], m.mac);
        assert t2[i := c] == t1[i := c];
      }
    }
  }

  lemma OnlyChosen(t: Table, m: Message, i: nat)
    requires Inv(t) && i < |t|
    requires if t[i].state == IDLE then forall k :: 0 <= k < |t| ==> !IsMine(t[k], m) else IsMine(t[i], m)
    ensures forall k :: 0 <= k < |t| && k != i ==> !IsMine(t[k], m)
  {
    forall k | 0 <= k < |t| && k != i ensures !IsMine(t[k], m) { ApartAt(t, k, i); }
  }

  lemma TickKeeps(t: Table, here: set<nat>)
    requires Inv(t)
    ensures Inv(Tick(t, here))
  {
    var t' := Tick(t, here);
    forall k | 0 <= k < |t'| ensures EntryOk(t'[k]) { assert EntryOk(t[k]); }
    forall k, l | 0 <= k < l < |t'| ensures Apart(t', k, l) { assert Apart(t, k, l); }
  }

  lemma DeleteKeeps(t: Table, mac: nat)
    requires Inv(t)
    ensures Inv(Delete(t, mac).0)
  {
    var i := Holder(t, mac, |t|);
    if i.Some? { IdleKeeps(t, i.value, t[i.value].(state := IDLE)); }
  }

  // ----------------------------------------------------------- what is answered

  /** mac negotiates or has the address ip. */
  predicate Holds(t: Table, mac: nat, ip: nat) {
    exists i :: 0 <= i < |t| && t[i].state != IDLE && t[i].mac == mac && t[i].ip == ip
  }

  predicate InPool(t: Table, ip: nat) {
    exists i :: 0 <= i < |t| && t[i].ip == ip
  }

  /** The address is negotiated or had by somebody other than mac. */
  predicate HeldByOther(t: Table, mac: nat, ip: nat) {
    exists i :: 0 <= i < |t| && t[i].state != IDLE && t[i].mac != mac && t[i].ip == ip
  }

  predicate HoldsAny(t: Table, mac: nat) {
    exists i :: 0 <= i < |t| && t[i].state != IDLE && t[i].mac == mac
  }

  /** Entry i is offered to, or bound by, the sender. */
  predicate GivenAs(t: Table, i: nat, mac: nat, ip: nat, state: ClientState) {
    i < |t| && t[i].state == state && t[i].mac == mac && t[i].ip == ip
  }

  /** An offer or acknowledgement names the address that the table now records for the sender,
      an address that nobody else holds. */
  lemma AnswerIsRecorded(t: Table, m: Message, self: nat)
    requires Inv(t)
    ensures var (t', reply) := Receive(t, m, self);
      && (reply.Offer? ==> m.kind == Discover && (exists i: nat :: GivenAs(t', i, m.mac, reply.ip, REQUEST)) && !HeldByOther(t', m.mac, reply.ip))
      && (reply.Ack? ==> m.kind == Request && (exists i: nat :: GivenAs(t', i, m.mac, reply.ip, BIND)) && !HeldByOther(t', m.mac, reply.ip))
  {
    ChooseKeeps(t, m, self);
    ReceiveKeeps(t, m, self);
    var (t1, r) := Choose(t, m, self);
    var (t', reply) := Receive(t, m, self);
    if r.Some? {
      var i := r.value;
      assert EntryOk(t1[i]);
      assert GivenAs(t', i, m.mac, reply.ip, if reply.Offer? then REQUEST else BIND);
      forall k | 0 <= k < |t'| && k != i ensures t'[k].ip != reply.ip { ApartAt(t', k, i); }
    }
  }

  /** Of the entries with the requested address there is one at most. */
  lemma RequestedEntry(t: Table, m: Message) returns (k: Option<nat>)
    requires Inv(t)
    ensures InPool(t, m.ip) <==> k.Some?
    ensures k.Some? ==> k.value < |t| && t[k.value].ip == m.ip && forall j :: 0 <= j < |t| && t[j].ip == m.ip ==> j == k.value
  {
    if InPool(t, m.ip) {
      var i :| 0 <= i < |t| && t[i].ip == m.ip;
      k := Some(i);
      forall j | 0 <= j < |t| && j != i ensures t[j].ip != m.ip { ApartAt(t, j, i); }
    } else {
      k := None;
    }
  }

  lemma TakenIsHeld(t: Table, m: Message)
    ensures Taken(t, m, |t|) <==> HeldByOther(t, m.mac, m.ip)
  {
    if Taken(t, m, |t|) {
      var i :| 0 <= i < |t| && IsTaken(t[i], m);
    }
    if HeldByOther(t, m.mac, m.ip) {
      var i :| 0 <= i < |t| && t[i].state != IDLE && t[i].mac != m.mac && t[i].ip == m.ip;
      assert IsTaken(t[i], m);
    }
  }

  /** The requested address is there to be given to the sender exactly if an idle entry has it,
      or the sender holds it. */
  lemma RequestedHit(t: Table, m: Message)
    requires Inv(t)
    ensures First(t, Requested, m, |t|).Some? <==>
      InPool(t, m.ip) && !HeldByOther(t, m.mac, m.ip) && !Holds(t, m.mac, m.ip)
  {
    var k := RequestedEntry(t, m);
    if k.Some? && t[k.value].state == IDLE {
      assert Hit(t[k.value], Requested, m);
    }
  }

  /** A DISCOVER for a pool address that nobody else holds is offered just that address. */
  lemma RequestedIsOffered(t: Table, m: Message, self: nat)
    requires Inv(t) && m.kind == Discover && InPool(t, m.ip) && !HeldByOther(t, m.mac, m.ip)
    ensures Receive(t, m, self).1 == Offer(m.ip)
  {
    RequestedHit(t, m);
    ChooseKeeps(t, m, self);
    if Holds(t, m.mac, m.ip) {
      var i :| 0 <= i < |t| && t[i].state != IDLE && t[i].mac == m.mac && t[i].ip == m.ip;
      MineIsOnly(t, m, i);
    }
  }

  /** A DISCOVER is refused if and only if every address is held by somebody else. */
  lemma DiscoverRefusedExactly(t: Table, m: Message, self: nat)
    requires Inv(t) && m.kind == Discover
    ensures Receive(t, m, self).1 == Nak <==> forall i :: 0 <= i < |t| ==> t[i].state != IDLE && t[i].mac != m.mac
    ensures Receive(t, m, self).1 != Nak ==> Receive(t, m, self).1.Offer?
  {
    ChooseKeeps(t, m, self);
    forall i | 0 <= i < |t|
      ensures t[i].state == IDLE ==> Hit(t[i], Unused, m) || Hit(t[i], History, m)
      ensures t[i].state != IDLE && t[i].mac == m.mac ==> IsMine(t[i], m) { }
  }

  /** A REQUEST is acknowledged if and only if it is for this server, nobody else holds the
      address, and the sender holds one already or asks for one of the pool. */
  lemma RequestGrantedExactly(t: Table, m: Message, self: nat)
    requires Inv(t) && m.kind == Request
    ensures Receive(t, m, self).1.Ack? <==>
      ForMe(m, self) && !HeldByOther(t, m.mac, m.ip) && (HoldsAny(t, m.mac) || InPool(t, m.ip))
    ensures !Receive(t, m, self).1.Ack? ==> Receive(t, m, self).1 == Nak
  {
    TakenIsHeld(t, m);
    RequestedHit(t, m);
    ChooseKeeps(t, m, self);
    var mine := Mine(t, m, |t|);
    assert HoldsAny(t, m.mac) <==> mine.Some? by {
      if HoldsAny(t, m.mac) {
        var i :| 0 <= i < |t| && t[i].state != IDLE && t[i].mac == m.mac;
        assert IsMine(t[i], m);
      }
    }
    assert Holds(t, m.mac, m.ip) ==> HoldsAny(t, m.mac);
  }

  /** After a refusal the sender still holds an address exactly if it asked another server for an
      address that is not idle here nor held by another, or sent a message of another type. */
  lemma StillHeldAfterNak(t: Table, m: Message, self: nat)
    requires Inv(t) && Receive(t, m, self).1 == Nak
    ensures HoldsAny(Receive(t, m, self).0, m.mac) <==>
      HoldsAny(t, m.mac) && (m.kind == OtherType ||
        (!ForMe(m, self) && !HeldByOther(t, m.mac, m.ip) && (InPool(t, m.ip) ==> Holds(t, m.mac, m.ip))))
  {
    TakenIsHeld(t, m);
    RequestedHit(t, m);
    ChooseKeeps(t, m, self);
    var t' := Receive(t, m, self).0;
    var mine := Mine(t, m, |t|);
    if mine.Some? {
      assert IsMine(t[mine.value], m);
      forall k | 0 <= k < |t| && IsMine(t[k], m) ensures k == mine.value { MineIsOnly(t, m, k); }
      forall k | 0 <= k < |t'| && t'[k].state != IDLE && t'[k].mac == m.mac ensures t' == t {
        assert k != mine.value ==> !IsMine(t[k], m);
      }
    } else {
      forall k | 0 <= k < |t| ensures !IsMine(t[k], m) { }
    }
  }

  /** A DISCOVER of a client that has an address makes the server give that address up, whether it was
      bound or not, and forget whose it was, if and only if it asks for another address of the pool
      that nobody else holds. */
  lemma DiscoverForgets(t: Table, m: Message, self: nat, i: nat)
    requires Inv(t) && m.kind == Discover && i < |t| && IsMine(t[i], m)
    ensures var forgets := InPool(t, m.ip) && !HeldByOther(t, m.mac, m.ip) && t[i].ip != m.ip;
      && (Receive(t, m, self).0[i].state == IDLE <==> forgets)
      && (Receive(t, m, self).0[i].mac == 0 <==> forgets || m.mac == 0)
  {
    MineIsOnly(t, m, i);
    if Holds(t, m.mac, m.ip) {
      var k :| 0 <= k < |t| && t[k].state != IDLE && t[k].mac == m.mac && t[k].ip == m.ip;
      MineIsOnly(t, m, k);
    }
    RequestedHit(t, m);
    ChooseKeeps(t, m, self);
  }

  /** RELEASE and DECLINE are not answered; they give back what the sender held, remembering whose it was
      if it was bound, and change nothing else. */
  lemma ReleaseGivesBack(t: Table, m: Message, self: nat)
    requires Inv(t) && (m.kind == Release || m.kind == Decline)
    ensures var (t', reply) := Receive(t, m, self);
      && reply == NoReply && |t'| == |t| && !HoldsAny(t', m.mac)
      && forall i :: 0 <= i < |t| ==>
           if t[i].state != IDLE && t[i].mac == m.mac
           then t'[i] == t[i].(state := IDLE, mac := if t[i].state == BIND then m.mac else 0)
           else t'[i] == t[i]
  {
    var mine := Mine(t, m, |t|);
    var t' := Receive(t, m, self).0;
    forall i | 0 <= i < |t|
      ensures (t[i].state != IDLE && t[i].mac == m.mac) <==> mine == Some(i)
    {
      if t[i].state != IDLE && t[i].mac == m.mac {
        assert IsMine(t[i], m);
        MineIsOnly(t, m, i);
      }
    }
    forall i | 0 <= i < |t'| && t'[i].state != IDLE ensures t'[i].mac != m.mac { }
  }

  /** An idle entry remembers mac, or with 0 nobody. */
  predicate Remembers(t: Table, mac: nat) {
    exists i :: 0 <= i < |t| && t[i].state == IDLE && t[i].mac == mac
  }

  /** A client that comes back without asking for an address it can have: it is offered the one it holds,
      else one that it is remembered for, else one that nobody is remembered for, else any that is idle. */
  lemma ReturningClient(t: Table, m: Message, self: nat) returns (k: nat)
    requires Inv(t) && m.kind == Discover && Receive(t, m, self).1 != Nak
    requires !(InPool(t, m.ip) && !HeldByOther(t, m.mac, m.ip)) || Holds(t, m.mac, m.ip)
    ensures k < |t| && Receive(t, m, self).1 == Offer(t[k].ip)
    ensures HoldsAny(t, m.mac) ==> t[k].state != IDLE && t[k].mac == m.mac
    ensures !HoldsAny(t, m.mac) ==> t[k].state == IDLE
    ensures !HoldsAny(t, m.mac) && Remembers(t, m.mac) ==> t[k].mac == m.mac
    ensures !HoldsAny(t, m.mac) && !Remembers(t, m.mac) && Remembers(t, 0) ==> t[k].mac == 0
  {
    RequestedHit(t, m);
    var (t1, r) := Choose(t, m, self);
    k := r.value;
    if i :| 0 <= i < |t| && t[i].state != IDLE && t[i].mac == m.mac {
      assert IsMine(t[i], m);
    } else {
      forall i | 0 <= i < |t| ensures !IsMine(t[i], m) { }
      if i :| 0 <= i < |t| && t[i].state == IDLE && t[i].mac == m.mac {
        assert Hit(t[i], MyHistory, m);
      } else if i :| 0 <= i < |t| && t[i].state == IDLE && t[i].mac == 0 {
        assert Hit(t[i], Unused, m);
      }
    }
  }

  /** A REQUEST that is acknowledged binds the address it is for, or, if that is not of the pool, the one
      that the sender holds, for the whole lease; the sender is remembered for no other any more.  An offer
      is held for the whole timeout. */
  lemma AnswerLasts(t: Table, m: Message, self: nat) returns (k: nat)
    requires Inv(t) && Receive(t, m, self).1 != Nak && Receive(t, m, self).1 != NoReply
    ensures var (t', reply) := Receive(t, m, self);
      && k < |t'| && |t'| == |t|
      && (reply.Offer? ==> GivenAs(t', k, m.mac, reply.ip, REQUEST) && t'[k].timeout == TIMEOUT)
      && (reply.Ack? ==>
            && GivenAs(t', k, m.mac, reply.ip, BIND) && t'[k].lease == LEASE
            && (if InPool(t, m.ip) then reply.ip == m.ip else t[k].state != IDLE && t[k].mac == m.mac)
            && (m.mac != 0 ==> !Remembers(t', m.mac)))
  {
    RequestedHit(t, m);
    TakenIsHeld(t, m);
    ChooseKeeps(t, m, self);
    var (t1, r) := Choose(t, m, self);
    k := r.value;
    assert EntryOk(t1[k]);
    if Holds(t, m.mac, m.ip) {
      var i :| 0 <= i < |t| && t[i].state != IDLE && t[i].mac == m.mac && t[i].ip == m.ip;
      MineIsOnly(t, m, i);
    }
  }

  /** Deleting a client frees the address it has, and only that; the answer says what was found. */
  lemma DeleteFrees(t: Table, mac: nat)
    requires Inv(t)
    ensures var (t', result) := Delete(t, mac);
      && |t'| == |t|
      && (result == NOT_FOUND <==> !HoldsAny(t, mac))
      && (result == SUCCESS <==> exists i: nat :: i < |t| && t[i].state == BIND && t[i].mac == mac)
      && forall i :: 0 <= i < |t| ==>
           t'[i] == if t[i].state == BIND && t[i].mac == mac then t[i].(state := IDLE) else t[i]
  {
    var h := Holder(t, mac, |t|);
    forall i | 0 <= i < |t| && t[i].state != IDLE && t[i].mac == mac ensures h == Some(i) {
      if h != Some(i) { ApartAt(t, h.value, i); }
    }
  }

  // --------------------------------------------------------------------- runs

  datatype Event =
    | Received(m: Message)
    | Second(here: set<nat>)
    | Deleted(mac: nat)

  function Step(t: Table, e: Event, self: nat): Table {
    match e
    case Received(m) => Receive(t, m, self).0
    case Second(here) => Tick(t, here)
    case Deleted(mac) => Delete(t, mac).0
  }

  lemma StepKeeps(t: Table, e: Event, self: nat)
    requires Inv(t)
    ensures Inv(Step(t, e, self))
  {
    match e
    case Received(m) => ReceiveKeeps(t, m, self);
    case Second(here) => TickKeeps(t, here);
    case Deleted(mac) => DeleteKeeps(t, mac);
  }

  /** DHCPS_Start: idle entries with the addresses of the pool. */
  function Started(pool: seq<nat>): (t: Table)
    ensures |t| == |pool| && forall i :: 0 <= i < |pool| ==> t[i] == Client(IDLE, 0, pool[i], 0, LEASE)
  {
    seq(|pool|, i requires 0 <= i < |pool| => Client(IDLE, 0, pool[i], 0, LEASE))
  }

  predicate Distinct(pool: seq<nat>) {
    forall i, j :: 0 <= i < j < |pool| ==> pool[i] != pool[j]
  }

  ghost predicate IsRun(run: seq<Table>, es: seq<Event>, pool: seq<nat>, self: nat) {
    && |pool| == CLIENTS && Distinct(pool)
    && |run| == |es| + 1 && run[0] == Started(pool)
    && forall i :: 0 <= i < |es| ==> run[i + 1] == Step(run[i], es[i], self)
  }

  lemma {:induction false} RunKeeps(run: seq<Table>, es: seq<Event>, pool: seq<nat>, self: nat, i: nat)
    requires IsRun(run, es, pool, self) && i < |run|
    ensures Inv(run[i])
  {
    if i == 0 {
      forall k, l | 0 <= k < l < |run[0]| ensures Apart(run[0], k, l) { assert pool[k] != pool[l]; }
    } else {
      RunKeeps(run, es, pool, self, i - 1);
      StepKeeps(run[i - 1], es[i - 1], self);
    }
  }

  /** In every run no client holds two addresses, no address is held by two clients, and no entry
      rests in the state SELECT. */
  lemma HoldingIsOneToOne(run: seq<Table>, es: seq<Event>, pool: seq<nat>, self: nat, i: nat)
    requires IsRun(run, es, pool, self) && i < |run|
    ensures forall mac, ip, ip' :: Holds(run[i], mac, ip) && Holds(run[i], mac, ip') ==> ip == ip'
    ensures forall mac, mac', ip :: Holds(run[i], mac, ip) && Holds(run[i], mac', ip) ==> mac == mac'
    ensures forall k :: 0 <= k < |run[i]| ==> run[i][k].state != SELECT
  {
    RunKeeps(run, es, pool, self, i);
    var t := run[i];
    forall mac, ip, mac', ip' | Holds(t, mac, ip) && Holds(t, mac', ip') && (mac == mac' || ip == ip')
      ensures mac == mac' && ip == ip'
    {
      var k :| 0 <= k < |t| && t[k].state != IDLE && t[k].mac == mac && t[k].ip == ip;
      var l :| 0 <= l < |t| && t[l].state != IDLE && t[l].mac == mac' && t[l].ip == ip';
      assert k == l by {
        forall i | 0 <= i < |t| && i != l ensures t[i].ip != t[l].ip && (t[i].state != IDLE ==> t[i].mac != t[l].mac) {
          ApartAt(t, i, l);
        }
      }
    }
    forall k | 0 <= k < |t| ensures t[k].state != SELECT { assert EntryOk(t[k]); }
  }

  /** A message never touches what another client negotiates or has. */
  lemma OthersUndisturbed(run: seq<Table>, es: seq<Event>, pool: seq<nat>, self: nat, i: nat, k: nat)
    requires IsRun(run, es, pool, self) && i < |es| && es[i].Received? && k < CLIENTS
    ensures k < |run[i]| && k < |run[i + 1]|
    ensures run[i][k].state != IDLE && run[i][k].mac != es[i].m.mac ==> run[i + 1][k] == run[i][k]
  {
    RunKeeps(run, es, pool, self, i);
    ReceiveKeeps(run[i], es[i].m, self);
  }

  /** A DISCOVER for a free address of the pool leaves its entry offered to the sender. */
  lemma OfferedTo(t: Table, m: Message, self: nat, i: nat)
    requires Inv(t) && m.kind == Discover && i < |t| && t[i].ip == m.ip && t[i].state == IDLE
    ensures GivenAs(Receive(t, m, self).0, i, m.mac, m.ip, REQUEST)
  {
    forall k | 0 <= k < |t| && k != i ensures t[k].ip != m.ip { ApartAt(t, k, i); }
    RequestedIsOffered(t, m, self);
    AnswerIsRecorded(t, m, self);
    ReceiveKeeps(t, m, self);
    var t' := Receive(t, m, self).0;
    var k: nat :| GivenAs(t', k, m.mac, m.ip, REQUEST);
    if k != i { ApartAt(t', k, i); }
  }

  /** A REQUEST for the address that was offered binds it. */
  lemma BoundTo(t: Table, m: Message, self: nat, i: nat)
    requires Inv(t) && m.kind == Request && ForMe(m, self) && GivenAs(t, i, m.mac, m.ip, REQUEST)
    ensures GivenAs(Receive(t, m, self).0, i, m.mac, m.ip, BIND)
  {
    assert IsMine(t[i], m);
    forall k | 0 <= k < |t| && k != i ensures t[k].ip != m.ip { ApartAt(t, k, i); }
    MineIsOnly(t, m, i);
    RequestedHit(t, m);
    TakenIsHeld(t, m);
  }

  /** A message makes nobody but its sender hold an address. */
  lemma OnlySenderGains(t: Table, m: Message, self: nat)
    requires Inv(t)
    ensures var t' := Receive(t, m, self).0;
      |t'| == |t| && forall k :: 0 <= k < |t| && t'[k].state != IDLE ==> t'[k].mac == m.mac || t'[k] == t[k]
  {
    ReceiveKeeps(t, m, self);
  }

  /** So an idle entry stays idle if the sender has another one afterwards. */
  lemma StaysIdle(t: Table, m: Message, self: nat, i: nat, j: nat)
    requires Inv(t) && i < |t| && j < |t| && i != j && t[j].state == IDLE
    requires var t' := Receive(t, m, self).0; i < |t'| && t'[i].state != IDLE && t'[i].mac == m.mac
    ensures var t' := Receive(t, m, self).0; |t'| == |t| && t'[j].state == IDLE && t'[j].ip == t[j].ip
  {
    ReceiveKeeps(t, m, self);
    OnlySenderGains(t, m, self);
    ApartAt(Receive(t, m, self).0, i, j);
  }

  lemma ForgottenFor(t: Table, m: Message, self: nat, i: nat, j: nat)
    requires Inv(t) && m.kind == Discover && i < |t| && IsMine(t[i], m)
    requires j < |t| && i != j && t[j].state == IDLE && t[j].ip == m.ip
    ensures GivenAs(Receive(t, m, self).0, i, 0, t[i].ip, IDLE)
  {
    forall k | 0 <= k < |t| && k != j ensures t[k].ip != m.ip { ApartAt(t, k, j); }
    DiscoverForgets(t, m, self, i);
    ReceiveKeeps(t, m, self);
  }

  /** It does happen that a bound client is forgotten: in every pool a client that binds any address and
      then sends a DISCOVER for any other loses the first. */
  lemma BoundClientForgotten(pool: seq<nat>, self: nat, mac: nat, i: nat, j: nat) returns (run: seq<Table>, es: seq<Event>)
    requires |pool| == CLIENTS && Distinct(pool) && i < CLIENTS && j < CLIENTS && i != j
    ensures IsRun(run, es, pool, self) && |run| == 4
    ensures GivenAs(run[2], i, mac, pool[i], BIND)
    ensures GivenAs(run[3], i, 0, pool[i], IDLE) && GivenAs(run[3], j, mac, pool[j], REQUEST)
  {
    var m0, m1, m2 := Message(Discover, mac, pool[i], 0), Message(Request, mac, pool[i], self), Message(Discover, mac, pool[j], 0);
    es := [Received(m0), Received(m1), Received(m2)];
    var t0 := Started(pool);
    var t1 := Receive(t0, m0, self).0;
    var t2 := Receive(t1, m1, self).0;
    run := [t0, t1, t2, Receive(t2, m2, self).0];
    RunKeeps([t0], [], pool, self, 0);
    ReceiveKeeps(t0, m0, self);
    ReceiveKeeps(t1, m1, self);
    OfferedTo(t0, m0, self, i);
    StaysIdle(t0, m0, self, i, j);
    BoundTo(t1, m1, self, i);
    StaysIdle(t1, m1, self, i, j);
    OfferedTo(t2, m2, self, j);
    ForgottenFor(t2, m2, self, i, j);
  }

  /** From every new table a client can bind any address. */
  lemma BindsAny(pool: seq<nat>, self: nat, mac: nat, i: nat) returns (run: seq<Table>, es: seq<Event>)
    requires |pool| == CLIENTS && Distinct(pool) && i < CLIENTS
    ensures IsRun(run, es, pool, self) && |run| == 3 && Inv(run[2]) && GivenAs(run[2], i, mac, pool[i], BIND)
  {
    var m0, m1 := Message(Discover, mac, pool[i], 0), Message(Request, mac, pool[i], self);
    es := [Received(m0), Received(m1)];
    var t0 := Started(pool);
    var t1 := Receive(t0, m0, self).0;
    run := [t0, t1, Receive(t1, m1, self).0];
    RunKeeps([t0], [], pool, self, 0);
    ReceiveKeeps(t0, m0, self);
    ReceiveKeeps(t1, m1, self);
    OfferedTo(t0, m0, self, i);
    BoundTo(t1, m1, self, i);
  }

  /** An address that its client releases is offered to another that asks for it. */
  lemma ReleaseThenOffer(t: Table, self: nat, mac: nat, other: nat, ip: nat, i: nat)
    requires Inv(t) && GivenAs(t, i, mac, ip, BIND)
    ensures var t1 := Receive(t, Message(Release, mac, 0, self), self).0;
      var (t2, reply) := Receive(t1, Message(Discover, other, ip, 0), self);
      GivenAs(t1, i, mac, ip, IDLE) && reply == Offer(ip) && GivenAs(t2, i, other, ip, REQUEST)
  {
    var m2, m3 := Message(Release, mac, 0, self), Message(Discover, other, ip, 0);
    var t1 := Receive(t, m2, self).0;
    ReceiveKeeps(t, m2, self);
    ReleaseGivesBack(t, m2, self);
    OfferedTo(t1, m3, self, i);
    forall k | 0 <= k < |t1| && k != i ensures t1[k].ip != ip { ApartAt(t1, k, i); }
    RequestedIsOffered(t1, m3, self);
  }

  /** From every new table, for any address: one client binds it and releases it, and another that asks
      for it is offered it. */
  lemma ReleasedIsOffered(pool: seq<nat>, self: nat, mac: nat, other: nat, i: nat) returns (run: seq<Table>, es: seq<Event>)
    requires |pool| == CLIENTS && Distinct(pool) && i < CLIENTS
    ensures IsRun(run, es, pool, self) && |run| == 5
    ensures GivenAs(run[2], i, mac, pool[i], BIND)
    ensures es[2] == Received(Message(Release, mac, 0, self)) && GivenAs(run[3], i, mac, pool[i], IDLE)
    ensures es[3] == Received(Message(Discover, other, pool[i], 0)) && GivenAs(run[4], i, other, pool[i], REQUEST)
    ensures Receive(run[3], Message(Discover, other, pool[i], 0), self).1 == Offer(pool[i])
  {
    run, es := BindsAny(pool, self, mac, i);
    var m2, m3 := Message(Release, mac, 0, self), Message(Discover, other, pool[i], 0);
    ReleaseThenOffer(run[2], self, mac, other, pool[i], i);
    var t3 := Receive(run[2], m2, self).0;
    run, es := run + [t3, Receive(t3, m3, self).0], es + [Received(m2), Received(m3)];
  }

  // -------------------------------------------------------------- offers expire

  function Ticks(t: Table, heres: seq<set<nat>>): (r: Table)
    ensures |r| == |t|
    decreases |heres|
  {
    if heres == [] then t else Ticks(Tick(t, heres[0]), heres[1..])
  }

  /** An offer that is not taken up lasts as many seconds as its timeout, and no longer. */
  lemma {:induction false} OfferLasts(t: Table, heres: seq<set<nat>>, i: nat)
    requires i < |t| && t[i].state == REQUEST && t[i].timeout > 0
    ensures Ticks(t, heres)[i].state == REQUEST <==> |heres| < t[i].timeout
    ensures |heres| >= t[i].timeout ==> Ticks(t, heres)[i].state == IDLE && Ticks(t, heres)[i].mac == 0
    decreases |heres|
  {
    if heres != [] {
      var t1 := Tick(t, heres[0]);
      if t[i].timeout == 1 {
        IdleStays(t1, heres[1..], i);
      } else {
        OfferLasts(t1, heres[1..], i);
      }
    }
  }

  /** A bound client keeps its address for its lease as long as it is associated, and no longer; what is
      left is the memory of who had it. */
  lemma {:induction false} LeaseLasts(t: Table, heres: seq<set<nat>>, i: nat)
    requires i < |t| && t[i].state == BIND && t[i].lease > 0
    ensures Ticks(t, heres)[i].state == BIND <==>
      |heres| < t[i].lease && forall k :: 0 <= k < |heres| ==> t[i].mac in heres[k]
    ensures Ticks(t, heres)[i].state == BIND || Ticks(t, heres)[i].state == IDLE
    ensures Ticks(t, heres)[i].mac == t[i].mac
    decreases |heres|
  {
    if heres != [] {
      var t1, rest := Tick(t, heres[0]), heres[1..];
      assert t1[i] == TickOne(t[i], heres[0]);
      if t1[i].state == BIND {
        LeaseLasts(t1, rest, i);
        assert forall k :: 0 <= k < |rest| ==> rest[k] == heres[k + 1];
        if forall k :: 0 <= k < |rest| ==> t[i].mac in rest[k] {
          forall k | 0 <= k < |heres| ensures t[i].mac in heres[k] {
            if k > 0 { assert t[i].mac in rest[k - 1]; }
          }
        }
      } else {
        IdleStays(t1, rest, i);
      }
    }
  }

  lemma {:induction false} IdleStays(t: Table, heres: seq<set<nat>>, i: nat)
    requires i < |t| && t[i].state == IDLE
    ensures Ticks(t, heres)[i] == t[i]
    decreases |heres|
  {
    if heres != [] { IdleStays(Tick(t, heres[0]), heres[1..], i); }
  }

  // -------------------------------------------------------------------- the pool

  /** Host part number i of the pool: one past the server's, wrapping inside the subnet of
      `size` addresses (~Mask) and never 0. */
  function HostPart(host: nat, size: nat, i: nat): nat
    requires size > 0
  {
    var start := if (host + 1) % size != 0 then (host + 1) % size else 1;
    if (start + i) % size != 0 then (start + i) % size else 1
  }

  function Pool(net: nat, host: nat, size: nat): seq<nat>
    requires size > 0
  {
    seq(CLIENTS, i requires 0 <= i < CLIENTS => net + HostPart(host, size, i))
  }

  function Start(host: nat, size: nat): nat
    requires size > 0
  {
    if (host + 1) % size != 0 then (host + 1) % size else 1
  }

  lemma ModBelow(x: nat, size: nat)
    requires 0 < size && x < 2 * size
    ensures x % size == if x < size then x else x - size
  {
  }

  /** The eight addresses are different if and only if counting up from the start does not reach
      the end of the subnet, or reaches it with the last one and did not start with 1. */
  lemma PoolDistinctExactly(net: nat, host: nat, size: nat)
    requires size > 0
    ensures var start := Start(host, size);
      Distinct(Pool(net, host, size)) <==> start + 7 < size || (start + 7 == size && start > 1)
  {
    var start := Start(host, size);
    var pool := Pool(net, host, size);
    if start + 7 <= size {
      forall i | 0 <= i < CLIENTS ensures pool[i] == net + if start + i < size then start + i else 1 {
        ModBelow(start + i, size);
      }
      if start + 7 == size && start == 1 { assert pool[0] == pool[7]; }
    } else {
      var k := size - start;
      ModBelow(size, size);
      if size > 1 { ModBelow(size + 1, size); }
      assert k >= 0 && pool[k] == net + 1 && pool[k + 1] == net + 1;
    }
  }

  /** In a subnet of 255 host parts a server with host part 248 gives out the same address twice. */
  lemma PoolRepeats(net: nat)
    ensures !Distinct(Pool(net, 248, 255))
  {
    PoolDistinctExactly(net, 248, 255);
  }

  /** In a subnet with room behind the server the pool is the eight addresses that follow the server's. */
  lemma PoolFollowsServer(net: nat, host: nat, size: nat)
    requires host + 8 < size
    ensures Pool(net, host, size) == [net + host + 1, net + host + 2, net + host + 3, net + host + 4,
                                      net + host + 5, net + host + 6, net + host + 7, net + host + 8]
  {
    forall i: nat | i < CLIENTS ensures HostPart(host, size, i) == host + 1 + i {
      ModBelow(host + 1, size);
      ModBelow(host + 1 + i, size);
    }
  }
}
