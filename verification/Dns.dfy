/**
  The table of the DNS resolver (dns.c): queries are asked, asked again after growing
  pauses, handed to the next server, and given up; every query ends with exactly one
  call of its callback.

  Whether a packet can be sent makes no difference to the table and is left out, as are
  names and addresses.  Callbacks do not enter the resolver again, and the configured
  servers stay the same.  `calls` and `log` record the accepted queries and the callbacks
  made; a query is known by its number.
*/
module Dns {
  import opened Common

  datatype EntryState = UNUSED | NEW | ASKING | DONE

  /** `query` records the number of the query that the entry was last given to. */
  datatype Entry = Entry(state: EntryState, numdns: nat, tmr: nat, retries: nat, seqno: nat, ttl: nat, found: Option<nat>,
                         query: nat)

  type Table = seq<Entry>

  const TABLE_SIZE := 4
  const MAX_RETRIES := 4
  const MAX_TTL := 604800
  const U32 := 0x1_0000_0000

  /** seqno is dns_seqno, eight bits wide; calls[k] tells whether query k came with a callback. */
  datatype Resolver = Resolver(table: Table, seqno: nat, calls: seq<bool>, log: seq<nat>)

  /** Which of the servers are configured. */
  type Servers = seq<bool>

  // --------------------------------------------------------------- dns_check_entry

  predicate HasNext(e: Entry, servers: Servers) {
    e.numdns + 1 < |servers| && servers[e.numdns + 1]
  }

  /** The entry after dns_check_entry, and the callback it made. */
  function Check(e: Entry, servers: Servers): (Entry, Option<nat>) {
    match e.state
    case NEW => (e.(state := ASKING, numdns := 0, tmr := 1, retries := 0), None)
    case ASKING =>
      if e.tmr != 1 then (e.(tmr := if e.tmr == 0 then 255 else e.tmr - 1), None)
      else if e.retries + 1 == MAX_RETRIES then
        if HasNext(e, servers) then (e.(numdns := e.numdns + 1, tmr := 1, retries := 0), None)
        else (e.(state := UNUSED, tmr := 0, retries := e.retries + 1, found := None), e.found)
      else (e.(tmr := e.retries + 1, retries := e.retries + 1), None)
    case DONE =>
      var ttl := (e.ttl + U32 - 1) % U32;
      if ttl == 0 then (e.(ttl := 0, state := UNUSED, found := None), None) else (e.(ttl := ttl), None)
    case UNUSED => (e, None)
  }

  function Called(log: seq<nat>, k: Option<nat>): seq<nat> {
    match k
    case None => log
    case Some(q) => log + [q]
  }

  function CheckAt(s: Resolver, i: nat, servers: Servers): Resolver
    requires i < |s.table|
  {
    var (e, k) := Check(s.table[i], servers);
    s.(table := s.table[i := e], log := Called(s.log, k))
  }

  /** dns_check_entries from entry i on */
  function CheckFrom(s: Resolver, i: nat, servers: Servers): (s': Resolver)
    requires i <= |s.table|
    ensures |s'.table| == |s.table|
    decreases |s.table| - i
  {
    if i == |s.table| then s else CheckFrom(CheckAt(s, i, servers), i + 1, servers)
  }

  /** dns_tmr */
  function Tick(s: Resolver, servers: Servers): Resolver {
    CheckFrom(s, 0, servers)
  }

  // ----------------------------------------------------------------------- dns_recv

  datatype Reply = Failure | Answer(ttl: nat)

  /** A packet with transaction number i; it counts only for an entry that is being asked. */
  function Receive(s: Resolver, i: nat, reply: Reply): Resolver {
    if i >= |s.table| || s.table[i].state != ASKING then s
    else
      var e := s.table[i];
      var log := Called(s.log, e.found);
      match reply
      case Answer(ttl) => s.(table := s.table[i := e.(state := DONE, ttl := if ttl > MAX_TTL then MAX_TTL else ttl)], log := log)
      case Failure => s.(table := s.table[i := e.(state := UNUSED, found := None)], log := log)
  }

  // -------------------------------------------------------------------- dns_enqueue

  function FirstUnused(t: Table, i: nat): (r: nat)
    requires i <= |t|
    ensures i <= r <= |t| && (r < |t| ==> t[r].state == UNUSED) && forall k :: i <= k < r ==> t[k].state != UNUSED
    decreases |t| - i
  {
    if i == |t| || t[i].state == UNUSED then i else FirstUnused(t, i + 1)
  }

  /** How old an entry looks; after the sequence number has wrapped the result can be negative. */
  function Age(e: Entry, seqno: nat): int {
    seqno - e.seqno
  }

  /** The search for the completed entry that looks oldest, among the first n: its age and index. */
  function Oldest(t: Table, seqno: nat, n: nat): (r: (nat, nat))
    requires n <= |t|
    ensures r.1 < |t| || r.1 == 0
    ensures r.0 > 0 ==> r.1 < n && t[r.1].state == DONE && Age(t[r.1], seqno) == r.0
    ensures r.0 == 0 ==> r.1 == 0
    ensures forall i :: 0 <= i < n && t[i].state == DONE ==> Age(t[i], seqno) <= r.0
  {
    if n == 0 then (0, 0)
    else
      var r := Oldest(t, seqno, n - 1);
      if t[n - 1].state == DONE && Age(t[n - 1], seqno) > r.0 then (Age(t[n - 1], seqno), n - 1) else r
  }

  /** The entry for a new query: an unused one, else the completed one that looks oldest. */
  function Slot(t: Table, seqno: nat): Option<nat> {
    var i := FirstUnused(t, 0);
    if i < |t| then Some(i)
    else
      var o := Oldest(t, seqno, |t|).1;
      if o >= |t| || t[o].state != DONE then None else Some(o)
  }

  function Fresh(e: Entry, seqno: nat, query: nat, found: Option<nat>): Entry {
    e.(state := NEW, seqno := seqno, query := query, found := found)
  }

  /** The query as accepted in entry i; the entry is checked at once. */
  function Enqueue(s: Resolver, callback: bool, servers: Servers): (Resolver, bool) {
    match Slot(s.table, s.seqno)
    case None => (s, false)
    case Some(i) =>
      var found := if callback then Some(|s.calls|) else None;
      if i >= |s.table| then (s, false)
      else (CheckAt(s.(table := s.table[i := Fresh(s.table[i], s.seqno, |s.calls|, found)], seqno := (s.seqno + 1) % 256,
                       calls := s.calls + [callback]), i, servers), true)
  }

  // ---------------------------------------------------------------- what is kept

  predicate EntryOk(e: Entry, servers: Servers) {
    && e.state != NEW
    && (e.state == ASKING ==>
          && e.numdns < |servers| && e.retries < MAX_RETRIES
          && 1 <= e.tmr <= if e.retries == 0 then 1 else e.retries)
    && (e.state == DONE ==> e.ttl < U32)
  }

  /** Query k is being asked in entry i. */
  predicate AsksFor(t: Table, i: nat, k: nat) {
    i < |t| && t[i].state == ASKING && t[i].found == Some(k)
  }

  ghost predicate Asked(t: Table, k: nat) {
    exists i: nat :: AsksFor(t, i, k)
  }

  /** A query with a callback is either still asked, or its callback has been called, once. */
  ghost predicate QueryOk(s: Resolver, k: nat)
    requires k < |s.calls|
  {
    multiset(s.log)[k] == if s.calls[k] && !Asked(s.table, k) then 1 else 0
  }

  /** Different entries ask different queries, queries that came with a callback. */
  predicate FoundOk(s: Resolver, i: nat, j: nat)
    requires i < |s.table| && j < |s.table|
  {
    s.table[i].state == ASKING && s.table[i].found.Some? ==>
      && s.table[i].found.value < |s.calls| && s.calls[s.table[i].found.value]
      && (i != j && s.table[j].state == ASKING ==> s.table[i].found != s.table[j].found)
  }

  ghost predicate Inv(s: Resolver, servers: Servers) {
    && |s.table| == TABLE_SIZE && s.seqno < 256 && |servers| > 0
    && (forall i :: 0 <= i < |s.table| ==> EntryOk(s.table[i], servers) && s.table[i].seqno < 256)
    && (forall i, j :: 0 <= i < |s.table| && 0 <= j < |s.table| ==> FoundOk(s, i, j))
    && (forall k :: 0 <= k < |s.calls| ==> QueryOk(s, k))
    && (forall k :: k in s.log ==> k < |s.calls|)
  }

  /** An entry goes on asking the same query, or was not asking and still is not. */
  lemma SameKeeps(s: Resolver, i: nat, e: Entry, servers: Servers)
    requires Inv(s, servers) && i < |s.table| && EntryOk(e, servers) && e.seqno < 256
    requires (e.state == ASKING) == (s.table[i].state == ASKING) && (e.state == ASKING ==> e.found == s.table[i].found)
    ensures Inv(s.(table := s.table[i := e]), servers)
  {
    var s' := s.(table := s.table[i := e]);
    forall a, b | 0 <= a < |s'.table| && 0 <= b < |s'.table| ensures FoundOk(s', a, b) { assert FoundOk(s, a, b); }
    forall k: nat ensures Asked(s'.table, k) <==> Asked(s.table, k) {
      forall j: nat ensures AsksFor(s'.table, j, k) <==> AsksFor(s.table, j, k) { }
    }
    forall k | 0 <= k < |s'.calls| ensures QueryOk(s', k) { assert QueryOk(s, k); }
  }

  /** A query ends: its entry asks no more and its callback is called. */
  lemma EndKeeps(s: Resolver, i: nat, e: Entry, servers: Servers)
    requires Inv(s, servers) && i < |s.table| && s.table[i].state == ASKING
    requires EntryOk(e, servers) && e.seqno < 256 && e.state != ASKING
    ensures Inv(s.(table := s.table[i := e], log := Called(s.log, s.table[i].found)), servers)
  {
    var found := s.table[i].found;
    var s' := s.(table := s.table[i := e], log := Called(s.log, found));
    assert FoundOk(s, i, i);
    forall a, b | 0 <= a < |s'.table| && 0 <= b < |s'.table| ensures FoundOk(s', a, b) { assert FoundOk(s, a, b); }
    forall k | 0 <= k < |s'.calls| ensures QueryOk(s', k) {
      assert QueryOk(s, k);
      forall j: nat ensures AsksFor(s'.table, j, k) <==> j != i && AsksFor(s.table, j, k) { }
      if found == Some(k) {
        assert AsksFor(s.table, i, k);
        forall j: nat | j < |s.table| && j != i ensures !AsksFor(s.table, j, k) { assert FoundOk(s, i, j); }
        assert !Asked(s'.table, k);
      } else {
        assert !AsksFor(s.table, i, k);
        assert Asked(s'.table, k) <==> Asked(s.table, k);
      }
    }
  }

  lemma CheckKeeps(s: Resolver, i: nat, servers: Servers)
    requires Inv(s, servers) && i < |s.table|
    ensures Inv(CheckAt(s, i, servers), servers)
  {
    var e := s.table[i];
    assert EntryOk(e, servers);
    var (e', k) := Check(e, servers);
    if e.state == ASKING && e'.state != ASKING {
      EndKeeps(s, i, e', servers);
    } else {
      SameKeeps(s, i, e', servers);
    }
  }

  lemma {:induction false} CheckFromKeeps(s: Resolver, i: nat, servers: Servers)
    requires Inv(s, servers) && i <= |s.table|
    ensures Inv(CheckFrom(s, i, servers), servers)
    decreases |s.table| - i
  {
    if i < |s.table| {
      CheckKeeps(s, i, servers);
      CheckFromKeeps(CheckAt(s, i, servers), i + 1, servers);
    }
  }

  lemma ReceiveKeeps(s: Resolver, i: nat, reply: Reply, servers: Servers)
    requires Inv(s, servers)
    ensures Inv(Receive(s, i, reply), servers)
  {
    if i < |s.table| && s.table[i].state == ASKING {
      var e := s.table[i];
      match reply
      case Answer(ttl) => EndKeeps(s, i, e.(state := DONE, ttl := if ttl > MAX_TTL then MAX_TTL else ttl), servers);
      case Failure => EndKeeps(s, i, e.(state := UNUSED, found := None), servers);
    }
  }

  /** A new query takes an entry that was not asking. */
  lemma EnqueueKeeps(s: Resolver, callback: bool, servers: Servers)
    requires Inv(s, servers)
    ensures Inv(Enqueue(s, callback, servers).0, servers)
  {
    var slot := Slot(s.table, s.seqno);
    if slot.Some? {
      var i, q := slot.value, |s.calls|;
      var found := if callback then Some(q) else None;
      var e := Fresh(s.table[i], s.seqno, q, found).(state := ASKING, numdns := 0, tmr := 1, retries := 0);
      var s' := Enqueue(s, callback, servers).0;
      assert s'.table == s.table[i := e];
      forall a | 0 <= a < |s.table| && s.table[a].state == ASKING && s.table[a].found.Some? ensures s.table[a].found.value < q {
        assert FoundOk(s, a, a);
      }
      forall a, b | 0 <= a < |s'.table| && 0 <= b < |s'.table| ensures FoundOk(s', a, b) { assert FoundOk(s, a, b); }
      forall k | 0 <= k < |s'.calls| ensures QueryOk(s', k) {
        if k < q {
          assert QueryOk(s, k);
          forall j: nat ensures AsksFor(s'.table, j, k) <==> AsksFor(s.table, j, k) { }
          assert Asked(s'.table, k) <==> Asked(s.table, k);
        } else {
          assert q !in s.log;
          if callback { assert AsksFor(s'.table, i, q); }
        }
      }
    }
  }

  // ------------------------------------------------------------------- enqueueing

  /** A query is refused if and only if no entry is unused, every completed one looks younger than
      now, as happens after the sequence number has wrapped, and the first is not completed. */
  lemma RefusedExactly(s: Resolver, callback: bool, servers: Servers)
    requires Inv(s, servers)
    ensures !Enqueue(s, callback, servers).1 <==>
      && s.table[0].state == ASKING
      && forall i :: 0 <= i < |s.table| ==>
           s.table[i].state == ASKING || (s.table[i].state == DONE && s.table[i].seqno >= s.seqno)
  {
    assert forall i :: 0 <= i < |s.table| ==> EntryOk(s.table[i], servers);
    var r := Oldest(s.table, s.seqno, |s.table|);
    if r.0 == 0 {
      forall i | 0 <= i < |s.table| && s.table[i].state == DONE ensures s.table[i].seqno >= s.seqno {
        assert Age(s.table[i], s.seqno) <= 0;
      }
    } else {
      assert s.table[r.1].seqno < s.seqno;
    }
  }

  // ------------------------------------------------------------------- time-outs

  /** Ticks from the present retry to the last: the pauses are 1, 1, 2, 3, .. */
  function PausesAfter(retries: nat): nat
    decreases MAX_RETRIES - retries
  {
    if retries + 1 >= MAX_RETRIES then 0 else retries + 1 + PausesAfter(retries + 1)
  }

  /** Configured servers behind numdns, without a gap. */
  function ServersAfter(numdns: nat, servers: Servers): nat
    decreases |servers| - numdns
  {
    if numdns + 1 < |servers| && servers[numdns + 1] then 1 + ServersAfter(numdns + 1, servers) else 0
  }

  /** Ticks for which one server is asked. */
  const PER_SERVER := 1 + MAX_RETRIES * (MAX_RETRIES - 1) / 2

  /** Ticks until an entry times out. */
  function TicksLeft(e: Entry, servers: Servers): nat {
    e.tmr + PausesAfter(e.retries) + PER_SERVER * ServersAfter(e.numdns, servers)
  }

  /** Each server is asked for 1 + R(R-1)/2 ticks; the retries of one server sum up to that. */
  lemma PausesSum()
    ensures 1 + PausesAfter(0) == PER_SERVER
  {
    assert PausesAfter(2) == 3;
  }

  /** A tick takes one off, and the query times out with the last. */
  lemma TickCounts(e: Entry, servers: Servers)
    requires EntryOk(e, servers) && e.state == ASKING
    ensures TicksLeft(e, servers) > 0
    ensures var (e', k) := Check(e, servers);
      if TicksLeft(e, servers) == 1 then e'.state == UNUSED && k == e.found
      else e'.state == ASKING && e'.found == e.found && k == None && TicksLeft(e', servers) == TicksLeft(e, servers) - 1
  {
    PausesSum();
    var (e', k) := Check(e, servers);
    if e.tmr == 1 && e.retries + 1 == MAX_RETRIES && HasNext(e, servers) {
      assert ServersAfter(e.numdns, servers) == 1 + ServersAfter(e.numdns + 1, servers);
      assert PER_SERVER * (1 + ServersAfter(e.numdns + 1, servers)) == PER_SERVER + PER_SERVER * ServersAfter(e.numdns + 1, servers);
    }
  }

  // ------------------------------------------------------------------------ runs

  datatype Event = Timer | Packet(i: nat, reply: Reply) | Query(callback: bool)

  function Step(s: Resolver, e: Event, servers: Servers): Resolver {
    match e
    case Timer => Tick(s, servers)
    case Packet(i, reply) => Receive(s, i, reply)
    case Query(callback) => Enqueue(s, callback, servers).0
  }

  const FREE := Entry(UNUSED, 0, 0, 0, 0, 0, None, 0)

  const EMPTY := Resolver([FREE, FREE, FREE, FREE], 0, [], [])

  ghost predicate IsRun(run: seq<Resolver>, es: seq<Event>, servers: Servers) {
    && |servers| > 0 && |run| == |es| + 1 && run[0] == EMPTY
    && forall i :: 0 <= i < |es| ==> run[i + 1] == Step(run[i], es[i], servers)
  }

  lemma {:induction false} RunKeeps(run: seq<Resolver>, es: seq<Event>, servers: Servers, i: nat)
    requires IsRun(run, es, servers) && i < |run|
    ensures Inv(run[i], servers)
  {
    if i > 0 {
      RunKeeps(run, es, servers, i - 1);
      match es[i - 1]
      case Timer => CheckFromKeeps(run[i - 1], 0, servers);
      case Packet(k, reply) => ReceiveKeeps(run[i - 1], k, reply, servers);
      case Query(callback) => EnqueueKeeps(run[i - 1], callback, servers);
    }
  }

  /** In every run the callback of every query has been called exactly once, or the query is still
      being asked and it has not been called. */
  lemma CalledOnce(run: seq<Resolver>, es: seq<Event>, servers: Servers, i: nat, k: nat)
    requires IsRun(run, es, servers) && i < |run| && k < |run[i].calls|
    ensures run[i].calls[k] && !Asked(run[i].table, k) ==> multiset(run[i].log)[k] == 1
    ensures Asked(run[i].table, k) || !run[i].calls[k] ==> k !in run[i].log
  {
    RunKeeps(run, es, servers, i);
    assert QueryOk(run[i], k);
    assert k !in run[i].log <==> multiset(run[i].log)[k] == 0;
  }

  // ------------------------------------------------------------- the sequence number

  lemma OneMore(run: seq<Resolver>, es: seq<Event>, servers: Servers, e: Event) returns (run': seq<Resolver>, es': seq<Event>)
    requires IsRun(run, es, servers)
    ensures IsRun(run', es', servers) && run'[|run'| - 1] == Step(run[|run| - 1], e, servers)
  {
    run', es' := run + [Step(run[|run| - 1], e, servers)], es + [e];
  }

  /** The states of the four entries. */
  predicate Shows(s: Resolver, a: EntryState, b: EntryState, c: EntryState, d: EntryState) {
    && |s.table| == TABLE_SIZE
    && s.table[0].state == a && s.table[1].state == b && s.table[2].state == c && s.table[3].state == d
  }

  /** The entry shows the sequence number of its query, cut to eight bits. */
  predicate NumberOk(s: Resolver, i: nat)
    requires i < |s.table|
  {
    s.table[i].state != UNUSED ==> s.table[i].query < |s.calls| && s.table[i].seqno == s.table[i].query % 256
  }

  /** Different entries belong to different queries. */
  predicate NumbersDiffer(s: Resolver, i: nat, j: nat)
    requires i < |s.table| && j < |s.table|
  {
    i != j && s.table[i].state != UNUSED && s.table[j].state != UNUSED ==> s.table[i].query != s.table[j].query
  }

  ghost predicate Numbered(s: Resolver) {
    && s.seqno == |s.calls| % 256
    && (forall i :: 0 <= i < |s.table| ==> NumberOk(s, i))
    && (forall i, j :: 0 <= i < |s.table| && 0 <= j < |s.table| ==> NumbersDiffer(s, i, j))
  }

  /** No query comes; entries keep their queries or become unused. */
  predicate KeepsQuery(e: Entry, e': Entry) {
    e'.state != UNUSED ==> e.state != UNUSED && e'.query == e.query && e'.seqno == e.seqno
  }

  predicate KeepsQueries(s: Resolver, s': Resolver) {
    && |s'.table| == |s.table| && s'.seqno == s.seqno && s'.calls == s.calls
    && forall i :: 0 <= i < |s.table| ==> KeepsQuery(s.table[i], s'.table[i])
  }

  lemma KeepsNumbered(s: Resolver, s': Resolver)
    requires Numbered(s) && KeepsQueries(s, s')
    ensures Numbered(s')
  {
    forall i | 0 <= i < |s'.table| ensures NumberOk(s', i) {
      assert NumberOk(s, i) && KeepsQuery(s.table[i], s'.table[i]);
    }
    forall i, j | 0 <= i < |s'.table| && 0 <= j < |s'.table| ensures NumbersDiffer(s', i, j) {
      assert NumbersDiffer(s, i, j) && KeepsQuery(s.table[i], s'.table[i]) && KeepsQuery(s.table[j], s'.table[j]);
    }
  }

  lemma {:induction false} CheckFromQueries(s: Resolver, i: nat, servers: Servers)
    requires i <= |s.table|
    ensures KeepsQueries(s, CheckFrom(s, i, servers))
    decreases |s.table| - i
  {
    if i < |s.table| {
      var s1 := CheckAt(s, i, servers);
      CheckFromQueries(s1, i + 1, servers);
      var s' := CheckFrom(s1, i + 1, servers);
      forall j | 0 <= j < |s.table| ensures KeepsQuery(s.table[j], s'.table[j]) {
        assert KeepsQuery(s.table[j], s1.table[j]) && KeepsQuery(s1.table[j], s'.table[j]);
      }
    }
  }

  lemma EnqueueNumbered(s: Resolver, callback: bool, servers: Servers)
    requires Numbered(s)
    ensures Numbered(Enqueue(s, callback, servers).0)
  {
    var (s', ok) := Enqueue(s, callback, servers);
    if ok {
      forall i | 0 <= i < |s'.table| ensures NumberOk(s', i) { assert NumberOk(s, i); }
      forall i, j | 0 <= i < |s'.table| && 0 <= j < |s'.table| ensures NumbersDiffer(s', i, j) {
        assert NumbersDiffer(s, i, j) && NumberOk(s, i) && NumberOk(s, j);
      }
    }
  }

  lemma {:induction false} RunNumbered(run: seq<Resolver>, es: seq<Event>, servers: Servers, i: nat)
    requires IsRun(run, es, servers) && i < |run|
    ensures Numbered(run[i])
  {
    if i > 0 {
      var s := run[i - 1];
      RunNumbered(run, es, servers, i - 1);
      match es[i - 1]
      case Timer =>
        CheckFromQueries(s, 0, servers);
        KeepsNumbered(s, run[i]);
      case Packet(k, reply) => KeepsNumbered(s, run[i]);
      case Query(callback) => EnqueueNumbered(s, callback, servers);
    }
  }

  /** Of the completed entries, i belongs to the query that came first. */
  predicate IsOldest(t: Table, i: nat) {
    && i < |t| && t[i].state == DONE
    && forall k :: 0 <= k < |t| && t[k].state == DONE ==> t[i].query <= t[k].query
  }

  /** What dns_enqueue means to do when no entry is unused: give up the oldest completed one, and refuse
      the query only if there is none. */
  predicate ReusesOldest(s: Resolver) {
    FirstUnused(s.table, 0) == |s.table| ==>
      match Slot(s.table, s.seqno)
      case None => forall k :: 0 <= k < |s.table| ==> s.table[k].state != DONE
      case Some(i) => IsOldest(s.table, i)
  }

  /** Fewer than 256 queries have come, so the sequence number is the number of the query. */
  lemma OldestIsReused(s: Resolver)
    requires Numbered(s) && |s.calls| < 256
    ensures ReusesOldest(s)
  {
    var r := Oldest(s.table, s.seqno, |s.table|);
    forall k | 0 <= k < |s.table| && s.table[k].state == DONE ensures 0 < Age(s.table[k], s.seqno) <= r.0 {
      assert NumberOk(s, k);
    }
    forall k | 0 <= k < |s.table| && s.table[k].state != UNUSED
      ensures s.table[k].query == s.table[k].seqno && Age(s.table[k], s.seqno) == s.seqno - s.table[k].query
    {
      assert NumberOk(s, k);
    }
  }

  /** Queries that fail use up sequence numbers and nothing else.  They all take the first unused entry. */
  lemma {:induction false} FailedQueries(run0: seq<Resolver>, es0: seq<Event>, servers: Servers, i: nat, n: nat)
      returns (run: seq<Resolver>, es: seq<Event>)
    requires IsRun(run0, es0, servers) && Free(run0[|run0| - 1], i)
    ensures IsRun(run, es, servers) && Free(run[|run| - 1], i)
    ensures OthersStay(run0[|run0| - 1], run[|run| - 1], i) && |run[|run| - 1].calls| == |run0[|run0| - 1].calls| + n
    decreases n
  {
    if n == 0 {
      run, es := run0, es0;
    } else {
      run, es := FailedQueries(run0, es0, servers, i, n - 1);
      run, es := AskedQuery(run, es, servers, i);
      run, es := OneMore(run, es, servers, Packet(i, Failure));
    }
  }

  /** Entry i is the first that is unused. */
  predicate Free(s: Resolver, i: nat) {
    i < |s.table| && s.table[i].state == UNUSED && forall j :: 0 <= j < i ==> s.table[j].state != UNUSED
  }

  predicate OthersStay(s: Resolver, s': Resolver, i: nat) {
    |s'.table| == |s.table| && forall j :: 0 <= j < |s.table| && j != i ==> s'.table[j] == s.table[j]
  }

  /** A query takes the first unused entry. */
  lemma AskedQuery(run: seq<Resolver>, es: seq<Event>, servers: Servers, i: nat)
      returns (run': seq<Resolver>, es': seq<Event>)
    requires IsRun(run, es, servers) && Free(run[|run| - 1], i)
    ensures IsRun(run', es', servers)
    ensures var s, s' := run[|run| - 1], run'[|run'| - 1];
      && OthersStay(s, s', i) && |s'.calls| == |s.calls| + 1
      && s'.table[i].state == ASKING && s'.table[i].query == |s.calls|
  {
    assert FirstUnused(run[|run| - 1].table, 0) == i;
    run', es' := OneMore(run, es, servers, Query(false));
  }

  /** So does one that is answered with a time to live of 100. */
  lemma AnsweredQuery(run: seq<Resolver>, es: seq<Event>, servers: Servers, i: nat)
      returns (run': seq<Resolver>, es': seq<Event>)
    requires IsRun(run, es, servers) && Free(run[|run| - 1], i)
    ensures IsRun(run', es', servers)
    ensures var s, s' := run[|run| - 1], run'[|run'| - 1];
      && OthersStay(s, s', i) && |s'.calls| == |s.calls| + 1
      && s'.table[i].state == DONE && s'.table[i].query == |s.calls|
  {
    run', es' := AskedQuery(run, es, servers, i);
    run', es' := OneMore(run', es', servers, Packet(i, Answer(100)));
  }

  /** All entries are taken: the first by query n - 256, which is answered or not, the others by the
      queries n - 3, n - 2 and n - 1, which are answered. */
  predicate Wrapped(s: Resolver, n: nat, answered: bool)
    requires n >= 256
  {
    && |s.calls| == n && Shows(s, if answered then DONE else ASKING, DONE, DONE, DONE)
    && s.table[0].query == n - 256
    && s.table[1].query == n - 3 && s.table[2].query == n - 2 && s.table[3].query == n - 1
  }

  lemma WrappedRun(servers: Servers, n: nat, answered: bool) returns (run: seq<Resolver>, es: seq<Event>)
    requires |servers| > 0 && n >= 256
    ensures IsRun(run, es, servers) && Wrapped(run[|run| - 1], n, answered)
  {
    run, es := [EMPTY], [];
    run, es := FailedQueries(run, es, servers, 0, n - 256);
    if answered {
      run, es := AnsweredQuery(run, es, servers, 0);
    } else {
      run, es := AskedQuery(run, es, servers, 0);
    }
    run, es := FailedQueries(run, es, servers, 1, 252);
    run, es := AnsweredQuery(run, es, servers, 1);
    run, es := AnsweredQuery(run, es, servers, 2);
    run, es := AnsweredQuery(run, es, servers, 3);
  }

  lemma LowBytes(n: nat)
    requires n >= 256
    ensures (n - 256) % 256 == n % 256
    ensures n % 256 == 0 ==> (n - 1) % 256 == 255 && (n - 2) % 256 == 254 && (n - 3) % 256 == 253
    ensures n % 256 != 0 ==> (n - 1) % 256 == n % 256 - 1
  {
  }

  lemma WrappedAges(s: Resolver, n: nat, answered: bool)
    requires n >= 256 && Wrapped(s, n, answered) && Numbered(s)
    ensures Age(s.table[0], s.seqno) == 0
    ensures s.seqno == n % 256
    ensures n % 256 != 0 ==> Age(s.table[3], s.seqno) == 1
    ensures n % 256 == 0 ==>
      Age(s.table[1], s.seqno) == -253 && Age(s.table[2], s.seqno) == -254 && Age(s.table[3], s.seqno) == -255
  {
    LowBytes(n);
    assert NumberOk(s, 0) && NumberOk(s, 1) && NumberOk(s, 2) && NumberOk(s, 3);
  }

  /** The oldest entry looks new, as its number is that of the next query again. */
  lemma WrappedMisses(s: Resolver, n: nat, wraps: bool)
    requires n >= 256 && wraps == (n % 256 == 0) && Wrapped(s, n, !wraps) && Numbered(s)
    ensures !ReusesOldest(s)
  {
    WrappedAges(s, n, !wraps);
    var o := Oldest(s.table, s.seqno, |s.table|);
    if wraps {
      assert o.0 == 0;
      assert s.table[1].state == DONE;
    } else {
      assert o.0 >= 1 && o.1 != 0;
      assert s.table[0].state == DONE && s.table[0].query < s.table[o.1].query;
    }
  }

  /** In every run in which n queries have been accepted. */
  ghost predicate AlwaysReusesOldest(servers: Servers, n: nat) {
    forall run: seq<Resolver>, es: seq<Event> :: IsRun(run, es, servers) && |run[|run| - 1].calls| == n ==> ReusesOldest(run[|run| - 1])
  }

  /** dns_enqueue gives up the oldest completed entry, whatever happened before, exactly as long as
      fewer than 256 queries have been accepted. */
  lemma OldestReusedExactly(servers: Servers, n: nat)
    requires |servers| > 0
    ensures AlwaysReusesOldest(servers, n) <==> n < 256
  {
    if n < 256 {
      forall run: seq<Resolver>, es: seq<Event> | IsRun(run, es, servers) && |run[|run| - 1].calls| == n
        ensures ReusesOldest(run[|run| - 1]) {
        RunNumbered(run, es, servers, |run| - 1);
        OldestIsReused(run[|run| - 1]);
      }
    } else {
      var wraps := n % 256 == 0;
      var run, es := WrappedRun(servers, n, !wraps);
      RunNumbered(run, es, servers, |run| - 1);
      WrappedMisses(run[|run| - 1], n, wraps);
    }
  }

  /** After the wrap a query can even be refused although three of four entries could be reused. */
  lemma RefusedAfterWrap(servers: Servers, callback: bool) returns (run: seq<Resolver>, es: seq<Event>)
    requires |servers| > 0
    ensures IsRun(run, es, servers)
    ensures Shows(run[|run| - 1], ASKING, DONE, DONE, DONE)
    ensures !Enqueue(run[|run| - 1], callback, servers).1
  {
    run, es := WrappedRun(servers, 256, false);
    var s := run[|run| - 1];
    RunKeeps(run, es, servers, |run| - 1);
    RunNumbered(run, es, servers, |run| - 1);
    WrappedAges(s, 256, false);
    RefusedExactly(s, callback, servers);
  }

  // --------------------------------------------- a query is over after its ticks

  function Timers(es: seq<Event>, a: nat, b: nat): nat
    requires a <= b <= |es|
    decreases b
  {
    if a == b then 0 else Timers(es, a, b - 1) + if es[b - 1].Timer? then 1 else 0
  }

  lemma {:induction false} CheckFromAt(s: Resolver, j: nat, i: nat, servers: Servers)
    requires j <= |s.table| && i < |s.table|
    ensures CheckFrom(s, j, servers).table[i] == if i < j then s.table[i] else Check(s.table[i], servers).0
    decreases |s.table| - j
  {
    if j < |s.table| { CheckFromAt(CheckAt(s, j, servers), j + 1, i, servers); }
  }

  /** What an event does to a query that is being asked. */
  lemma StepAsked(s: Resolver, e: Event, servers: Servers, i: nat, k: nat)
    requires Inv(s, servers) && AsksFor(s.table, i, k)
    ensures var s' := Step(s, e, servers);
      var n, t := TicksLeft(s.table[i], servers), if e.Timer? then 1 else 0;
      n > 0 && |s'.table| == |s.table|
      && (s'.table[i].state == ASKING && s'.table[i].found == Some(k) ==> TicksLeft(s'.table[i], servers) == n - t && n > t)
      && (!AsksFor(s'.table, i, k) ==> !Asked(s'.table, k))
  {
    assert EntryOk(s.table[i], servers) && FoundOk(s, i, i);
    TickCounts(s.table[i], servers);
    var s' := Step(s, e, servers);
    if e.Timer? { CheckFromAt(s, 0, i, servers); }
    forall j: nat | j != i && j < |s.table| ensures !AsksFor(s'.table, j, k) {
      assert FoundOk(s, i, j) && EntryOk(s.table[j], servers);
      if e.Timer? { CheckFromAt(s, 0, j, servers); }
    }
  }

  /** Once it is no longer asked, a query is never asked again. */
  lemma StepOver(s: Resolver, e: Event, servers: Servers, k: nat)
    requires Inv(s, servers) && k < |s.calls| && !Asked(s.table, k)
    ensures !Asked(Step(s, e, servers).table, k)
  {
    var s' := Step(s, e, servers);
    forall j: nat | j < |s.table| ensures !AsksFor(s'.table, j, k) {
      assert !AsksFor(s.table, j, k) && EntryOk(s.table[j], servers);
      if e.Timer? { CheckFromAt(s, 0, j, servers); }
    }
    StepSize(s, e, servers);
  }

  lemma StepSize(s: Resolver, e: Event, servers: Servers)
    ensures |Step(s, e, servers).table| == |s.table| && |Step(s, e, servers).calls| >= |s.calls|
    ensures Step(s, e, servers).calls[..|s.calls|] == s.calls
  {
    if e.Timer? { CheckFromCalls(s, 0, servers); }
  }

  lemma {:induction false} CheckFromCalls(s: Resolver, i: nat, servers: Servers)
    requires i <= |s.table|
    ensures CheckFrom(s, i, servers).calls == s.calls
    decreases |s.table| - i
  {
    if i < |s.table| { CheckFromCalls(CheckAt(s, i, servers), i + 1, servers); }
  }

  lemma {:induction false} StillAskedBound(run: seq<Resolver>, es: seq<Event>, servers: Servers, a: nat, b: nat, k: nat)
    requires IsRun(run, es, servers) && a <= b < |run| && k < |run[a].calls|
    requires Asked(run[a].table, k)
    ensures k < |run[b].calls|
    ensures Asked(run[b].table, k) ==>
      exists i: nat, j: nat :: AsksFor(run[a].table, i, k) && AsksFor(run[b].table, j, k)
        && TicksLeft(run[b].table[j], servers) + Timers(es, a, b) == TicksLeft(run[a].table[i], servers)
    decreases b - a
  {
    if a == b {
      var i: nat :| AsksFor(run[a].table, i, k);
    } else {
      StillAskedBound(run, es, servers, a, b - 1, k);
      RunKeeps(run, es, servers, b - 1);
      StepSize(run[b - 1], es[b - 1], servers);
      if Asked(run[b].table, k) {
        if !Asked(run[b - 1].table, k) { StepOver(run[b - 1], es[b - 1], servers, k); }
        var i: nat, j: nat :| AsksFor(run[a].table, i, k) && AsksFor(run[b - 1].table, j, k)
          && TicksLeft(run[b - 1].table[j], servers) + Timers(es, a, b - 1) == TicksLeft(run[a].table[i], servers);
        StepAsked(run[b - 1], es[b - 1], servers, j, k);
        assert AsksFor(run[b].table, j, k);
      }
    }
  }

  /** In every run a query with a callback, accepted at step a, is over when as many ticks have
      passed as its servers take, 1 + R(R-1)/2 each, and its callback has been called once. */
  lemma AnsweredInTime(run: seq<Resolver>, es: seq<Event>, servers: Servers, a: nat, b: nat)
    requires IsRun(run, es, servers) && a < b < |run| && es[a] == Query(true) && |run[a + 1].calls| > |run[a].calls|
    requires Timers(es, a + 1, b) >= PER_SERVER * (1 + ServersAfter(0, servers))
    ensures multiset(run[b].log)[|run[a].calls|] == 1
  {
    var k := |run[a].calls|;
    RunKeeps(run, es, servers, a);
    var i := AcceptedAsks(run[a], servers);
    OverInTime(run, es, servers, a + 1, b, i, k);
    CallsGrow(run, es, servers, a + 1, b);
    CalledOnce(run, es, servers, b, k);
  }

  /** An accepted query is asked, with the ticks of all servers before it. */
  lemma AcceptedAsks(s: Resolver, servers: Servers) returns (i: nat)
    requires Inv(s, servers) && Enqueue(s, true, servers).1
    ensures var s' := Enqueue(s, true, servers).0;
      AsksFor(s'.table, i, |s.calls|) && TicksLeft(s'.table[i], servers) == PER_SERVER * (1 + ServersAfter(0, servers))
  {
    i := Slot(s.table, s.seqno).value;
    PausesSum();
  }

  lemma OverInTime(run: seq<Resolver>, es: seq<Event>, servers: Servers, a: nat, b: nat, i: nat, k: nat)
    requires IsRun(run, es, servers) && a <= b < |run| && k < |run[a].calls| && AsksFor(run[a].table, i, k)
    requires Timers(es, a, b) >= TicksLeft(run[a].table[i], servers)
    ensures !Asked(run[b].table, k)
  {
    RunKeeps(run, es, servers, a);
    RunKeeps(run, es, servers, b);
    StillAskedBound(run, es, servers, a, b, k);
    forall j: nat ensures AsksFor(run[b].table, j, k) ==> TicksLeft(run[b].table[j], servers) > 0 {
      if j < |run[b].table| && run[b].table[j].state == ASKING {
        assert EntryOk(run[b].table[j], servers);
        TickCounts(run[b].table[j], servers);
      }
    }
    OnlyOneAsks(run[a], servers, i, k);
  }

  lemma OnlyOneAsks(s: Resolver, servers: Servers, i: nat, k: nat)
    requires Inv(s, servers) && AsksFor(s.table, i, k)
    ensures forall j: nat :: AsksFor(s.table, j, k) ==> j == i
  {
    forall j: nat | j < |s.table| && j != i ensures !AsksFor(s.table, j, k) { assert FoundOk(s, i, j); }
  }

  lemma {:induction false} CallsGrow(run: seq<Resolver>, es: seq<Event>, servers: Servers, a: nat, b: nat)
    requires IsRun(run, es, servers) && a <= b < |run|
    ensures |run[a].calls| <= |run[b].calls| && run[b].calls[..|run[a].calls|] == run[a].calls
    decreases b - a
  {
    if a < b {
      CallsGrow(run, es, servers, a, b - 1);
      StepSize(run[b - 1], es[b - 1], servers);
      assert run[b].calls[..|run[b - 1].calls|][..|run[a].calls|] == run[b].calls[..|run[a].calls|];
    }
  }

  // ----------------------------------------------------------------- cached answers

  function Checks(e: Entry, servers: Servers, n: nat): Entry
    decreases n
  {
    if n == 0 then e else Checks(Check(e, servers).0, servers, n - 1)
  }

  /** An answer is kept for as many ticks as its time to live says, but a time to live of 0 wraps
      and keeps it for 2^32. */
  lemma {:induction false} AnswerLasts(e: Entry, servers: Servers, n: nat)
    requires e.state == DONE && e.ttl < U32
    ensures Checks(e, servers, n).state == DONE <==> n < if e.ttl == 0 then U32 else e.ttl
    decreases n
  {
    if n > 0 {
      var e' := Check(e, servers).0;
      if e'.state == DONE {
        AnswerLasts(e', servers, n - 1);
      } else {
        UnusedStays(e', servers, n - 1);
      }
    }
  }

  lemma {:induction false} UnusedStays(e: Entry, servers: Servers, n: nat)
    requires e.state == UNUSED
    ensures Checks(e, servers, n) == e
    decreases n
  {
    if n > 0 { UnusedStays(e, servers, n - 1); }
  }

  /** What a packet does: to an entry that is being asked it calls the callback at once, stores the answer
      or frees the entry, and nothing else changes; for any other entry it does nothing. */
  lemma PacketEffect(s: Resolver, i: nat, reply: Reply)
    ensures var s' := Receive(s, i, reply);
      && |s'.table| == |s.table| && s'.seqno == s.seqno && s'.calls == s.calls
      && (forall j :: 0 <= j < |s.table| && j != i ==> s'.table[j] == s.table[j])
      && if i < |s.table| && s.table[i].state == ASKING
         then s'.log == s.log + (if s.table[i].found.Some? then [s.table[i].found.value] else [])
           && s'.table[i].state == if reply.Answer? then DONE else UNUSED
         else s' == s
  {
  }

  /** An answer is kept for as many ticks as the packet says, but no more than a week of seconds, and one
      that says 0 for 2^32 ticks. */
  lemma AnswerKeptFor(s: Resolver, i: nat, ttl: nat, servers: Servers, n: nat)
    requires i < |s.table| && s.table[i].state == ASKING
    ensures i < |Receive(s, i, Answer(ttl)).table|
    ensures Checks(Receive(s, i, Answer(ttl)).table[i], servers, n).state == DONE
      <==> n < if ttl == 0 then U32 else if ttl <= 7 * 24 * 3600 then ttl else 7 * 24 * 3600
  {
    AnswerLasts(Receive(s, i, Answer(ttl)).table[i], servers, n);
  }

  /** The ticks that are left tell how many servers are still to come. */
  lemma LeftTellsServer(e: Entry, servers: Servers)
    requires EntryOk(e, servers) && e.state == ASKING
    ensures (TicksLeft(e, servers) - 1) / PER_SERVER == ServersAfter(e.numdns, servers)
  {
    PausesSum();
    assert 1 <= e.tmr + PausesAfter(e.retries) <= PER_SERVER by {
      assert PausesAfter(3) == 0 && PausesAfter(2) == 3 && PausesAfter(1) == 5 && PausesAfter(0) == 6;
    }
    Quotient(e.tmr + PausesAfter(e.retries) - 1, ServersAfter(e.numdns, servers));
  }

  lemma Quotient(r: nat, q: nat)
    requires r < PER_SERVER
    ensures (r + PER_SERVER * q) / PER_SERVER == q
  {
  }

  /** A tick moves on to the next server at most. */
  lemma TickMoves(e: Entry, servers: Servers)
    requires EntryOk(e, servers) && e.state == ASKING
    ensures var d := Check(e, servers).0;
      d.state == ASKING ==>
        && EntryOk(d, servers) && d.numdns + ServersAfter(d.numdns, servers) == e.numdns + ServersAfter(e.numdns, servers)
        && (d.numdns == e.numdns || servers[d.numdns])
  {
  }

  /** A new query that gets no answer asks the configured servers in turn, each for 1 + R(R-1)/2 ticks. */
  lemma {:induction false} ServersInTurn(e: Entry, servers: Servers, n: nat)
    requires |servers| > 0 && e.state == ASKING && e.numdns == 0 && e.tmr == 1 && e.retries == 0
    requires n < PER_SERVER * (1 + ServersAfter(0, servers))
    ensures var d := Checks(e, servers, n);
      && EntryOk(d, servers) && d.state == ASKING && d.numdns == n / PER_SERVER && (d.numdns > 0 ==> servers[d.numdns])
      && TicksLeft(d, servers) == PER_SERVER * (1 + ServersAfter(0, servers)) - n
      && d.numdns + ServersAfter(d.numdns, servers) == ServersAfter(0, servers)
  {
    PausesSum();
    if n > 0 {
      ServersInTurn(e, servers, n - 1);
      ChecksLast(e, servers, n);
      var c, d := Checks(e, servers, n - 1), Checks(e, servers, n);
      TickCounts(c, servers);
      TickMoves(c, servers);
      LeftTellsServer(d, servers);
      TurnIs(ServersAfter(0, servers), n, ServersAfter(d.numdns, servers));
    }
  }

  lemma {:induction false} ChecksLast(e: Entry, servers: Servers, n: nat)
    requires n > 0
    ensures Checks(e, servers, n) == Check(Checks(e, servers, n - 1), servers).0
    decreases n
  {
    if n > 1 { ChecksLast(Check(e, servers).0, servers, n - 1); }
  }

  lemma TurnIs(s0: nat, n: nat, left: nat)
    requires n < PER_SERVER * (1 + s0) && (PER_SERVER * (1 + s0) - n - 1) / PER_SERVER == left
    ensures left <= s0 && s0 - left == n / PER_SERVER
  {
  }
}
