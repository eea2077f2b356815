/**
  The functions of dns.c over the array of table entries, updated in place, each proved
  to do what Dns.dfy specifies.
*/
module DnsTable {
  import opened Common
  import opened Dns

  class DnsClient {
    const table: array<Entry>
    const servers: Servers
    var seqno: nat              // dns_seqno, eight bits
    ghost var calls: seq<bool>
    var next: nat               // the number of the next query
    ghost var log: seq<nat>

    ghost predicate Valid()
      reads this, table
    {
      Inv(Abs(), servers) && next == |calls|
    }

    ghost function Abs(): Resolver
      reads this, table
    {
      Resolver(table[..], seqno, calls, log)
    }

    /** An empty table. */
    constructor (servers: Servers)
      requires servers != []
      ensures Valid() && Abs() == EMPTY && fresh(table) && this.servers == servers
    {
      table := new Entry[TABLE_SIZE](_ => FREE);
      this.servers := servers;
      seqno, calls, next, log := 0, [], 0, [];
      new;
      assert table[..] == EMPTY.table;
      RunKeeps([EMPTY], [], servers, 0);
    }

    /** dns_check_entry without the sending of packets */
    method CheckEntry(i: nat)
      requires i < table.Length
      requires table[i].state == ASKING ==> table[i].tmr > 0
      modifies this`log, table
      ensures Abs() == CheckAt(old(Abs()), i, servers)
    {
      var e := table[i];
      match e.state {
        case NEW =>
          table[i] := e.(state := ASKING, numdns := 0, tmr := 1, retries := 0);
        case ASKING =>
          var tmr := e.tmr - 1;
          if tmr == 0 {
            var retries := e.retries + 1;
            if retries == MAX_RETRIES {
              if e.numdns + 1 < |servers| && servers[e.numdns + 1] {
                table[i] := e.(numdns := e.numdns + 1, tmr := 1, retries := 0);
              } else {
                Callback(e.found);
                table[i] := e.(state := UNUSED, tmr := 0, retries := retries, found := None);
              }
            } else {
              table[i] := e.(tmr := retries, retries := retries);
            }
          } else {
            table[i] := e.(tmr := tmr);
          }
        case DONE =>
          var ttl := (e.ttl + U32 - 1) % U32;
          if ttl == 0 {
            table[i] := e.(ttl := 0, state := UNUSED, found := None);
          } else {
            table[i] := e.(ttl := ttl);
          }
        case UNUSED =>
      }
    }

    /** Call the callback, if there is one. */
    method Callback(found: Option<nat>)
      modifies this`log
      ensures log == Called(old(log), found)
    {
      if found.Some? {
        log := log + [found.value];
      }
    }

    /** dns_check_entries */
    method CheckEntries()
      requires Valid()
      modifies this`log, table
      ensures Valid() && Abs() == Tick(old(Abs()), servers)
    {
      ghost var s0 := Abs();
      var i := 0;
      while i < table.Length
        invariant 0 <= i <= table.Length && Valid()
        invariant CheckFrom(Abs(), i, servers) == Tick(s0, servers)
      {
        assert EntryOk(Abs().table[i], servers);
        CheckKeeps(Abs(), i, servers);
        CheckEntry(i);
        i := i + 1;
      }
    }

    /** dns_recv once the packet has been read: transaction number and outcome */
    method Recv(i: nat, reply: Reply)
      requires Valid()
      modifies this`log, table
      ensures Valid() && Abs() == Receive(old(Abs()), i, reply)
    {
      ReceiveKeeps(Abs(), i, reply, servers);
      if i < table.Length && table[i].state == ASKING {
        ghost var t := table[..];
        var e := table[i];
        table[i] := e.(state := DONE);
        Callback(e.found);
        match reply {
          case Answer(ttl) =>
            table[i] := table[i].(ttl := if ttl > MAX_TTL then MAX_TTL else ttl);
            assert table[..] == t[i := e.(state := DONE, ttl := if ttl > MAX_TTL then MAX_TTL else ttl)];
          case Failure =>
            table[i] := table[i].(state := UNUSED, found := None);
            assert table[..] == t[i := e.(state := UNUSED, found := None)];
        }
      }
    }

    /** The search of dns_enqueue. */
    method FindSlot() returns (r: Option<nat>)
      requires table.Length == TABLE_SIZE && seqno < 256
      requires forall k :: 0 <= k < table.Length ==> table[k].seqno < 256
      ensures r == Slot(table[..], seqno)
    {
      var lseq, lseqi, i: nat := 0, 0, 0;
      while i < table.Length && table[i].state != UNUSED
        invariant 0 <= i <= table.Length && FirstUnused(table[..], 0) == FirstUnused(table[..], i)
        invariant (lseq, lseqi) == Oldest(table[..], seqno, i)
      {
        if table[i].state == DONE && seqno - table[i].seqno > lseq {
          lseq, lseqi := (seqno - table[i].seqno) % 256, i;
        }
        i := i + 1;
      }
      if i == table.Length {
        if lseqi >= table.Length || table[lseqi].state != DONE {
          return None;
        }
        i := lseqi;
      }
      r := Some(i);
    }

    /** dns_enqueue; false stands for ERR_MEM */
    method Enqueue(callback: bool) returns (ok: bool)
      requires Valid()
      modifies this, table
      ensures Valid() && Abs() == Dns.Enqueue(old(Abs()), callback, servers).0
      ensures ok == Dns.Enqueue(old(Abs()), callback, servers).1
    {
      EnqueueKeeps(Abs(), callback, servers);
      var i := FindSlot();
      if i.None? {
        return false;
      }
      var e := table[i.value];
      table[i.value] := Fresh(e, seqno, next, if callback then Some(next) else None);
      seqno := (seqno + 1) % 256;
      next := next + 1;
      calls := calls + [callback];
      CheckEntry(i.value);
      ok := true;
    }
  }
}
