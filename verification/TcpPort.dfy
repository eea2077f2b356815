/**
  tcp_new_port (tcp.c): a search through the dynamic ports, starting behind the port
  given out last and going round, for one that no PCB on any list uses.
*/
module TcpPort {
  const FIRST := 0xc000
  const LAST := 0xffff
  const PORTS := LAST - FIRST + 1

  /** The local ports of the PCBs on each of the lists. */
  type Lists = seq<seq<nat>>

  predicate InUse(lists: Lists, port: nat) {
    exists i :: 0 <= i < |lists| && port in lists[i]
  }

  predicate InRange(port: nat) {
    FIRST <= port <= LAST
  }

  /** The k-th port behind a port, going round. */
  function After(port: nat, k: nat): (p: nat)
    requires InRange(port)
    ensures InRange(p)
  {
    FIRST + (port - FIRST + k) % PORTS
  }

  lemma AfterStep(port: nat, k: nat)
    requires InRange(port)
    ensures After(port, k + 1) == if After(port, k) == LAST then FIRST else After(port, k) + 1
  {
    var x := port - FIRST + k;
    assert x == PORTS * (x / PORTS) + x % PORTS;
    if x % PORTS == PORTS - 1 {
      assert x + 1 == PORTS * (x / PORTS + 1);
    } else {
      assert x + 1 == PORTS * (x / PORTS) + (x % PORTS + 1);
    }
  }

  /** Going round once meets every port of the range. */
  lemma RoundMeetsAll(port: nat, p: nat) returns (k: nat)
    requires InRange(port) && InRange(p)
    ensures 1 <= k <= PORTS && After(port, k) == p
  {
    k := if p > port then p - port else p - port + PORTS;
    if p > port {
      assert port - FIRST + k == p - FIRST < PORTS;
    } else {
      assert port - FIRST + k == (p - FIRST) + PORTS;
      assert (p - FIRST + PORTS) % PORTS == p - FIRST;
    }
  }

  /** p is the first unused port behind `port`. */
  ghost predicate IsNext(lists: Lists, port: nat, p: nat)
    requires InRange(port)
  {
    exists k: nat :: 1 <= k <= PORTS && After(port, k) == p && !InUse(lists, p)
      && forall j :: 1 <= j < k ==> InUse(lists, After(port, j))
  }

  class TcpPorts {
    var tcpPort: nat
    var lists: Lists      // tcp_listen, bound, active and time-wait PCBs

    ghost predicate Valid()
      reads this
    {
      InRange(tcpPort) && |lists| == 4
    }

    /** Look for the current port on the lists. */
    method Used() returns (used: bool)
      ensures used <==> InUse(lists, tcpPort)
    {
      var i := 0;
      while i < |lists|
        invariant 0 <= i <= |lists| && forall l :: 0 <= l < i ==> tcpPort !in lists[l]
      {
        var j := 0;
        while j < |lists[i]|
          invariant 0 <= j <= |lists[i]| && tcpPort !in lists[i][..j]
        {
          if lists[i][j] == tcpPort {
            return true;
          }
          j := j + 1;
        }
        assert lists[i][..j] == lists[i];
        i := i + 1;
      }
      used := false;
    }

    /** tcp_new_port: the next unused port, or 0 if and only if all 16384 are in use. */
    method NewPort() returns (port: nat)
      requires Valid()
      modifies `tcpPort
      ensures Valid()
      ensures port == 0 <==> forall p :: InRange(p) ==> InUse(lists, p)
      ensures port != 0 ==> InRange(port) && IsNext(lists, old(tcpPort), port) && tcpPort == port
      ensures port == 0 ==> tcpPort == old(tcpPort)
    {
      var n := 0;
      while true
        invariant 0 <= n < PORTS && tcpPort == After(old(tcpPort), n)
        invariant forall j :: 1 <= j <= n ==> InUse(lists, After(old(tcpPort), j))
        decreases PORTS - n
      {
        AfterStep(old(tcpPort), n);
        tcpPort := tcpPort + 1;
        if tcpPort == LAST + 1 {
          tcpPort := FIRST;
        }
        var used := Used();
        if !used {
          assert After(old(tcpPort), n + 1) == tcpPort;
          return tcpPort;
        }
        n := n + 1;
        if n > LAST - FIRST {
          forall p | InRange(p) ensures InUse(lists, p) {
            var k := RoundMeetsAll(old(tcpPort), p);
          }
          assert After(old(tcpPort), PORTS) == old(tcpPort);
          return 0;
        }
      }
    }
  }
}
