/** The previous version of the port scanner: a map of start times, swept in full. */
module KnockerEpollTimer {
  import opened Knocker
  import opened KnockerLifetimes
  import opened Wrappers

  /** The element an iterator over the map happens to reach next. */
  method Visit<T>(todo: set<T>) returns (x: T)
    requires todo != {}
    ensures x in todo
  {
    x :| x in todo;
  }

  class Scanner {
    const endPort: int
    var activeSocks: map<int, int>
    var port: int
    ghost var scan: Scan

    ghost predicate Valid()
      reads this
    {
      port == scan.port && activeSocks == scan.active
    }

    constructor (startPort: int, endPort: int, clock: int)
      ensures Valid() && this.endPort == endPort && scan == Start(startPort, clock)
    {
      this.endPort := endPort;
      activeSocks, port := map[], startPort;
      scan := Start(startPort, clock);
    }

    /** Erases every timed-out socket, in whatever order the map is visited. */
    method Sweep(now: int)
      requires Valid()
      modifies this
      ensures Valid() && scan == Swept(old(scan), now)
      ensures forall fd :: fd in activeSocks <==> fd in old(activeSocks) && now - old(activeSocks)[fd] <= 2_000_000_000
    {
      ghost var before := activeSocks;
      ghost var gone: set<int> := {};
      var todo: set<int> := activeSocks.Keys;
      while todo != {}
        invariant scan == old(scan) && port == old(port) && todo <= activeSocks.Keys
        invariant gone <= Expired(before, now) && activeSocks == before - gone
        invariant forall fd :: fd in activeSocks && fd !in todo ==> !TimedOut(before[fd], now)
        decreases todo
      {
        var fd := Visit(todo);
        todo := todo - {fd};
        if now - activeSocks[fd] > TIMEOUT_NS {
          activeSocks := activeSocks - {fd};
          gone := gone + {fd};
        }
      }
      forall fd | fd in Expired(before, now)
        ensures fd in gone
      {
        assert fd !in todo;
      }
      assert gone == Expired(before, now);
      scan := Swept(scan, now);
    }

    method Ready(fd: int)
      requires Valid()
      modifies this
      ensures Valid() && scan == Readied(old(scan), fd)
    {
      activeSocks := activeSocks - {fd};
      scan := Readied(scan, fd);
    }

    method HandleBatch(batch: seq<Event>)
      requires Valid()
      modifies this
      ensures Valid() && scan == HandledAll(old(scan), batch)
      ensures forall fd :: fd in activeSocks <==> fd in old(activeSocks) && NoneEnds(batch, fd, old(activeSocks)[fd])
    {
      for i := 0 to |batch|
        invariant Valid() && scan == HandledAll(old(scan), batch[..i])
      {
        assert batch[..i + 1][..i] == batch[..i];
        if batch[i].port == 0 {
          Sweep(batch[i].now);
        } else {
          Ready(batch[i].fd);
        }
      }
      assert batch[..|batch|] == batch;
      forall fd { BatchEnds(old(scan), batch, fd); }
    }

    method FillUp(attempts: seq<Attempt>) returns (outcome: Outcome)
      requires Valid()
      modifies this
      ensures Valid() && Result(scan, outcome) == Fill(old(scan), endPort, None, attempts)
      ensures forall fd ::
        fd in activeSocks <==> fd in old(activeSocks) || Registers(attempts, port - old(port), fd)
    {
      forall fd { FillKeepsOrRegisters(scan, endPort, None, attempts, fd); }
      hide Registers;
      var rest := attempts;
      while |activeSocks| < MAX_IN_FLIGHT && port <= endPort
        invariant Valid()
        invariant Fill(scan, endPort, None, rest) == Fill(old(scan), endPort, None, attempts)
        decreases |rest|
      {
        if rest == [] {
          return Starved;
        }
        var a := rest[0];
        if a.sock < 0 {
          return Failed;
        }
        if a.answer.InProgress? {
          activeSocks := activeSocks[a.sock := a.answer.now];
        }
        port := port + 1;
        scan := Attempted(scan, a);
        rest := rest[1..];
      }
      outcome := Running;
    }

    method RunLoop(rounds: seq<Round>) returns (outcome: Outcome)
      requires Valid()
      modifies this
      ensures Valid() && Result(scan, outcome) == Loop(old(scan), endPort, None, rounds)
    {
      var rest := rounds;
      while port <= endPort || activeSocks != map[]
        invariant Valid()
        invariant Loop(scan, endPort, None, rest) == Loop(old(scan), endPort, None, rounds)
        decreases |rest|
      {
        if rest == [] {
          return Starved;
        }
        outcome := FillUp(rest[0].attempts);
        if outcome != Running {
          return;
        }
        HandleBatch(rest[0].batch);
        rest := rest[1..];
      }
      outcome := Finished;
    }
  }
}

/** Both versions on the same environment. */
module KnockerSimulation {
  import opened Knocker
  import KnockerEpollTimer
  import KnockerIntrusive
  import opened Wrappers

  /** Started together on the same answers, clock readings and event batches, the two event
      loops end the same way, with the same sockets in flight, ports tried and descriptors
      closed; a normal end has tried every port and closed every descriptor. */
  method BothVersions(startPort: int, endPort: int, maxFd: nat, clock: int, rounds: seq<Round>)
    returns (older: KnockerEpollTimer.Scanner, newer: KnockerIntrusive.Scanner, outcome: Outcome, outcome': Outcome)
    requires startPort <= endPort && SocksBelow(rounds, maxFd)
    requires LoopOk(Start(startPort, clock), endPort, None, rounds)
    ensures outcome' == outcome && newer.scan == older.scan && older.Valid()
    ensures |newer.scan.active| <= MAX_IN_FLIGHT
    ensures outcome == Finished ==>
      && newer.scan.tried == seq(endPort - startPort + 1, i => startPort + i)
      && newer.scan.handedOut == newer.scan.closed
  {
    older := new KnockerEpollTimer.Scanner(startPort, endPort, clock);
    newer := new KnockerIntrusive.Scanner(startPort, endPort, maxFd, clock);
    LoopUnbounded(Start(startPort, clock), endPort, maxFd, rounds);
    ScanIsComplete(startPort, endPort, clock, None, rounds);
    outcome := older.RunLoop(rounds);
    outcome' := newer.RunLoop(rounds);
  }
}
