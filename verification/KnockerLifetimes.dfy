/** The life of a socket: it is in flight from an attempt answered "in progress" until a timer
    event more than two seconds later or a ready event that names it, and no longer. */
module KnockerLifetimes {
  import opened Knocker
  import opened Wrappers

  /** The event ends the wait for a socket that started then. */
  predicate EndsWait(e: Event, fd: int, start: int) {
    if e.port == 0 then e.now - start > 2_000_000_000 else e.fd == fd
  }

  predicate NoneEnds(batch: seq<Event>, fd: int, start: int) {
    forall i :: 0 <= i < |batch| ==> !EndsWait(batch[i], fd, start)
  }

  predicate Usable(a: Attempt, maxFd: Option<int>) {
    a.sock >= 0 && (maxFd.Some? ==> a.sock <= maxFd.value)
  }

  predicate Full(s: Scan, endPort: int) {
    |s.active| >= 500 || s.port > endPort
  }

  /** Among the first n attempts, one that got this descriptor and is in progress. */
  predicate Registers(attempts: seq<Attempt>, n: int, fd: int) {
    exists i :: 0 <= i < n <= |attempts| && attempts[i].sock == fd && attempts[i].answer.InProgress?
  }

  lemma RegistersCons(attempts: seq<Attempt>, n: nat, fd: int)
    requires attempts != [] && n < |attempts|
    ensures Registers(attempts, n + 1, fd)
      <==> (attempts[0].sock == fd && attempts[0].answer.InProgress?) || Registers(attempts[1..], n, fd)
  {
    var rest := attempts[1..];
    if i :| 0 <= i < n && rest[i].sock == fd && rest[i].answer.InProgress? {
      assert attempts[i + 1] == rest[i];
    }
    if i :| 0 < i < n + 1 && attempts[i].sock == fd && attempts[i].answer.InProgress? {
      assert rest[i - 1] == attempts[i];
    }
  }

  /** How the fill loop ends. */
  predicate Ended(r: Result, endPort: int, maxFd: Option<int>, attempts: seq<Attempt>, n: int)
    requires 0 <= n <= |attempts|
  {
    && (r.outcome == Running <==> Full(r.scan, endPort))
    && (r.outcome == Starved <==> !Full(r.scan, endPort) && n == |attempts|)
    && (r.outcome == Failed <==> !Full(r.scan, endPort) && n < |attempts| && !Usable(attempts[n], maxFd))
  }

  /** The fill loop makes attempts, one for each port it advances over, until 500 sockets are in
      flight or the ports run out, unless a descriptor is unusable. */
  lemma {:induction false} FillAttempts(s: Scan, endPort: int, maxFd: Option<int>, attempts: seq<Attempt>)
    returns (n: nat)
    ensures
      var r := Fill(s, endPort, maxFd, attempts);
      && n <= |attempts| && r.scan.port == s.port + n && Ended(r, endPort, maxFd, attempts, n)
      && forall i :: 0 <= i < n ==> Usable(attempts[i], maxFd)
    decreases |attempts|
  {
    if Full(s, endPort) || attempts == [] || !Usable(attempts[0], maxFd) {
      n := 0;
    } else {
      n := FillAttempts(Attempted(s, attempts[0]), endPort, maxFd, attempts[1..]);
      assert forall i :: 0 < i < |attempts| ==> attempts[i] == attempts[1..][i - 1];
      n := n + 1;
    }
  }

  /** The sockets in flight after filling are those before and those whose attempt is in progress; every
      other descriptor handed out is not. */
  lemma {:induction false} FillKeepsOrRegisters(s: Scan, endPort: int, maxFd: Option<int>, attempts: seq<Attempt>, fd: int)
    ensures
      var r := Fill(s, endPort, maxFd, attempts).scan;
      && 0 <= r.port - s.port <= |attempts|
      && (fd in r.active <==> fd in s.active || Registers(attempts, r.port - s.port, fd))
    decreases |attempts|
  {
    if !Full(s, endPort) && attempts != [] && Usable(attempts[0], maxFd) {
      var rest, next := attempts[1..], Attempted(s, attempts[0]);
      FillKeepsOrRegisters(next, endPort, maxFd, rest, fd);
      RegistersCons(attempts, Fill(next, endPort, maxFd, rest).scan.port - next.port, fd);
      hide Registers;
    }
  }

  /** Each of them has the start time that its attempt read from the clock. */
  lemma {:induction false} FillRegisters(s: Scan, endPort: int, maxFd: Option<int>, attempts: seq<Attempt>, fd: int)
    requires FillOk(s, endPort, maxFd, attempts)
    ensures
      var r := Fill(s, endPort, maxFd, attempts).scan;
      && 0 <= r.port - s.port <= |attempts|
      && (fd in s.active ==> fd in r.active && r.active[fd] == s.active[fd])
      && (forall i :: 0 <= i < r.port - s.port && attempts[i].answer.InProgress? && attempts[i].sock == fd ==>
            fd in r.active && r.active[fd] == attempts[i].answer.now)
    decreases |attempts|
  {
    if !Full(s, endPort) && attempts != [] && Usable(attempts[0], maxFd) {
      FillRegisters(Attempted(s, attempts[0]), endPort, maxFd, attempts[1..], fd);
      assert forall i :: 0 < i < |attempts| ==> attempts[i] == attempts[1..][i - 1];
    }
  }

  /** How often the first n attempts got this descriptor. */
  function TimesGiven(attempts: seq<Attempt>, n: nat, fd: int): nat
    requires n <= |attempts|
  {
    if n == 0 then 0 else TimesGiven(attempts, n - 1, fd) + if attempts[n - 1].sock == fd then 1 else 0
  }

  lemma {:induction false} TimesGivenCons(attempts: seq<Attempt>, n: nat, fd: int)
    requires n < |attempts|
    ensures TimesGiven(attempts, n + 1, fd) == TimesGiven(attempts[1..], n, fd) + if attempts[0].sock == fd then 1 else 0
  {
    if n > 0 { TimesGivenCons(attempts, n - 1, fd); }
  }

  /** Every descriptor the kernel gives is counted as handed out; so is the one a failed run ends with
      because it is too large for the table, but not a negative one. */
  lemma {:induction false} FillHandsOut(s: Scan, endPort: int, maxFd: Option<int>, attempts: seq<Attempt>, fd: int)
    returns (n: nat)
    ensures
      var r := Fill(s, endPort, maxFd, attempts);
      && n <= |attempts| && r.scan.port == s.port + n && (r.outcome == Failed ==> n < |attempts|)
      && r.scan.handedOut[fd] == s.handedOut[fd] + TimesGiven(attempts, n, fd)
           + if r.outcome == Failed && attempts[n].sock == fd >= 0 then 1 else 0
    decreases |attempts|
  {
    if Full(s, endPort) || attempts == [] || !Usable(attempts[0], maxFd) {
      n := 0;
    } else {
      n := FillHandsOut(Attempted(s, attempts[0]), endPort, maxFd, attempts[1..], fd);
      TimesGivenCons(attempts, n, fd);
      n := n + 1;
    }
  }

  /** After a batch, a socket is still in flight, with its start time, if and only if no event of the
      batch ends it; and a batch puts nothing in flight. */
  lemma {:induction false} BatchEnds(s: Scan, batch: seq<Event>, fd: int)
    ensures fd in HandledAll(s, batch).active <==> fd in s.active && NoneEnds(batch, fd, s.active[fd])
    ensures fd in HandledAll(s, batch).active ==> HandledAll(s, batch).active[fd] == s.active[fd]
    ensures s.closed[fd] <= HandledAll(s, batch).closed[fd]
    ensures fd in s.active && fd !in HandledAll(s, batch).active ==> s.closed[fd] < HandledAll(s, batch).closed[fd]
  {
    if batch != [] {
      var before, e := batch[..|batch| - 1], batch[|batch| - 1];
      BatchEnds(s, before, fd);
      if fd in s.active {
        assert NoneEnds(batch, fd, s.active[fd]) <==> NoneEnds(before, fd, s.active[fd]) && !EndsWait(e, fd, s.active[fd]);
      }
    }
  }

  lemma {:induction false} FillCloses(s: Scan, endPort: int, maxFd: Option<int>, attempts: seq<Attempt>, fd: int)
    ensures s.closed[fd] <= Fill(s, endPort, maxFd, attempts).scan.closed[fd]
    decreases |attempts|
  {
    if !Full(s, endPort) && attempts != [] && Usable(attempts[0], maxFd) {
      FillCloses(Attempted(s, attempts[0]), endPort, maxFd, attempts[1..], fd);
    }
  }

  lemma {:induction false} LoopCloses(s: Scan, endPort: int, maxFd: Option<int>, rounds: seq<Round>, fd: int)
    ensures s.closed[fd] <= Loop(s, endPort, maxFd, rounds).scan.closed[fd]
    decreases |rounds|
  {
    if !Over(s, endPort) && rounds != [] {
      var filled := Fill(s, endPort, maxFd, rounds[0].attempts);
      FillCloses(s, endPort, maxFd, rounds[0].attempts, fd);
      if filled.outcome == Running {
        BatchEnds(filled.scan, rounds[0].batch, fd);
        LoopCloses(HandledAll(filled.scan, rounds[0].batch), endPort, maxFd, rounds[1..], fd);
      }
    }
  }

  /** The event loop ends normally exactly when all ports have been tried and nothing is in flight. */
  lemma {:induction false} LoopEnds(s: Scan, endPort: int, maxFd: Option<int>, rounds: seq<Round>)
    ensures
      var r := Loop(s, endPort, maxFd, rounds);
      r.outcome == Finished <==> r.scan.port > endPort && r.scan.active == map[]
    decreases |rounds|
  {
    if !Over(s, endPort) && rounds != [] {
      var filled := Fill(s, endPort, maxFd, rounds[0].attempts);
      var n := FillAttempts(s, endPort, maxFd, rounds[0].attempts);
      if filled.outcome == Running {
        LoopEnds(HandledAll(filled.scan, rounds[0].batch), endPort, maxFd, rounds[1..]);
      }
    }
  }

  predicate NeverEnds(rounds: seq<Round>, fd: int, start: int) {
    forall k :: 0 <= k < |rounds| ==> NoneEnds(rounds[k].batch, fd, start)
  }

  /** How many batches of events the run gets to. */
  function BatchesHandled(s: Scan, endPort: int, maxFd: Option<int>, rounds: seq<Round>): (n: nat)
    ensures n <= |rounds|
    decreases |rounds|
  {
    if Over(s, endPort) || rounds == [] then 0
    else
      var filled := Fill(s, endPort, maxFd, rounds[0].attempts);
      if filled.outcome != Running then 0
      else 1 + BatchesHandled(HandledAll(filled.scan, rounds[0].batch), endPort, maxFd, rounds[1..])
  }

  lemma NeverEndsCons(rounds: seq<Round>, n: nat, fd: int, start: int)
    requires n < |rounds|
    ensures NeverEnds(rounds[..n + 1], fd, start)
      <==> NoneEnds(rounds[0].batch, fd, start) && NeverEnds(rounds[1..][..n], fd, start)
  {
    var handled, later := rounds[..n + 1], rounds[1..][..n];
    assert handled[0] == rounds[0];
    forall k | 0 <= k < |later|
      ensures later[k] == handled[k + 1]
    {
    }
    if NoneEnds(rounds[0].batch, fd, start) && NeverEnds(later, fd, start) {
      forall k | 0 <= k < |handled|
        ensures NoneEnds(handled[k].batch, fd, start)
      {
        if k > 0 { assert handled[k] == later[k - 1]; }
      }
    }
  }

  /** One round of the event loop. */
  lemma OneRound(s: Scan, endPort: int, maxFd: Option<int>, rounds: seq<Round>) returns (filled: Scan, next: Scan)
    requires rounds != [] && !Over(s, endPort) && LoopOk(s, endPort, maxFd, rounds)
    requires Fill(s, endPort, maxFd, rounds[0].attempts).outcome == Running
    ensures filled == Fill(s, endPort, maxFd, rounds[0].attempts).scan && next == HandledAll(filled, rounds[0].batch)
    ensures Loop(s, endPort, maxFd, rounds) == Loop(next, endPort, maxFd, rounds[1..])
    ensures LoopOk(next, endPort, maxFd, rounds[1..])
    ensures BatchesHandled(s, endPort, maxFd, rounds) == 1 + BatchesHandled(next, endPort, maxFd, rounds[1..])
  {
    filled := Fill(s, endPort, maxFd, rounds[0].attempts).scan;
    next := HandledAll(filled, rounds[0].batch);
  }

  /** What a run does to a socket that starts out in flight: it is in flight at the end, with its start
      time, if none of the events handled ends it, and closed if one does. */
  predicate LivesUntilEnded(s: Scan, r: Scan, handled: seq<Round>, fd: int)
    requires fd in s.active
  {
    if NeverEnds(handled, fd, s.active[fd]) then fd in r.active && r.active[fd] == s.active[fd]
    else s.closed[fd] < r.closed[fd]
  }

  lemma {:induction false} RunLivesUntilEnded(s: Scan, endPort: int, maxFd: Option<int>, rounds: seq<Round>, fd: int)
    requires LoopOk(s, endPort, maxFd, rounds) && fd in s.active
    ensures LivesUntilEnded(s, Loop(s, endPort, maxFd, rounds).scan,
                            rounds[..BatchesHandled(s, endPort, maxFd, rounds)], fd)
    decreases |rounds|, 2
  {
    if rounds != [] {
      FillRegisters(s, endPort, maxFd, rounds[0].attempts, fd);
      FillCloses(s, endPort, maxFd, rounds[0].attempts, fd);
      LifeOfSocket(s, endPort, maxFd, rounds, fd);
    }
  }

  /** Over every run: a socket in flight after the filling of a round, registered there or before, is
      in flight at the end if none of the events handled from then on ends it, and closed if one does. */
  lemma {:induction false} LifeOfSocket(s: Scan, endPort: int, maxFd: Option<int>, rounds: seq<Round>, fd: int)
    requires rounds != [] && !Over(s, endPort) && LoopOk(s, endPort, maxFd, rounds)
    requires fd in Fill(s, endPort, maxFd, rounds[0].attempts).scan.active
    ensures LivesUntilEnded(Fill(s, endPort, maxFd, rounds[0].attempts).scan, Loop(s, endPort, maxFd, rounds).scan,
                            rounds[..BatchesHandled(s, endPort, maxFd, rounds)], fd)
    decreases |rounds|, 1
  {
    if Fill(s, endPort, maxFd, rounds[0].attempts).outcome == Running {
      LifeInRound(s, endPort, maxFd, rounds, fd);
    } else {
      assert rounds[..0] == [];
    }
  }

  lemma {:induction false} LifeInRound(s: Scan, endPort: int, maxFd: Option<int>, rounds: seq<Round>, fd: int)
    requires rounds != [] && !Over(s, endPort) && LoopOk(s, endPort, maxFd, rounds)
    requires Fill(s, endPort, maxFd, rounds[0].attempts).outcome == Running
    requires fd in Fill(s, endPort, maxFd, rounds[0].attempts).scan.active
    ensures LivesUntilEnded(Fill(s, endPort, maxFd, rounds[0].attempts).scan, Loop(s, endPort, maxFd, rounds).scan,
                            rounds[..BatchesHandled(s, endPort, maxFd, rounds)], fd)
    decreases |rounds|, 0
  {
    hide Fill, Loop, LoopOk, BatchesHandled, Over, NeverEnds, NoneEnds, HandledAll, LivesUntilEnded;
    var filled, next := OneRound(s, endPort, maxFd, rounds);
    var rest := rounds[1..];
    var n, r := BatchesHandled(next, endPort, maxFd, rest), Loop(next, endPort, maxFd, rest).scan;
    BatchEnds(filled, rounds[0].batch, fd);
    LoopCloses(next, endPort, maxFd, rest, fd);
    NeverEndsCons(rounds, n, fd, filled.active[fd]);
    if fd in next.active {
      RunLivesUntilEnded(next, endPort, maxFd, rest, fd);
    }
    LifeContinues(filled, rounds[0].batch, next, r, rest[..n], rounds[..n + 1], fd);
  }

  lemma LifeContinues(filled: Scan, batch: seq<Event>, next: Scan, r: Scan, later: seq<Round>, handled: seq<Round>, fd: int)
    requires fd in filled.active && (fd in next.active <==> NoneEnds(batch, fd, filled.active[fd]))
    requires fd in next.active ==> next.active[fd] == filled.active[fd] && LivesUntilEnded(next, r, later, fd)
    requires fd !in next.active ==> filled.closed[fd] < next.closed[fd]
    requires filled.closed[fd] <= next.closed[fd] <= r.closed[fd]
    requires NeverEnds(handled, fd, filled.active[fd])
      <==> NoneEnds(batch, fd, filled.active[fd]) && NeverEnds(later, fd, filled.active[fd])
    ensures LivesUntilEnded(filled, r, handled, fd)
  {
    hide NeverEnds, NoneEnds;
  }
}
