/** The event loop of the port scanner, on a plain map of sockets in flight: what both
    versions of the program compute.  The kernel is an environment that answers each
    connection attempt, reads the clock and delivers batches of events. */
module Knocker {
  import opened Wrappers

  const MAX_IN_FLIGHT := 500

  /** The threshold of 2000 milliseconds; times are in nanoseconds, the ticks of the steady clock. */
  const TIMEOUT_NS := 2_000_000_000

  datatype Answer = Connected | InProgress(now: int) | Refused

  /** One call of `socket` and `connect`; a negative descriptor is an error. */
  datatype Attempt = Attempt(sock: int, answer: Answer)

  /** An entry of the epoll batch; port 0 is the timer, `now` the time its handler reads. */
  datatype Event = Event(fd: int, port: int, now: int)

  datatype Round = Round(attempts: seq<Attempt>, batch: seq<Event>)

  /** active: start time of each socket in flight; clock: the last start time
      recorded; tried: ports attempted; handedOut, closed: descriptors given and returned. */
  datatype Scan = Scan(
    active: map<int, int>, clock: int, port: int, tried: seq<int>, handedOut: multiset<int>, closed: multiset<int>)

  /** Starved: the environment's trace ends before the program does. */
  datatype Outcome = Running | Finished | Failed | Starved

  datatype Result = Result(scan: Scan, outcome: Outcome)

  function Start(startPort: int, clock: int): Scan {
    Scan(map[], clock, startPort, [], multiset{}, multiset{})
  }

  function Attempted(s: Scan, a: Attempt): Scan {
    var next := s.(port := s.port + 1, tried := s.tried + [s.port], handedOut := s.handedOut + multiset{a.sock});
    if a.answer.InProgress?
    then next.(active := s.active[a.sock := a.answer.now], clock := a.answer.now)
    else next.(closed := s.closed + multiset{a.sock})
  }

  /** The fill loop.  `maxFd` is the size of the table, if the program has one. */
  function Fill(s: Scan, endPort: int, maxFd: Option<int>, attempts: seq<Attempt>): (r: Result)
    ensures r.outcome != Finished
    decreases |attempts|
  {
    if !(|s.active| < MAX_IN_FLIGHT && s.port <= endPort) then Result(s, Running)
    else if attempts == [] then Result(s, Starved)
    else
      var a := attempts[0];
      if a.sock < 0 then Result(s, Failed)
      else if maxFd.Some? && a.sock > maxFd.value then
        Result(s.(handedOut := s.handedOut + multiset{a.sock}, closed := s.closed + multiset{a.sock}), Failed)
      else Fill(Attempted(s, a), endPort, maxFd, attempts[1..])
  }

  predicate TimedOut(start: int, now: int) { now - start > TIMEOUT_NS }

  function Expired(active: map<int, int>, now: int): set<int> {
    set fd | fd in active && TimedOut(active[fd], now)
  }

  /** The full sweep: every socket in flight is looked at. */
  function Swept(s: Scan, now: int): Scan {
    var expired := Expired(s.active, now);
    s.(active := s.active - expired, closed := s.closed + multiset(expired))
  }

  function Readied(s: Scan, fd: int): Scan {
    s.(active := s.active - {fd}, closed := s.closed + multiset{fd})
  }

  function Handled(s: Scan, e: Event): Scan {
    if e.port == 0 then Swept(s, e.now) else Readied(s, e.fd)
  }

  function HandledAll(s: Scan, batch: seq<Event>): Scan {
    if batch == [] then s else Handled(HandledAll(s, batch[..|batch| - 1]), batch[|batch| - 1])
  }

  predicate Over(s: Scan, endPort: int) { s.port > endPort && s.active == map[] }

  function Loop(s: Scan, endPort: int, maxFd: Option<int>, rounds: seq<Round>): Result
    decreases |rounds|
  {
    if Over(s, endPort) then Result(s, Finished)
    else if rounds == [] then Result(s, Starved)
    else
      var filled := Fill(s, endPort, maxFd, rounds[0].attempts);
      if filled.outcome != Running then filled
      else Loop(HandledAll(filled.scan, rounds[0].batch), endPort, maxFd, rounds[1..])
  }

  // ---------------------------------------------------------------------------
  // What the environment keeps to

  /** A descriptor handed out is not in flight, and the clock does not run backwards.  A
      program with a table stops at a descriptor above maxFd; maxFd itself passes that test
      but has no place in the table, so the kernel must not hand it out. */
  predicate FillOk(s: Scan, endPort: int, maxFd: Option<int>, attempts: seq<Attempt>)
    decreases |attempts|
  {
    if !(|s.active| < MAX_IN_FLIGHT && s.port <= endPort) || attempts == [] || attempts[0].sock < 0 then true
    else
      var a := attempts[0];
      && a.sock !in s.active
      && (a.answer.InProgress? ==> s.clock <= a.answer.now)
      && (maxFd.Some? ==> a.sock != maxFd.value)
      && (!(maxFd.Some? && a.sock > maxFd.value) ==> FillOk(Attempted(s, a), endPort, maxFd, attempts[1..]))
  }

  /** A ready event names a socket that is in flight when it is handled. */
  predicate BatchOk(s: Scan, batch: seq<Event>) {
    forall i :: 0 <= i < |batch| && batch[i].port != 0 ==> batch[i].fd in HandledAll(s, batch[..i]).active
  }

  predicate LoopOk(s: Scan, endPort: int, maxFd: Option<int>, rounds: seq<Round>)
    decreases |rounds|
  {
    if Over(s, endPort) || rounds == [] then true
    else
      var filled := Fill(s, endPort, maxFd, rounds[0].attempts);
      && FillOk(s, endPort, maxFd, rounds[0].attempts)
      && (filled.outcome == Running ==>
          && BatchOk(filled.scan, rounds[0].batch)
          && LoopOk(HandledAll(filled.scan, rounds[0].batch), endPort, maxFd, rounds[1..]))
  }

  // ---------------------------------------------------------------------------
  // Safety over whole runs

  /** At most 500 sockets in flight, each port below `port` tried once and in order, and
      every descriptor handed out is closed or in flight. */
  predicate ScanOk(s: Scan, startPort: int, endPort: int) {
    && |s.active| <= MAX_IN_FLIGHT
    && startPort <= s.port <= endPort + 1
    && |s.tried| == s.port - startPort
    && (forall i :: 0 <= i < |s.tried| ==> s.tried[i] == startPort + i)
    && s.handedOut == s.closed + multiset(s.active.Keys)
  }

  lemma SweptOk(s: Scan, now: int, startPort: int, endPort: int)
    requires ScanOk(s, startPort, endPort)
    ensures ScanOk(Swept(s, now), startPort, endPort)
  {
    KeysSplit(s.active, Expired(s.active, now));
  }

  lemma KeysSplit(active: map<int, int>, gone: set<int>)
    requires gone <= active.Keys
    ensures multiset(active.Keys) == multiset(gone) + multiset((active - gone).Keys)
    ensures |active - gone| <= |active|
  {
    assert active.Keys == gone + (active - gone).Keys;
    assert |active.Keys| == |gone| + |(active - gone).Keys|;
  }

  lemma ReadiedOk(s: Scan, fd: int, startPort: int, endPort: int)
    requires ScanOk(s, startPort, endPort) && fd in s.active
    ensures ScanOk(Readied(s, fd), startPort, endPort)
  {
    KeysSplit(s.active, {fd});
  }

  lemma AttemptedOk(s: Scan, a: Attempt, startPort: int, endPort: int)
    requires ScanOk(s, startPort, endPort) && |s.active| < MAX_IN_FLIGHT && s.port <= endPort
    requires a.sock !in s.active
    ensures ScanOk(Attempted(s, a), startPort, endPort)
  {
    assert s.active[a.sock := 0].Keys == s.active.Keys + {a.sock};
    assert |s.active[a.sock := 0].Keys| == |s.active.Keys| + 1;
  }

  lemma {:induction false} FilledOk(s: Scan, startPort: int, endPort: int, maxFd: Option<int>, attempts: seq<Attempt>)
    requires ScanOk(s, startPort, endPort) && FillOk(s, endPort, maxFd, attempts)
    ensures ScanOk(Fill(s, endPort, maxFd, attempts).scan, startPort, endPort)
    decreases |attempts|
  {
    if |s.active| < MAX_IN_FLIGHT && s.port <= endPort && attempts != [] && attempts[0].sock >= 0
       && !(maxFd.Some? && attempts[0].sock > maxFd.value) {
      AttemptedOk(s, attempts[0], startPort, endPort);
      FilledOk(Attempted(s, attempts[0]), startPort, endPort, maxFd, attempts[1..]);
    }
  }

  lemma BatchPrefixOk(s: Scan, batch: seq<Event>, n: nat)
    requires BatchOk(s, batch) && n <= |batch|
    ensures BatchOk(s, batch[..n])
  {
    forall i | 0 <= i < n && batch[..n][i].port != 0
      ensures batch[..n][i].fd in HandledAll(s, batch[..n][..i]).active
    {
      assert batch[..n][..i] == batch[..i];
    }
  }

  lemma {:induction false} HandledAllOk(s: Scan, startPort: int, endPort: int, batch: seq<Event>)
    requires ScanOk(s, startPort, endPort) && BatchOk(s, batch)
    ensures ScanOk(HandledAll(s, batch), startPort, endPort)
  {
    if batch != [] {
      var before, e := batch[..|batch| - 1], batch[|batch| - 1];
      BatchPrefixOk(s, batch, |batch| - 1);
      HandledAllOk(s, startPort, endPort, before);
      if e.port == 0 {
        SweptOk(HandledAll(s, before), e.now, startPort, endPort);
      } else {
        ReadiedOk(HandledAll(s, before), e.fd, startPort, endPort);
      }
    }
  }

  lemma {:induction false} LoopKeepsOk(s: Scan, startPort: int, endPort: int, maxFd: Option<int>, rounds: seq<Round>)
    requires ScanOk(s, startPort, endPort) && LoopOk(s, endPort, maxFd, rounds)
    ensures ScanOk(Loop(s, endPort, maxFd, rounds).scan, startPort, endPort)
    ensures Loop(s, endPort, maxFd, rounds).outcome == Finished ==> Over(Loop(s, endPort, maxFd, rounds).scan, endPort)
    ensures Loop(s, endPort, maxFd, rounds).outcome != Running
    decreases |rounds|
  {
    if !Over(s, endPort) && rounds != [] {
      var filled := Fill(s, endPort, maxFd, rounds[0].attempts);
      FilledOk(s, startPort, endPort, maxFd, rounds[0].attempts);
      if filled.outcome == Running {
        HandledAllOk(filled.scan, startPort, endPort, rounds[0].batch);
        LoopKeepsOk(HandledAll(filled.scan, rounds[0].batch), startPort, endPort, maxFd, rounds[1..]);
      }
    }
  }

  lemma StartOk(startPort: int, endPort: int, clock: int)
    requires startPort <= endPort
    ensures ScanOk(Start(startPort, clock), startPort, endPort)
  {
  }

  lemma OverOk(s: Scan, startPort: int, endPort: int)
    requires startPort <= endPort && ScanOk(s, startPort, endPort)
    ensures |s.active| <= MAX_IN_FLIGHT
    ensures Over(s, endPort) ==> s.tried == seq(endPort - startPort + 1, i => startPort + i) && s.handedOut == s.closed
  {
  }

  /** When the program exits normally, it has tried every port once, in order, and closed
      every descriptor as often as it was handed out. */
  lemma ScanIsComplete(startPort: int, endPort: int, clock: int, maxFd: Option<int>, rounds: seq<Round>)
    requires startPort <= endPort && LoopOk(Start(startPort, clock), endPort, maxFd, rounds)
    ensures
      var result := Loop(Start(startPort, clock), endPort, maxFd, rounds);
      && |result.scan.active| <= MAX_IN_FLIGHT
      && (result.outcome == Finished ==>
          && result.scan.tried == seq(endPort - startPort + 1, i => startPort + i)
          && result.scan.handedOut == result.scan.closed)
  {
    hide Loop, LoopOk, ScanOk, Over;
    StartOk(startPort, endPort, clock);
    LoopKeepsOk(Start(startPort, clock), startPort, endPort, maxFd, rounds);
    var result := Loop(Start(startPort, clock), endPort, maxFd, rounds);
    OverOk(result.scan, startPort, endPort);
  }

  // ---------------------------------------------------------------------------
  // The bound on descriptors does not show

  predicate SocksBelow(rounds: seq<Round>, maxFd: int) {
    forall i, j :: 0 <= i < |rounds| && 0 <= j < |rounds[i].attempts| ==> rounds[i].attempts[j].sock < maxFd
  }

  lemma {:induction false} FillUnbounded(s: Scan, endPort: int, maxFd: int, attempts: seq<Attempt>)
    requires forall j :: 0 <= j < |attempts| ==> attempts[j].sock < maxFd
    ensures Fill(s, endPort, Some(maxFd), attempts) == Fill(s, endPort, None, attempts)
    ensures FillOk(s, endPort, Some(maxFd), attempts) == FillOk(s, endPort, None, attempts)
    decreases |attempts|
  {
    if attempts != [] {
      FillUnbounded(Attempted(s, attempts[0]), endPort, maxFd, attempts[1..]);
    }
  }

  /** Under a kernel that hands out descriptors below the limit, the version with a table
      and the version with a map run through the same scans. */
  lemma {:induction false} LoopUnbounded(s: Scan, endPort: int, maxFd: int, rounds: seq<Round>)
    requires SocksBelow(rounds, maxFd)
    ensures Loop(s, endPort, Some(maxFd), rounds) == Loop(s, endPort, None, rounds)
    ensures LoopOk(s, endPort, Some(maxFd), rounds) == LoopOk(s, endPort, None, rounds)
    decreases |rounds|
  {
    if rounds != [] {
      FillUnbounded(s, endPort, maxFd, rounds[0].attempts);
      var filled := Fill(s, endPort, None, rounds[0].attempts);
      LoopUnbounded(HandledAll(filled.scan, rounds[0].batch), endPort, maxFd, rounds[1..]);
    }
  }
}
