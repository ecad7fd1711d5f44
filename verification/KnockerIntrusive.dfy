/** The intrusive timeout list: neighbours are indices into a table of connections. */
module ConnectionList {
  import opened Sequences

  datatype Connection = Connection(active: bool, port: int, start: int, next: int, prev: int)

  datatype Ends = Ends(head: int, tail: int)

  datatype List = List(table: seq<Connection>, ends: Ends) {

    predicate InTable(fd: int) { 0 <= fd < |table| }

    /** Every link, stale or not, is -1 or an index of the table. */
    predicate LinksOk() {
      && (forall fd :: 0 <= fd < |table| ==> -1 <= table[fd].next < |table| && -1 <= table[fd].prev < |table|)
      && -1 <= ends.head < |table| && -1 <= ends.tail < |table|
    }

    /** list_insert_tail */
    function InsertTail(fd: int): List
      requires InTable(fd) && LinksOk()
    {
      var t := table[fd := table[fd].(prev := ends.tail, next := -1)];
      if ends.tail == -1 then List(t, Ends(fd, fd))
      else List(t[ends.tail := t[ends.tail].(next := fd)], Ends(ends.head, fd))
    }

    /** list_unlink */
    function Unlink(fd: int): List
      requires InTable(fd) && LinksOk()
    {
      var p, n := table[fd].prev, table[fd].next;
      if p == -1 && n == -1 then List(table, Ends(-1, -1))
      else if p == -1 then List(table[n := table[n].(prev := -1)], Ends(n, ends.tail))
      else if n == -1 then List(table[p := table[p].(next := -1)], Ends(ends.head, p))
      else
        var t := table[p := table[p].(next := n)];
        List(t[n := t[n].(prev := p)], ends)
    }

    predicate LinkedAt(order: seq<int>, i: int)
      requires 0 <= i < |order|
    {
      && InTable(order[i])
      && table[order[i]].next == At(order, i + 1)
      && table[order[i]].prev == At(order, i - 1)
    }

    /** Head, tail and links spell out `order`, forwards and backwards. */
    predicate Spells(order: seq<int>) {
      && Distinct(order) && (forall i :: 0 <= i < |order| ==> InTable(order[i]))
      && ends.head == At(order, 0) && ends.tail == At(order, |order| - 1)
      && (forall i :: 0 <= i < |order| ==> LinkedAt(order, i))
    }
  }

  function At(order: seq<int>, i: int): int {
    if 0 <= i < |order| then order[i] else -1
  }

  function Without(order: seq<int>, k: int): seq<int>
    requires 0 <= k < |order|
  {
    order[..k] + order[k + 1..]
  }

  /** Inserting appends, whatever stale links the entry still has. */
  lemma InsertSpells(l: List, order: seq<int>, fd: int)
    requires l.LinksOk() && l.Spells(order) && l.InTable(fd) && fd !in order
    ensures l.InsertTail(fd).Spells(order + [fd])
  {
    var l', order' := l.InsertTail(fd), order + [fd];
    if order != [] { assert l.LinkedAt(order, |order| - 1); }
    forall i | 0 <= i < |order'|
      ensures l'.LinkedAt(order', i)
    {
      if i < |order| { assert l.LinkedAt(order, i); }
    }
  }

  /** The four cases of unlinking, as one. */
  lemma UnlinkEffect(l: List, fd: int)
    requires l.LinksOk() && l.InTable(fd)
    ensures
      var l', p, n := l.Unlink(fd), l.table[fd].prev, l.table[fd].next;
      && |l'.table| == |l.table|
      && l'.ends == Ends(if p == -1 then n else l.ends.head, if n == -1 then p else l.ends.tail)
      && (forall x :: 0 <= x < |l.table| ==> l'.table[x].next == if x == p then n else l.table[x].next)
      && (forall x :: 0 <= x < |l.table| ==> l'.table[x].prev == if x == n then p else l.table[x].prev)
  {
  }

  lemma WithoutAt(order: seq<int>, k: int, i: int)
    requires 0 <= k < |order| && -1 <= i <= |order| - 1
    ensures At(Without(order, k), i) == At(order, if i < k then i else i + 1)
  {
  }

  lemma WithoutIsDistinct(order: seq<int>, k: int)
    requires Distinct(order) && 0 <= k < |order|
    ensures Distinct(Without(order, k)) && order[k] !in Without(order, k)
  {
  }

  /** Unlinking removes the entry from wherever it is. */
  lemma UnlinkSpells(l: List, order: seq<int>, k: int)
    requires l.LinksOk() && l.Spells(order) && 0 <= k < |order|
    ensures l.Unlink(order[k]).Spells(Without(order, k))
  {
    var l', order' := l.Unlink(order[k]), Without(order, k);
    assert l.LinkedAt(order, k);
    UnlinkEffect(l, order[k]);
    WithoutIsDistinct(order, k);
    hide List.Unlink;
    forall i | 0 <= i < |order'|
      ensures l'.LinkedAt(order', i)
    {
      var j := if i < k then i else i + 1;
      assert l.LinkedAt(order, j) && order'[i] == order[j];
      WithoutAt(order, k, i + 1);
      WithoutAt(order, k, i - 1);
    }
    WithoutAt(order, k, 0);
    WithoutAt(order, k, |order'| - 1);
  }

  lemma LinksStayOk(l: List, fd: int)
    requires l.LinksOk() && l.InTable(fd)
    ensures l.InsertTail(fd).LinksOk() && l.Unlink(fd).LinksOk()
  {
  }

  /** Linking and unlinking change nothing but links. */
  lemma FieldsStay(l: List, fd: int, x: int)
    requires l.LinksOk() && l.InTable(fd) && l.InTable(x)
    ensures
      var inserted, removed := l.InsertTail(fd), l.Unlink(fd);
      && |inserted.table| == |removed.table| == |l.table|
      && inserted.table[x].active == removed.table[x].active == l.table[x].active
      && inserted.table[x].start == removed.table[x].start == l.table[x].start
  {
  }

  predicate Sorted(table: seq<Connection>, order: seq<int>)
    requires forall i :: 0 <= i < |order| ==> 0 <= order[i] < |table|
  {
    forall i, j :: 0 <= i < j < |order| ==> table[order[i]].start <= table[order[j]].start
  }

  /** The list and the counter stand for the map of sockets in flight, oldest first. */
  ghost predicate Represents(l: List, count: int, order: seq<int>, active: map<int, int>) {
    && l.LinksOk() && l.Spells(order) && count == |order|
    && (forall fd :: 0 <= fd < |l.table| ==> (l.table[fd].active <==> fd in order))
    && (forall fd :: fd in active <==> fd in order)
    && (forall fd :: fd in order ==> l.table[fd].start == active[fd])
    && Sorted(l.table, order)
  }

  predicate NoLater(active: map<int, int>, clock: int) {
    forall fd :: fd in active ==> active[fd] <= clock
  }

  /** The table entry is filled in, then linked. */
  function Added(l: List, fd: int, port: int, now: int): List
    requires l.InTable(fd) && l.LinksOk()
  {
    l.(table := l.table[fd := l.table[fd].(active := true, port := port, start := now)]).InsertTail(fd)
  }

  function Dropped(l: List, fd: int): List
    requires l.InTable(fd) && l.LinksOk()
  {
    var cut := l.Unlink(fd);
    cut.(table := cut.table[fd := cut.table[fd].(active := false)])
  }

  lemma StillSpells(l: List, l': List, order: seq<int>)
    requires l.LinksOk() && l.Spells(order) && |l'.table| == |l.table| && l'.ends == l.ends
    requires forall x :: 0 <= x < |l.table| ==>
      l'.table[x].next == l.table[x].next && l'.table[x].prev == l.table[x].prev
    ensures l'.LinksOk() && l'.Spells(order)
  {
    forall i | 0 <= i < |order|
      ensures l'.LinkedAt(order, i)
    {
      assert l.LinkedAt(order, i);
    }
  }

  lemma SortedWithout(table: seq<Connection>, table': seq<Connection>, order: seq<int>, k: int)
    requires forall i :: 0 <= i < |order| ==> 0 <= order[i] < |table|
    requires |table'| == |table| && (forall x :: 0 <= x < |table| ==> table'[x].start == table[x].start)
    requires Sorted(table, order) && 0 <= k < |order|
    ensures forall i :: 0 <= i < |order| - 1 ==> 0 <= Without(order, k)[i] < |table|
    ensures Sorted(table', Without(order, k))
  {
    var order' := Without(order, k);
    forall i, j | 0 <= i < j < |order'|
      ensures table'[order'[i]].start <= table'[order'[j]].start
    {
      assert order'[i] == order[if i < k then i else i + 1] && order'[j] == order[if j < k then j else j + 1];
    }
  }

  lemma AddRepresents(l: List, count: int, order: seq<int>, active: map<int, int>, fd: int, port: int, now: int)
    requires Represents(l, count, order, active) && l.InTable(fd) && fd !in active && NoLater(active, now)
    ensures Represents(Added(l, fd, port, now), count + 1, order + [fd], active[fd := now])
  {
    var filled := l.(table := l.table[fd := l.table[fd].(active := true, port := port, start := now)]);
    var l', order' := Added(l, fd, port, now), order + [fd];
    StillSpells(l, filled, order);
    InsertSpells(filled, order, fd);
    LinksStayOk(filled, fd);
    forall x | 0 <= x < |l.table|
      ensures l'.table[x].active == filled.table[x].active && l'.table[x].start == filled.table[x].start
    {
      FieldsStay(filled, fd, x);
    }
    hide List.InsertTail;
    forall i, j | 0 <= i < j < |order'|
      ensures l'.table[order'[i]].start <= l'.table[order'[j]].start
    {
      assert order[i] in active;
    }
  }

  lemma InWithout(order: seq<int>, k: int, x: int)
    requires Distinct(order) && 0 <= k < |order|
    ensures x in Without(order, k) <==> x in order && x != order[k]
  {
    if x in order && x != order[k] {
      var i :| 0 <= i < |order| && order[i] == x;
      assert Without(order, k)[if i < k then i else i - 1] == x;
    }
  }

  lemma DropRepresents(l: List, count: int, order: seq<int>, active: map<int, int>, k: int)
    requires Represents(l, count, order, active) && 0 <= k < |order|
    ensures Represents(Dropped(l, order[k]), count - 1, Without(order, k), active - {order[k]})
  {
    var fd, order' := order[k], Without(order, k);
    var cut, l' := l.Unlink(fd), Dropped(l, fd);
    UnlinkSpells(l, order, k);
    LinksStayOk(l, fd);
    forall x | 0 <= x < |l.table|
      ensures cut.table[x].active == l.table[x].active && cut.table[x].start == l.table[x].start
    {
      FieldsStay(l, fd, x);
    }
    hide List.Unlink;
    forall x
      ensures x in order' <==> x in order && x != fd
    {
      InWithout(order, k, x);
    }
    StillSpells(cut, l', order');
    SortedWithout(l.table, l'.table, order, k);
  }

  // ---------------------------------------------------------------------------
  // Stale events

  lemma RepresentsCount(l: List, count: int, order: seq<int>, active: map<int, int>)
    requires Represents(l, count, order, active)
    ensures count == |order| == |active|
  {
    DistinctCount(order);
    assert forall x :: x in Elements(order) <==> x in active.Keys;
    assert Elements(order) == active.Keys;
  }

  ghost predicate StandsFor(l: List, count: int, active: map<int, int>) {
    exists order :: Represents(l, count, order, active)
  }

  /** Handling a ready event gives a list that still stands for the sockets in flight if
      and only if the event's socket was in flight: the handler does not look at `active`,
      and counts down in any case. */
  lemma ReadyNeedsLinkedSocket(l: List, count: int, active: map<int, int>, fd: int)
    requires StandsFor(l, count, active) && l.LinksOk() && l.InTable(fd)
    ensures fd in active <==> StandsFor(Dropped(l, fd), count - 1, active - {fd})
  {
    var order :| Represents(l, count, order, active);
    RepresentsCount(l, count, order, active);
    assert fd !in active ==> active - {fd} == active;
    if fd in active {
      var k :| 0 <= k < |order| && order[k] == fd;
      DropRepresents(l, count, order, active, k);
    } else if StandsFor(Dropped(l, fd), count - 1, active - {fd}) {
      var order' :| Represents(Dropped(l, fd), count - 1, order', active - {fd});
      RepresentsCount(Dropped(l, fd), count - 1, order', active - {fd});
      assert false;
    }
  }

  /** The list after a run of ready events. */
  function DroppedAll(l: List, fds: seq<int>): (l': List)
    requires l.LinksOk() && forall i :: 0 <= i < |fds| ==> l.InTable(fds[i])
    ensures l'.LinksOk() && |l'.table| == |l.table|
  {
    if fds == [] then l
    else
      var before, fd := DroppedAll(l, fds[..|fds| - 1]), fds[|fds| - 1];
      assert l.InTable(fd);
      LinksStayOk(before, fd);
      Dropped(before, fd)
  }

  lemma LastEvent(active: map<int, int>, fds: seq<int>)
    requires fds != [] && Distinct(fds) && forall i :: 0 <= i < |fds| ==> fds[i] in active
    ensures
      var before, fd := fds[..|fds| - 1], fds[|fds| - 1];
      && Distinct(before) && (forall i :: 0 <= i < |before| ==> before[i] in active)
      && fd in active - Elements(before) && active - Elements(before) - {fd} == active - Elements(fds)
  {
    var before, fd := fds[..|fds| - 1], fds[|fds| - 1];
    assert fds == before + [fd];
    assert Elements(fds) == Elements(before) + {fd};
    assert active - Elements(before) - {fd} == active - (Elements(before) + {fd});
  }

  /** One more ready event, for a socket in flight. */
  lemma DropOneMore(l: List, count: int, active: map<int, int>, fd: int, active': map<int, int>)
    requires StandsFor(l, count, active) && l.LinksOk() && l.InTable(fd) && fd in active && active' == active - {fd}
    ensures StandsFor(Dropped(l, fd), count - 1, active')
  {
    ReadyNeedsLinkedSocket(l, count, active, fd);
  }

  lemma {:induction false} DropAllRepresents(l: List, count: int, active: map<int, int>, fds: seq<int>)
    requires StandsFor(l, count, active) && l.LinksOk() && forall i :: 0 <= i < |fds| ==> l.InTable(fds[i])
    requires Distinct(fds) && forall i :: 0 <= i < |fds| ==> fds[i] in active
    ensures StandsFor(DroppedAll(l, fds), count - |fds|, active - Elements(fds))
  {
    if fds == [] {
      assert active - Elements(fds) == active;
    } else {
      var before, fd := fds[..|fds| - 1], fds[|fds| - 1];
      LastEvent(active, fds);
      assert l.InTable(fd);
      hide StandsFor, Dropped, List.LinksOk, Distinct, Elements;
      DropAllRepresents(l, count, active, before);
      DropOneMore(DroppedAll(l, before), count - |before|, active - Elements(before), fd, active - Elements(fds));
    }
  }

  /** Any number of ready events in a row leave a list that still stands for the sockets in flight if
      and only if they name different sockets, all of them in flight. */
  lemma ReadyEventsNeedLinkedSockets(l: List, count: int, active: map<int, int>, fds: seq<int>)
    requires StandsFor(l, count, active) && l.LinksOk() && forall i :: 0 <= i < |fds| ==> l.InTable(fds[i])
    ensures StandsFor(DroppedAll(l, fds), count - |fds|, active - Elements(fds))
      <==> Distinct(fds) && forall i :: 0 <= i < |fds| ==> fds[i] in active
  {
    StandsForCount(l, count, active);
    var gone, l' := Elements(fds), DroppedAll(l, fds);
    hide StandsFor, DroppedAll, List.LinksOk;
    if StandsFor(l', count - |fds|, active - gone) {
      StandsForCount(l', count - |fds|, active - gone);
      CountDistinct(fds);
      Removed(active, gone);
      assert forall i :: 0 <= i < |fds| ==> fds[i] in gone;
    }
    if Distinct(fds) && forall i :: 0 <= i < |fds| ==> fds[i] in active {
      DropAllRepresents(l, count, active, fds);
    }
  }

  lemma StandsForCount(l: List, count: int, active: map<int, int>)
    requires StandsFor(l, count, active)
    ensures count == |active|
  {
    var order :| Represents(l, count, order, active);
    RepresentsCount(l, count, order, active);
  }

  lemma SizeWithout(s: set<int>, part: set<int>)
    requires part <= s
    ensures |s - part| == |s| - |part| && (|s| == |part| ==> s == part)
  {
    assert s == part + (s - part);
  }

  lemma Removed(active: map<int, int>, gone: set<int>)
    ensures |active - gone| + |gone| >= |active|
    ensures |active - gone| + |gone| == |active| ==> gone <= active.Keys
  {
    var both := active.Keys * gone;
    assert (active - gone).Keys == active.Keys - both;
    SizeWithout(active.Keys, both);
    SizeWithout(gone, both);
  }

  lemma TwoInFlight() returns (l: List, active: map<int, int>)
    ensures Represents(l, 2, [3, 5], active) && l.LinksOk() && l.InTable(3)
  {
    var blank := Connection(false, -1, 0, -1, -1);
    var empty := List([blank, blank, blank, blank, blank, blank], Ends(-1, -1));
    AddRepresents(empty, 0, [], map[], 3, 80, 0);
    var one := Added(empty, 3, 80, 0);
    assert [] + [3] == [3];
    AddRepresents(one, 1, [3], map[3 := 0], 5, 81, 1);
    assert [3] + [5] == [3, 5];
    l, active := Added(one, 5, 81, 1), map[3 := 0][5 := 1];
  }

  /** The failing input: of two sockets in flight the older one, 3, is retired by the timer and then
      named by a ready event of the same batch.  The counter is then 0, so that the event loop may
      end, while socket 5 is still in flight and in the list. */
  lemma StaleEventLosesSocket() returns (l: List, active: map<int, int>)
    ensures Represents(l, 2, [3, 5], active) && l.LinksOk() && l.InTable(3)
    ensures
      var timedOut := Dropped(l, 3);
      && Represents(timedOut, 1, [5], active - {3}) && timedOut.LinksOk() && timedOut.InTable(3)
      && var stale := Dropped(timedOut, 3);
         && !StandsFor(stale, 0, active - {3})
         && 5 in active - {3} && stale.table[5].active && stale.ends == Ends(5, 5)
  {
    l, active := TwoInFlight();
    var timedOut := Dropped(l, 3);
    assert l.LinkedAt([3, 5], 0) && l.LinkedAt([3, 5], 1);
    DropRepresents(l, 2, [3, 5], active, 0);
    assert Without([3, 5], 0) == [5];
    LinksStayOk(l, 3);
    ReadyNeedsLinkedSocket(timedOut, 1, active - {3}, 3);
  }
}

/** The port scanner with the intrusive list. */
module KnockerIntrusive {
  import opened ConnectionList
  import opened Knocker
  import opened KnockerLifetimes
  import opened Wrappers

  /** With the oldest socket at the head, a head that has not timed out speaks for all. */
  lemma NothingLeftToExpire(l: List, count: int, order: seq<int>, active: map<int, int>, now: int)
    requires Represents(l, count, order, active)
    requires l.ends.head != -1 ==> l.InTable(l.ends.head) && !TimedOut(l.table[l.ends.head].start, now)
    ensures Expired(active, now) == {}
  {
    forall fd | fd in active
      ensures !TimedOut(active[fd], now)
    {
      var i :| 0 <= i < |order| && order[i] == fd;
      assert l.table[order[0]].start <= l.table[order[i]].start;
    }
  }

  predicate HeadIs(l: List, oldest: int, active: map<int, int>) {
    l.ends.head == oldest && l.InTable(oldest) && oldest in active && l.table[oldest].start == active[oldest]
  }

  lemma HeadIsOldest(l: List, count: int, order: seq<int>, active: map<int, int>)
    requires Represents(l, count, order, active)
    ensures if order == [] then l.ends.head == -1 else HeadIs(l, order[0], active)
  {
  }

  /** The test before a descriptor is used as an index. */
  predicate PassesGuard(sock: int, maxFd: int) {
    !(sock > maxFd)
  }

  /** The guard is right for every descriptor but one. */
  lemma GuardMissesOnlyMaxFd(l: List, sock: nat)
    ensures (PassesGuard(sock, |l.table|) <==> l.InTable(sock)) <==> sock != |l.table|
  {
  }

  lemma OneMoreActive(active: map<int, int>, clock: int, sock: int, now: int)
    requires sock !in active && NoLater(active, clock) && clock <= now
    ensures NoLater(active, now) && NoLater(active[sock := now], now) && |active[sock := now]| == |active| + 1
  {
    assert active[sock := now].Keys == active.Keys + {sock};
  }

  /** The scan after the sockets of `gone` have been retired one by one. */
  function Minus(s: Scan, gone: set<int>): Scan {
    s.(active := s.active - gone, closed := s.closed + multiset(gone))
  }

  lemma OneMoreGone(s: Scan, gone: set<int>, fd: int)
    requires fd in Minus(s, gone).active
    ensures fd !in gone && Readied(Minus(s, gone), fd) == Minus(s, gone + {fd})
  {
    assert s.active - gone - {fd} == s.active - (gone + {fd});
  }

  lemma SweptAll(s: Scan, gone: set<int>, now: int)
    requires gone <= Expired(s.active, now) && Expired(Minus(s, gone).active, now) == {}
    ensures gone == Expired(s.active, now) && Minus(s, gone) == Swept(s, now)
  {
    forall fd | fd in Expired(s.active, now)
      ensures fd in gone
    {
      assert fd !in Expired(Minus(s, gone).active, now);
    }
  }

  lemma SweepEnds(s: Scan, now: int)
    ensures forall fd :: fd in Swept(s, now).active <==> fd in s.active && now - s.active[fd] <= 2_000_000_000
  {
  }

  class Scanner {
    const endPort: int
    const table: array<Connection>
    var head: int
    var tail: int
    var port: int
    var inFlightCount: int
    /** The sockets in the list, oldest first, and what the scan has come to. */
    ghost var order: seq<int>
    ghost var scan: Scan

    function Links(): List
      reads this, table
    {
      List(table[..], Ends(head, tail))
    }

    ghost predicate Valid()
      reads this, table
    {
      && port == scan.port
      && Represents(Links(), inFlightCount, order, scan.active)
      && NoLater(scan.active, scan.clock)
      && |scan.active| == |order|
    }

    constructor (startPort: int, endPort: int, maxFd: nat, clock: int)
      ensures Valid() && fresh(table) && table.Length == maxFd
      ensures this.endPort == endPort && scan == Start(startPort, clock)
    {
      this.endPort := endPort;
      table := new Connection[maxFd](_ => Connection(false, -1, 0, -1, -1));
      head, tail, port, inFlightCount := -1, -1, startPort, 0;
      order, scan := [], Start(startPort, clock);
    }

    method ListInsertTail(fd: int)
      requires Links().LinksOk() && 0 <= fd < table.Length
      modifies table, this`head, this`tail
      ensures Links() == old(Links()).InsertTail(fd)
    {
      table[fd] := table[fd].(prev := tail);
      table[fd] := table[fd].(next := -1);
      if tail == -1 {
        head := fd;
        tail := fd;
      } else {
        table[tail] := table[tail].(next := fd);
        tail := fd;
      }
    }

    method ListUnlink(fd: int)
      requires Links().LinksOk() && 0 <= fd < table.Length
      modifies table, this`head, this`tail
      ensures Links() == old(Links()).Unlink(fd)
    {
      var p := table[fd].prev;
      var n := table[fd].next;
      if p == -1 && n == -1 {
        head := -1;
        tail := -1;
      } else if p == -1 {
        head := n;
        table[n] := table[n].(prev := -1);
      } else if n == -1 {
        tail := p;
        table[p] := table[p].(next := -1);
      } else {
        table[p] := table[p].(next := n);
        table[n] := table[n].(prev := p);
      }
    }

    /** A socket whose connection is under way enters the table and the list. */
    method Register(sock: int, now: int)
      requires Valid() && 0 <= sock < table.Length && sock !in scan.active && scan.clock <= now
      modifies this, table
      ensures Valid() && port == old(port)
      ensures scan == old(scan).(active := old(scan).active[sock := now], clock := now)
    {
      ghost var l := Links();
      OneMoreActive(scan.active, scan.clock, sock, now);
      AddRepresents(l, inFlightCount, order, scan.active, sock, port, now);
      assert l.LinksOk();
      hide Represents, NoLater, List.InsertTail;
      table[sock] := table[sock].(active := true);
      table[sock] := table[sock].(port := port);
      table[sock] := table[sock].(start := now);
      ListInsertTail(sock);
      inFlightCount := inFlightCount + 1;
      assert Links() == Added(l, sock, port, now);
      order := order + [sock];
      scan := scan.(active := scan.active[sock := now], clock := now);
    }

    /** An expired or ready socket leaves the list and is closed. */
    method Retire(fd: int)
      requires Valid() && fd in scan.active
      modifies this, table
      ensures Valid() && port == old(port) && scan == Readied(old(scan), fd)
      ensures |order| == |old(order)| - 1
    {
      ghost var l := Links();
      ghost var k :| 0 <= k < |order| && order[k] == fd;
      DropRepresents(l, inFlightCount, order, scan.active, k);
      ListUnlink(fd);
      table[fd] := table[fd].(active := false);
      inFlightCount := inFlightCount - 1;
      assert Links() == Dropped(l, fd);
      order := Without(order, k);
      scan := Readied(scan, fd);
    }

    /** The head-only sweep: it stops at the first socket that has not timed out, and has
        then retired exactly the sockets a full scan would retire.  It has looked at those
        and at no more than one other. */
    method Sweep(now: int) returns (ghost looked: nat)
      requires Valid()
      modifies this, table
      ensures Valid() && port == old(port) && scan == Swept(old(scan), now)
      ensures forall fd :: fd in scan.active <==> fd in old(scan).active && now - old(scan).active[fd] <= 2_000_000_000
      ensures looked == |Expired(old(scan).active, now)| + if head == -1 then 0 else 1
    {
      hide Valid, Swept, Represents;
      looked := 0;
      ghost var gone: set<int> := {};
      ghost var before := scan;
      assert scan == Minus(before, gone);
      HeadFacts(now);
      while head != -1 && now - table[head].start > TIMEOUT_NS
        invariant Valid() && port == old(port) && scan == Minus(before, gone)
        invariant if order == [] then head == -1 else HeadIs(Links(), order[0], scan.active)
        invariant looked == |gone| && gone <= Expired(before.active, now)
        decreases |order|
      {
        OneMoreGone(before, gone, head);
        looked, gone := looked + 1, gone + {head};
        Retire(head);
        HeadFacts(now);
      }
      HeadFacts(now);
      SweptAll(before, gone, now);
      SweepEnds(before, now);
      if head != -1 { looked := looked + 1; }
    }

    lemma HeadFacts(now: int)
      requires Valid()
      ensures if order == [] then head == -1 else HeadIs(Links(), order[0], scan.active)
      ensures (head != -1 ==> 0 <= head < table.Length && !TimedOut(table[head].start, now)) ==> Expired(scan.active, now) == {}
    {
      HeadIsOldest(Links(), inFlightCount, order, scan.active);
      if head != -1 ==> 0 <= head < table.Length && !TimedOut(table[head].start, now) {
        NothingLeftToExpire(Links(), inFlightCount, order, scan.active, now);
      }
    }

    method HandleBatch(batch: seq<Event>)
      requires Valid() && BatchOk(scan, batch)
      modifies this, table
      ensures Valid() && scan == HandledAll(old(scan), batch)
      ensures forall fd :: fd in scan.active <==> fd in old(scan).active && NoneEnds(batch, fd, old(scan).active[fd])
    {
      hide Valid, Swept, Readied;
      for i := 0 to |batch|
        invariant Valid() && scan == HandledAll(old(scan), batch[..i])
      {
        assert batch[..i + 1][..i] == batch[..i];
        if batch[i].port == 0 {
          ghost var _ := Sweep(batch[i].now);
        } else {
          Retire(batch[i].fd);
        }
      }
      assert batch[..|batch|] == batch;
      forall fd { BatchEnds(old(scan), batch, fd); }
    }

    /** The fill loop. */
    method FillUp(attempts: seq<Attempt>) returns (outcome: Outcome)
      requires Valid() && FillOk(scan, endPort, Some(table.Length), attempts)
      modifies this, table
      ensures Result(scan, outcome) == Fill(old(scan), endPort, Some(table.Length), attempts)
      ensures forall fd ::
        fd in scan.active <==> fd in old(scan).active || Registers(attempts, scan.port - old(scan).port, fd)
      ensures outcome == Running ==> Valid()
    {
      forall fd { FillKeepsOrRegisters(scan, endPort, Some(table.Length), attempts, fd); }
      hide Registers;
      var rest := attempts;
      while inFlightCount < MAX_IN_FLIGHT && port <= endPort
        invariant Valid() && FillOk(scan, endPort, Some(table.Length), rest)
        invariant Fill(scan, endPort, Some(table.Length), rest) == Fill(old(scan), endPort, Some(table.Length), attempts)
        decreases |rest|
      {
        if rest == [] {
          return Starved;
        }
        var a := rest[0];
        if a.sock < 0 {
          return Failed;
        }
        if !PassesGuard(a.sock, table.Length) {
          scan := scan.(handedOut := scan.handedOut + multiset{a.sock}, closed := scan.closed + multiset{a.sock});
          return Failed;
        }
        Attempt(a);
        rest := rest[1..];
      }
      outcome := Running;
    }

    method Attempt(a: Attempt)
      requires Valid() && 0 <= a.sock < table.Length && a.sock !in scan.active
      requires a.answer.InProgress? ==> scan.clock <= a.answer.now
      modifies this, table
      ensures Valid() && scan == Attempted(old(scan), a)
      ensures a.answer.InProgress? ==>
        scan.active == old(scan).active[a.sock := a.answer.now] && scan.closed == old(scan).closed
      ensures !a.answer.InProgress? ==>
        scan.active == old(scan).active && scan.closed == old(scan).closed + multiset{a.sock}
    {
      if a.answer.InProgress? {
        Register(a.sock, a.answer.now);
      } else {
        scan := scan.(closed := scan.closed + multiset{a.sock});
      }
      scan := scan.(port := scan.port + 1, tried := scan.tried + [scan.port], handedOut := scan.handedOut + multiset{a.sock});
      port := port + 1;
    }

    /** The event loop of `main`. */
    method RunLoop(rounds: seq<Round>) returns (outcome: Outcome)
      requires Valid() && LoopOk(scan, endPort, Some(table.Length), rounds)
      modifies this, table
      ensures Result(scan, outcome) == Loop(old(scan), endPort, Some(table.Length), rounds)
    {
      var rest := rounds;
      while port <= endPort || inFlightCount > 0
        invariant Valid() && LoopOk(scan, endPort, Some(table.Length), rest)
        invariant Loop(scan, endPort, Some(table.Length), rest) == Loop(old(scan), endPort, Some(table.Length), rounds)
        decreases |rest|
      {
        if rest == [] {
          return Starved;
        }
        outcome := FillUp(rest[0].attempts);
        if outcome != Running {
          return;
        }
        HandleBatch(rest[0].batch);
        rest := rest[1..];
      }
      outcome := Finished;
    }
  }
}
