/** What every interleaving keeps: no lost wakeup, no deadlock, exact queues, each connection closed once. */
module ProtocolLaws {
  import opened Protocol

  // ----- the invariant -----

  /** The limit holds, which is why no enqueue ever meets a full queue. */
  ghost predicate Bounded(s: State) {
    |s.waiting| + |s.handling| <= s.limit
  }

  /** How many workers hold a request under a descriptor. */
  ghost function Holders(workers: seq<Worker>, fd: int): nat {
    if workers == [] then 0 else Holders(workers[..|workers| - 1], fd) + Holds(workers[|workers| - 1], fd)
  }

  ghost function Holds(w: Worker, fd: int): nat {
    if w.Holding() && w.conn.fd == fd then 1 else 0
  }

  /** The worker queue is exactly the descriptors of the busy workers, however often a number is reused. */
  ghost predicate BusyExact(handling: seq<int>, workers: seq<Worker>) {
    forall fd :: multiset(handling)[fd] == Holders(workers, fd)
  }

  /** Everything that is still of interest, in order of arrival. */
  ghost function Line(s: State): seq<Conn> {
    s.dispatched + s.waiting + s.acceptor.Held()
  }

  ghost predicate Known(arrivals: seq<Conn>, c: Conn) {
    c.id < |arrivals| && arrivals[c.id] == c
  }

  /** A line is in order of arrival. */
  ghost predicate InOrder(line: seq<Conn>, arrivals: seq<Conn>) {
    && (forall k :: 0 <= k < |line| ==> Known(arrivals, line[k]))
    && (forall j, k :: 0 <= j < k < |line| ==> line[j].id < line[k].id)
  }

  /** Every worker that holds a request holds a dispatched one, and no two the same. */
  ghost predicate HeldApart(workers: seq<Worker>, dispatched: seq<Conn>) {
    && (forall i :: 0 <= i < |workers| && workers[i].Holding() ==> workers[i].conn in dispatched)
    && (forall i, j :: 0 <= i < j < |workers| && workers[i].Holding() && workers[j].Holding() ==>
          workers[i].conn != workers[j].conn)
  }

  ghost predicate IsOpen(open: map<int, Conn>, c: Conn) {
    c.fd in open && open[c.fd] == c
  }

  /** What waits and what the acceptor holds is open under its own descriptor. */
  ghost predicate LineOpen(line: seq<Conn>, open: map<int, Conn>) {
    forall k :: 0 <= k < |line| ==> IsOpen(open, line[k])
  }

  /** So is what is being handled. */
  ghost predicate BusyOpen(workers: seq<Worker>, open: map<int, Conn>) {
    forall i :: 0 <= i < |workers| && workers[i].Busy? ==> IsOpen(open, workers[i].conn)
  }

  /** Open and closed connections have arrived, none is both, and none has been closed twice. */
  ghost predicate ClosedOnce(open: map<int, Conn>, closed: seq<Conn>, arrivals: seq<Conn>) {
    && (forall fd :: fd in open ==> open[fd].fd == fd && Known(arrivals, open[fd]) && open[fd] !in closed)
    && (forall c :: c in closed ==> Known(arrivals, c))
    && (forall j, k :: 0 <= j < k < |closed| ==> closed[j] != closed[k])
  }

  ghost function FreeWorkers(workers: seq<Worker>): set<int> {
    set i | 0 <= i < |workers| && workers[i].Free()
  }

  /** No lost wakeup: while a worker sleeps, there are enough awake ones for all waiting requests. */
  ghost predicate WorkersAwake(s: State) {
    Sleepers(s.workers) != {} ==> |s.waiting| <= |FreeWorkers(s.workers)|
  }

  /** The acceptor sleeps only under the policy that waits, and only while the server is exactly full. */
  ghost predicate AcceptorAwake(s: State) {
    && (s.acceptor.Blocked? ==> Full(s))
    && (s.acceptor.Blocked? || s.acceptor.Awake? ==> s.policy == Block)
  }

  /** Under that policy nothing is ever dropped. */
  ghost predicate NothingDropped(s: State) {
    s.policy == Block ==> Line(s) == s.arrivals
  }

  ghost predicate Inv(s: State) {
    && Bounded(s) && BusyExact(s.handling, s.workers) && s.faults == 0
    && InOrder(Line(s), s.arrivals) && HeldApart(s.workers, s.dispatched)
    && LineOpen(s.waiting + s.acceptor.Held(), s.open) && BusyOpen(s.workers, s.open)
    && ClosedOnce(s.open, s.closed, s.arrivals)
    && WorkersAwake(s) && AcceptorAwake(s) && NothingDropped(s)
  }

  // ----- held descriptors -----

  lemma {:induction false} HoldersUpdate(workers: seq<Worker>, i: int, w: Worker, fd: int)
    requires 0 <= i < |workers|
    ensures Holders(workers[i := w], fd) == Holders(workers, fd) - Holds(workers[i], fd) + Holds(w, fd)
  {
    var n, after := |workers| - 1, workers[i := w];
    if i == n {
      assert after[..n] == workers[..n];
    } else {
      HoldersUpdate(workers[..n], i, w, fd);
      assert after[..n] == workers[..n][i := w];
    }
  }

  lemma {:induction false} HoldersWake(workers: seq<Worker>, woken: set<int>, fd: int)
    requires forall i :: i in woken && 0 <= i < |workers| ==> workers[i].Sleeping?
    ensures Holders(Wake(workers, woken), fd) == Holders(workers, fd)
  {
    if workers != [] {
      var n := |workers| - 1;
      HoldersWake(workers[..n], woken, fd);
      assert Wake(workers, woken)[..n] == Wake(workers[..n], woken);
    }
  }

  /** A worker that lets go of nothing and takes nothing. */
  lemma {:induction false} UpdateExact(handling: seq<int>, workers: seq<Worker>, i: int, w: Worker)
    requires BusyExact(handling, workers) && 0 <= i < |workers| && forall fd :: Holds(w, fd) == Holds(workers[i], fd)
    ensures BusyExact(handling, workers[i := w])
  {
    forall fd
      ensures multiset(handling)[fd] == Holders(workers[i := w], fd)
    {
      HoldersUpdate(workers, i, w, fd);
    }
  }

  // ----- pieces of steps -----

  lemma {:induction false} WakeSets(s: State, woken: set<int>)
    requires MayWake(s, woken)
    ensures var w := Wake(s.workers, woken);
            && Sleepers(w) == Sleepers(s.workers) - woken && FreeWorkers(w) == FreeWorkers(s.workers) + woken
            && (Sleepers(w) != {} ==> |FreeWorkers(w)| > |FreeWorkers(s.workers)|)
  {
    var w := Wake(s.workers, woken);
    assert Sleepers(w) == Sleepers(s.workers) - woken;
    assert FreeWorkers(w) == FreeWorkers(s.workers) + woken;
    assert FreeWorkers(s.workers) !! woken;
    if Sleepers(w) != {} {
      assert |woken| > 0;
    }
  }

  lemma {:induction false} CountWithout<T>(a: set<T>, x: T)
    ensures |a| == |a - {x}| + if x in a then 1 else 0
  {
    if x in a {
      assert a == (a - {x}) + {x};
    } else {
      assert a == a - {x};
    }
  }

  lemma {:induction false} UpdateFree(workers: seq<Worker>, i: int, w: Worker)
    requires 0 <= i < |workers|
    ensures |FreeWorkers(workers[i := w])| ==
            |FreeWorkers(workers)| - (if workers[i].Free() then 1 else 0) + (if w.Free() then 1 else 0)
  {
    var before, after := FreeWorkers(workers), FreeWorkers(workers[i := w]);
    assert after - {i} == before - {i};
    CountWithout(before, i);
    CountWithout(after, i);
  }

  /** One worker changes: who sleeps and how many are free afterwards. */
  lemma {:induction false} UpdateSets(workers: seq<Worker>, i: int, w: Worker)
    requires 0 <= i < |workers|
    ensures Sleepers(workers[i := w]) ==
            if w.Sleeping? then Sleepers(workers) + {i}
            else if workers[i].Sleeping? then Sleepers(workers) - {i} else Sleepers(workers)
    ensures |FreeWorkers(workers[i := w])| ==
            |FreeWorkers(workers)| - (if workers[i].Free() then 1 else 0) + (if w.Free() then 1 else 0)
  {
    UpdateFree(workers, i, w);
  }

  /** One worker changes and holds nothing new, or what it held before. */
  lemma {:induction false} UpdateApart(workers: seq<Worker>, i: int, w: Worker, dispatched: seq<Conn>)
    requires 0 <= i < |workers| && HeldApart(workers, dispatched)
    requires w.Holding() ==> workers[i].Holding() && w.conn == workers[i].conn
    ensures HeldApart(workers[i := w], dispatched)
  {
    var after := workers[i := w];
    forall j | 0 <= j < |after| && after[j].Holding()
      ensures workers[j].Holding() && after[j].conn == workers[j].conn
    {
    }
  }

  lemma {:induction false} UpdateOpen(workers: seq<Worker>, i: int, w: Worker, open: map<int, Conn>)
    requires 0 <= i < |workers| && BusyOpen(workers, open) && (w.Busy? ==> IsOpen(open, w.conn))
    ensures BusyOpen(workers[i := w], open)
  {
  }

  lemma {:induction false} UpdateHeld(workers: seq<Worker>, i: int, w: Worker, dispatched: seq<Conn>, open: map<int, Conn>)
    requires 0 <= i < |workers| && HeldApart(workers, dispatched) && BusyOpen(workers, open)
    requires !w.Holding()
    ensures HeldApart(workers[i := w], dispatched) && BusyOpen(workers[i := w], open)
  {
    UpdateApart(workers, i, w, dispatched);
    UpdateOpen(workers, i, w, open);
  }

  lemma {:induction false} WakeHeld(s: State, woken: set<int>)
    requires MayWake(s, woken)
    requires HeldApart(s.workers, s.dispatched) && BusyOpen(s.workers, s.open) && BusyExact(s.handling, s.workers)
    ensures var w := Wake(s.workers, woken);
            HeldApart(w, s.dispatched) && BusyOpen(w, s.open) && BusyExact(s.handling, w)
  {
    var w := Wake(s.workers, woken);
    forall i | i in woken
      ensures s.workers[i].Sleeping?
    {
      assert i in Sleepers(s.workers);
    }
    forall fd
      ensures multiset(s.handling)[fd] == Holders(w, fd)
    {
      HoldersWake(s.workers, woken, fd);
    }
    forall i | 0 <= i < |w| && w[i].Holding()
      ensures w[i] == s.workers[i]
    {
    }
  }

  /** The newcomer joins the queue when there is room: it does join, and a sleeper is woken for it. */
  lemma {:induction false} AdmitKeeps(s: State, c: Conn, woken: set<int>)
    requires Inv(s) && !Full(s) && s.acceptor.Held() == [c] && MayWake(s, woken)
    ensures Inv(Admit(s, c, woken)) && Admit(s, c, woken).waiting == s.waiting + [c]
  {
    var t := Admit(s, c, woken);
    WakeHeld(s, woken);
    WakeSets(s, woken);
    assert t.waiting == s.waiting + [c];
    assert Line(t) == Line(s);
    assert t.waiting + t.acceptor.Held() == s.waiting + s.acceptor.Held();
  }

  /** An open connection that is closed under its descriptor is the one that was meant. */
  lemma {:induction false} CloseKeeps(s: State, c: Conn)
    requires IsOpen(s.open, c) && ClosedOnce(s.open, s.closed, s.arrivals)
    ensures var t := CloseFd(s, c.fd);
            && t == s.(open := s.open - {c.fd}, closed := s.closed + [c])
            && ClosedOnce(t.open, t.closed, t.arrivals)
            && (forall d :: IsOpen(s.open, d) && d != c ==> IsOpen(t.open, d))
  {
    var t := CloseFd(s, c.fd);
    forall fd | fd in t.open
      ensures Known(t.arrivals, t.open[fd]) && t.open[fd] !in t.closed
    {
      assert t.open[fd].fd == fd;
    }
  }

  /** No worker holds a connection that waits or that the acceptor holds. */
  lemma {:induction false} HeldNotInLine(s: State, k: int)
    requires InOrder(Line(s), s.arrivals) && HeldApart(s.workers, s.dispatched)
    requires 0 <= k < |s.waiting + s.acceptor.Held()|
    ensures forall i :: 0 <= i < |s.workers| && s.workers[i].Holding() ==>
              s.workers[i].conn != (s.waiting + s.acceptor.Held())[k]
  {
    var c := (s.waiting + s.acceptor.Held())[k];
    assert Line(s)[|s.dispatched| + k] == c;
    forall i | 0 <= i < |s.workers| && s.workers[i].Holding()
      ensures s.workers[i].conn != c
    {
      var j :| 0 <= j < |s.dispatched| && s.dispatched[j] == s.workers[i].conn;
      assert Line(s)[j] == s.dispatched[j];
    }
  }

  /** One of those in line is closed and leaves the line. */
  lemma {:induction false} LeaveLine(s: State, k: int)
    requires Inv(s) && 0 <= k < |s.waiting + s.acceptor.Held()|
    ensures var rest := s.waiting + s.acceptor.Held(); var t := CloseFd(s, rest[k].fd);
            && t == s.(open := s.open - {rest[k].fd}, closed := s.closed + [rest[k]])
            && ClosedOnce(t.open, t.closed, t.arrivals) && BusyOpen(t.workers, t.open)
            && LineOpen(RemoveAt(rest, k), t.open)
            && InOrder(s.dispatched + RemoveAt(rest, k), s.arrivals)
  {
    var rest := s.waiting + s.acceptor.Held();
    var c := rest[k];
    CloseKeeps(s, c);
    HeldNotInLine(s, k);
    var line := s.dispatched + RemoveAt(rest, k);
    forall j | 0 <= j < |line|
      ensures line[j] == Line(s)[if j < |s.dispatched| + k then j else j + 1]
    {
    }
    forall j | 0 <= j < |rest| && j != k
      ensures rest[j] != c
    {
      assert Line(s)[|s.dispatched| + j] == rest[j] && Line(s)[|s.dispatched| + k] == c;
    }
  }

  lemma {:induction false} RefuseKeeps(s: State, c: Conn)
    requires Inv(s) && s.acceptor == Arrived(c) && s.policy != Block
    ensures Inv(Refuse(s, c)) && Refuse(s, c).closed == s.closed + [c]
  {
    var t := Refuse(s, c);
    var rest := s.waiting + [c];
    LeaveLine(s, |s.waiting|);
    assert RemoveAt(rest, |s.waiting|) == s.waiting == t.waiting + t.acceptor.Held();
    assert Line(t) == s.dispatched + s.waiting;
  }

  lemma {:induction false} DropKeeps(s: State, i: int)
    requires Inv(s) && 0 <= i < |s.waiting| && s.policy != Block
    ensures Inv(Drop(s, i)) && Drop(s, i).closed == s.closed + [s.waiting[i]]
  {
    var t := Drop(s, i);
    LeaveLine(s, i);
    assert RemoveAt(s.waiting + s.acceptor.Held(), i) == t.waiting + t.acceptor.Held();
    assert Line(t) == s.dispatched + RemoveAt(s.waiting + s.acceptor.Held(), i);
  }

  lemma {:induction false} DropManyKeeps(s: State, n: nat, choices: seq<nat>)
    requires Inv(s) && n <= |s.waiting| && n <= |choices| && s.policy != Block
    ensures var t := DropMany(s, n, choices);
            && Inv(t) && t.workers == s.workers && t.acceptor == s.acceptor && t.handling == s.handling
            && |t.waiting| == |s.waiting| - n && |t.closed| == |s.closed| + n
            && t.limit == s.limit && t.policy == s.policy
    decreases n
  {
    if n > 0 {
      DropKeeps(s, choices[0] % |s.waiting|);
      DropManyKeeps(Drop(s, choices[0] % |s.waiting|), n - 1, choices[1..]);
    }
  }

  /** A free worker gets a connection that nobody holds. */
  lemma {:induction false} TakeApart(workers: seq<Worker>, i: int, dispatched: seq<Conn>, c: Conn)
    requires 0 <= i < |workers| && HeldApart(workers, dispatched)
    requires forall j :: 0 <= j < |workers| && workers[j].Holding() ==> workers[j].conn != c
    ensures HeldApart(workers[i := Busy(c)], dispatched + [c])
  {
    var w := workers[i := Busy(c)];
    forall j | 0 <= j < |w| && w[j].Holding()
      ensures w[j].conn in dispatched + [c] && (if j == i then w[j].conn == c else w[j] == workers[j] && w[j].conn != c)
    {
    }
  }

  lemma {:induction false} TakeHeld(s: State, i: int)
    requires Inv(s) && 0 <= i < |s.workers| && s.workers[i].Free() && s.waiting != []
    ensures var w := s.workers[i := Busy(s.waiting[0])];
            && HeldApart(w, s.dispatched + [s.waiting[0]]) && BusyOpen(w, s.open)
            && BusyExact(s.handling + [s.waiting[0].fd], w)
  {
    var c := s.waiting[0];
    assert (s.waiting + s.acceptor.Held())[0] == c;
    HeldNotInLine(s, 0);
    forall fd
      ensures multiset(s.handling + [c.fd])[fd] == Holders(s.workers[i := Busy(c)], fd)
    {
      HoldersUpdate(s.workers, i, Busy(c), fd);
    }
    TakeApart(s.workers, i, s.dispatched, c);
    UpdateOpen(s.workers, i, Busy(c), s.open);
  }

  /** The rest of the line is still open. */
  lemma {:induction false} TakeLine(s: State)
    requires s.waiting != [] && LineOpen(s.waiting + s.acceptor.Held(), s.open)
    ensures LineOpen(s.waiting[1..] + s.acceptor.Held(), s.open)
  {
    var rest, now := s.waiting + s.acceptor.Held(), s.waiting[1..] + s.acceptor.Held();
    forall k | 0 <= k < |now|
      ensures now[k] == rest[k + 1]
    {
    }
  }

  /** The head of the queue goes to a free worker; the worker queue takes it, for there is room. */
  lemma {:induction false} TakeKeeps(s: State, i: int)
    requires Inv(s) && 0 <= i < |s.workers| && s.workers[i].Free() && s.waiting != []
    ensures var t := TakeRequest(s, i);
            Inv(t) && t.handling == s.handling + [s.waiting[0].fd]
  {
    var c, t := s.waiting[0], TakeRequest(s, i);
    assert t.handling == s.handling + [c.fd];
    TakeHeld(s, i);
    UpdateSets(s.workers, i, Busy(c));
    assert Line(t) == Line(s);
    TakeLine(s);
  }

  /** A worker that finds nothing to do goes to sleep. */
  lemma {:induction false} SleepKeeps(s: State, i: int)
    requires Inv(s) && 0 <= i < |s.workers| && s.workers[i].Free() && s.waiting == []
    ensures Inv(TakeRequest(s, i))
  {
    var t := TakeRequest(s, i);
    UpdateHeld(s.workers, i, Sleeping, s.dispatched, s.open);
    UpdateExact(s.handling, s.workers, i, Sleeping);
    assert Line(t) == Line(s);
  }

  /** Closing one worker's connection leaves all other live ones open. */
  lemma {:induction false} CloseOpens(s: State, i: int)
    requires Inv(s) && Enabled(s, Close(i))
    ensures var c := s.workers[i].conn; var t := CloseFd(s, c.fd);
            && BusyOpen(s.workers[i := Closing(c)], t.open)
            && LineOpen(s.waiting + s.acceptor.Held(), t.open)
  {
    CloseKeeps(s, s.workers[i].conn);
    forall k | 0 <= k < |s.waiting + s.acceptor.Held()|
      ensures s.workers[i].conn != (s.waiting + s.acceptor.Held())[k]
    {
      HeldNotInLine(s, k);
    }
  }

  lemma {:induction false} CloseStepKeeps(s: State, i: int)
    requires Inv(s) && Enabled(s, Close(i))
    ensures Inv(Apply(s, Close(i))) && Apply(s, Close(i)).closed == s.closed + [s.workers[i].conn]
  {
    var c, t := s.workers[i].conn, Apply(s, Close(i));
    CloseKeeps(s, c);
    CloseOpens(s, i);
    UpdateExact(s.handling, s.workers, i, Closing(c));
    UpdateApart(s.workers, i, Closing(c), s.dispatched);
    UpdateSets(s.workers, i, Closing(c));
    assert Line(t) == Line(s);
  }

  /** A worker's own descriptor is in its queue, and exactly one copy of it leaves. */
  lemma {:induction false} ForgetOne(handling: seq<int>, fd: int)
    requires fd in handling
    ensures var j := FindIndex(handling, fd);
            j < |handling| && multiset(RemoveAt(handling, j)) == multiset(handling) - multiset{fd}
  {
    var j := FindIndex(handling, fd);
    assert handling == handling[..j] + [fd] + handling[j + 1..];
  }

  /** One descriptor's count when a worker is done. */
  lemma {:induction false} DoneExactAt(handling: seq<int>, workers: seq<Worker>, i: int, after: seq<int>, fd: int)
    requires multiset(handling)[fd] == Holders(workers, fd) && 0 <= i < |workers| && workers[i].Holding()
    requires workers[i].conn.fd in handling && multiset(after) == multiset(handling) - multiset{workers[i].conn.fd}
    ensures multiset(after)[fd] == Holders(workers[i := Idle], fd)
  {
    HoldersUpdate(workers, i, Idle, fd);
  }

  /** The worker queue stays exact when a worker is done. */
  lemma {:induction false} DoneExact(handling: seq<int>, workers: seq<Worker>, i: int)
    requires BusyExact(handling, workers) && 0 <= i < |workers| && workers[i].Holding()
    ensures var j := FindIndex(handling, workers[i].conn.fd);
            && j < |handling| && BusyExact(RemoveAt(handling, j), workers[i := Idle])
            && |RemoveAt(handling, j)| == |handling| - 1
  {
    var c := workers[i].conn;
    HoldersUpdate(workers, i, Idle, c.fd);
    assert multiset(handling)[c.fd] == Holders(workers, c.fd) > 0;
    ForgetOne(handling, c.fd);
    var after := RemoveAt(handling, FindIndex(handling, c.fd));
    forall fd
      ensures multiset(after)[fd] == Holders(workers[i := Idle], fd)
    {
      DoneExactAt(handling, workers, i, after, fd);
    }
  }

  lemma {:induction false} OwnLeaves(handling: seq<int>, workers: seq<Worker>, i: int)
    requires BusyExact(handling, workers) && 0 <= i < |workers| && workers[i].Holding()
    ensures var fd := workers[i].conn.fd; var j := FindIndex(handling, fd);
            j < |handling| && multiset(RemoveAt(handling, j)) == multiset(handling) - multiset{fd}
  {
    var fd := workers[i].conn.fd;
    HoldersUpdate(workers, i, Idle, fd);
    assert multiset(handling)[fd] == Holders(workers, fd) > 0;
    ForgetOne(handling, fd);
  }

  lemma {:induction false} DoneKeeps(s: State, i: int)
    requires Inv(s) && Enabled(s, Done(i))
    ensures Inv(Apply(s, Done(i))) && |Apply(s, Done(i)).handling| == |s.handling| - 1
  {
    var t := Apply(s, Done(i));
    DoneExact(s.handling, s.workers, i);
    UpdateHeld(s.workers, i, Idle, s.dispatched, s.open);
    UpdateSets(s.workers, i, Idle);
    assert Line(t) == Line(s);
    assert t.waiting + t.acceptor.Held() == s.waiting + s.acceptor.Held();
  }

  lemma {:induction false} AcceptKeeps(s: State, fd: int)
    requires Inv(s) && Enabled(s, Accept(fd))
    ensures Inv(Apply(s, Accept(fd)))
  {
    var c, t := Conn(|s.arrivals|, fd), Apply(s, Accept(fd));
    assert Line(t) == Line(s) + [c];
    assert t.waiting + t.acceptor.Held() == (s.waiting + s.acceptor.Held()) + [c];
  }

  lemma {:induction false} StirKeeps(s: State, i: int)
    requires Inv(s) && Enabled(s, StirWorker(i))
    ensures Inv(Apply(s, StirWorker(i)))
  {
    var t := Apply(s, StirWorker(i));
    UpdateHeld(s.workers, i, Roused, s.dispatched, s.open);
    UpdateExact(s.handling, s.workers, i, Roused);
    UpdateSets(s.workers, i, Roused);
    assert Line(t) == Line(s);
    assert i in Sleepers(s.workers);
  }

  lemma {:induction false} StirAcceptorKeeps(s: State)
    requires Inv(s) && Enabled(s, StirAcceptor)
    ensures Inv(Apply(s, StirAcceptor))
  {
    var t := Apply(s, StirAcceptor);
    assert Line(t) == Line(s);
  }

  lemma {:induction false} BlockKeeps(s: State, c: Conn)
    requires Inv(s) && Full(s) && s.acceptor.Held() == [c] && s.policy == Block
    ensures Inv(s.(acceptor := Blocked(c)))
  {
    var t := s.(acceptor := Blocked(c));
    assert Line(t) == Line(s);
  }

  lemma {:induction false} OverloadKeeps(s: State, c: Conn, choices: seq<nat>, woken: set<int>)
    requires Inv(s) && Full(s) && s.acceptor == Arrived(c) && MayWake(s, woken)
    requires |choices| == (|s.waiting| + 1) / 2
    ensures var t := Overload(s, c, choices, woken);
            Inv(t) && t.limit == s.limit && t.policy == s.policy && |t.workers| == |s.workers|
  {
    match s.policy
    case Block => BlockKeeps(s, c);
    case DropTail => RefuseKeeps(s, c);
    case DropHead =>
      if s.waiting == [] {
        RefuseKeeps(s, c);
      } else {
        DropKeeps(s, 0);
        AdmitKeeps(Drop(s, 0), c, woken);
      }
    case DropRandom =>
      if s.waiting == [] {
        RefuseKeeps(s, c);
      } else {
        var t := DropMany(s, |choices|, choices);
        DropManyKeeps(s, |choices|, choices);
        AdmitKeeps(t, c, woken);
      }
  }

  /** Every step keeps the invariant. */
  lemma {:induction false} StepKeeps(s: State, step: Step)
    requires Inv(s) && Enabled(s, step)
    ensures var t := Apply(s, step);
            Inv(t) && t.limit == s.limit && t.policy == s.policy && |t.workers| == |s.workers|
  {
    match step
    case Accept(fd) => AcceptKeeps(s, fd);
    case Enter(choices, woken) =>
      if Full(s) { OverloadKeeps(s, s.acceptor.conn, choices, woken); } else { AdmitKeeps(s, s.acceptor.conn, woken); }
    case Reenter(woken) =>
      if Full(s) { BlockKeeps(s, s.acceptor.conn); } else { AdmitKeeps(s, s.acceptor.conn, woken); }
    case Take(i) => if s.waiting == [] { SleepKeeps(s, i); } else { TakeKeeps(s, i); }
    case Close(i) => CloseStepKeeps(s, i);
    case Done(i) => DoneKeeps(s, i);
    case StirWorker(i) => StirKeeps(s, i);
    case StirAcceptor => StirAcceptorKeeps(s);
  }

  lemma {:induction false} InitInv(limit: nat, policy: Policy, threads: nat)
    ensures Inv(Init(limit, policy, threads))
  {
    var s := Init(limit, policy, threads);
    forall fd
      ensures Holders(s.workers, fd) == 0
    {
      NobodyHolds(s.workers, fd);
    }
    assert Sleepers(s.workers) == {};
  }

  lemma {:induction false} RunKeeps(s: State, steps: seq<Step>, t: State)
    requires Inv(s) && Runs(s, steps, t)
    ensures Inv(t) && t.limit == s.limit && t.policy == s.policy && |t.workers| == |s.workers|
    decreases |steps|
  {
    if steps != [] {
      StepKeeps(s, steps[0]);
      RunKeeps(Apply(s, steps[0]), steps[1..], t);
    }
  }

  // ----- what follows for every run -----

  ghost predicate Reachable(limit: nat, policy: Policy, threads: nat, t: State) {
    exists steps :: Runs(Init(limit, policy, threads), steps, t)
  }

  lemma {:induction false} ReachableInv(limit: nat, policy: Policy, threads: nat, t: State)
    requires Reachable(limit, policy, threads, t)
    ensures Inv(t) && t.limit == limit && t.policy == policy && |t.workers| == threads
  {
    var steps :| Runs(Init(limit, policy, threads), steps, t);
    InitInv(limit, policy, threads);
    RunKeeps(Init(limit, policy, threads), steps, t);
  }

  /** A worker step that does something: a request is finished or started. */
  ghost predicate Useful(s: State, i: int) {
    Enabled(s, Close(i)) || Enabled(s, Done(i)) || (Enabled(s, Take(i)) && s.waiting != [])
  }

  /** No deadlock: while the acceptor sleeps, or any request waits, some worker has something useful to do. */
  lemma {:induction false} NoDeadlock(limit: nat, policy: Policy, threads: nat, t: State)
    requires Reachable(limit, policy, threads, t) && limit > 0 && threads > 0
    requires t.acceptor.Blocked? || t.waiting != []
    ensures exists i :: Useful(t, i)
  {
    ReachableInv(limit, policy, threads, t);
    if i :| 0 <= i < |t.workers| && t.workers[i].Holding() {
      assert Useful(t, i);
    } else {
      assert t.handling != [] ==> multiset(t.handling)[t.handling[0]] > 0;
      forall fd
        ensures multiset(t.handling)[fd] == 0
      {
        NobodyHolds(t.workers, fd);
        assert multiset(t.handling)[fd] == Holders(t.workers, fd);
      }
      assert t.handling == [] && t.waiting != [];
      if Sleepers(t.workers) == {} {
        assert t.workers[0].Sleeping? ==> 0 in Sleepers(t.workers);
        assert Useful(t, 0);
      } else {
        assert FreeWorkers(t.workers) != {};
        var i :| i in FreeWorkers(t.workers);
        assert Useful(t, i);
      }
    }
  }

  lemma {:induction false} NobodyHolds(workers: seq<Worker>, fd: int)
    requires forall i :: 0 <= i < |workers| ==> !workers[i].Holding()
    ensures Holders(workers, fd) == 0
  {
    if workers != [] {
      NobodyHolds(workers[..|workers| - 1], fd);
    }
  }

  /** A sleeping worker is never needed: enough awake ones compete for the mutex to take all waiting requests. */
  lemma {:induction false} NoLostWakeup(limit: nat, policy: Policy, threads: nat, t: State, i: int)
    requires Reachable(limit, policy, threads, t) && 0 <= i < threads && |t.workers| == threads
    requires t.workers[i].Sleeping?
    ensures |t.waiting| <= |FreeWorkers(t.workers)|
  {
    ReachableInv(limit, policy, threads, t);
    assert i in Sleepers(t.workers);
  }

  /** The limit is never exceeded, and the worker queue is exactly what the busy workers hold. */
  lemma {:induction false} QueuesExact(limit: nat, policy: Policy, threads: nat, t: State)
    requires Reachable(limit, policy, threads, t)
    ensures |t.waiting| + |t.handling| <= limit
    ensures forall fd :: multiset(t.handling)[fd] == Holders(t.workers, fd)
    ensures t.acceptor.Blocked? ==> |t.waiting| + |t.handling| == limit
  {
    ReachableInv(limit, policy, threads, t);
  }

  /** How an accept iteration may end: its connection has been queued last, or it has been closed. */
  ghost predicate Settled(t: State, u: State, c: Conn) {
    || (u.waiting != [] && u.waiting[|u.waiting| - 1] == c)
    || (u.closed == t.closed + [c] && u.waiting == t.waiting)
  }

  lemma {:induction false} OverloadSettles(t: State, c: Conn, choices: seq<nat>, woken: set<int>)
    requires Inv(t) && Full(t) && t.acceptor == Arrived(c) && MayWake(t, woken)
    requires |choices| == (|t.waiting| + 1) / 2
    ensures Overload(t, c, choices, woken).acceptor.Accepting? ==> Settled(t, Overload(t, c, choices, woken), c)
  {
    if t.policy == DropTail || (t.policy != Block && t.waiting == []) {
      RefuseKeeps(t, c);
    } else if t.policy == DropHead {
      DropKeeps(t, 0);
      AdmitKeeps(Drop(t, 0), c, woken);
    } else if t.policy == DropRandom {
      DropManyKeeps(t, |choices|, choices);
      AdmitKeeps(DropMany(t, |choices|, choices), c, woken);
    }
  }

  /** No enqueue is silently refused, into either queue. */
  lemma {:induction false} NoSilentRefusal(limit: nat, policy: Policy, threads: nat, t: State, step: Step)
    requires Reachable(limit, policy, threads, t) && Enabled(t, step)
    ensures (step.Enter? || step.Reenter?) && Apply(t, step).acceptor.Accepting? ==>
              Settled(t, Apply(t, step), t.acceptor.conn)
    ensures step.Take? && t.waiting != [] ==> Apply(t, step).handling == t.handling + [t.waiting[0].fd]
  {
    ReachableInv(limit, policy, threads, t);
    match step
    case Enter(choices, woken) =>
      if Full(t) {
        OverloadSettles(t, t.acceptor.conn, choices, woken);
      } else {
        AdmitKeeps(t, t.acceptor.conn, woken);
      }
    case Reenter(woken) => if !Full(t) { AdmitKeeps(t, t.acceptor.conn, woken); }
    case Take(i) => if t.waiting != [] { TakeKeeps(t, i); }
    case _ =>
  }

  /** Each accepted connection is closed at most once, and never by a descriptor that is not open. */
  lemma {:induction false} EachClosedOnce(limit: nat, policy: Policy, threads: nat, t: State, j: int, k: int)
    requires Reachable(limit, policy, threads, t) && 0 <= j < |t.closed| && 0 <= k < |t.closed|
    ensures t.faults == 0 && t.closed[j].id < |t.arrivals| && t.arrivals[t.closed[j].id] == t.closed[j]
    ensures t.closed[j].id == t.closed[k].id ==> j == k
  {
    ReachableInv(limit, policy, threads, t);
    assert t.closed[j] in t.closed && t.closed[k] in t.closed;
  }

  /** `at` places `part` inside `whole`, in order. */
  ghost predicate Embeds<T>(part: seq<T>, whole: seq<T>, at: seq<nat>) {
    && |at| == |part|
    && (forall k :: 0 <= k < |at| ==> at[k] < |whole| && whole[at[k]] == part[k])
    && (forall j, k :: 0 <= j < k < |at| ==> at[j] < at[k])
  }

  // ----- what an accept iteration does, policy by policy -----

  /** Some of `whole` are `gone`, in the order in which they were picked, and the others are `rest`, in their old order. */
  ghost predicate Thinned(whole: seq<Conn>, gone: seq<Conn>, rest: seq<Conn>) {
    && multiset(gone) + multiset(rest) == multiset(whole)
    && exists at :: Embeds(rest, whole, at)
  }

  /** Nobody in the queue has arrived before `c`. */
  ghost predicate Oldest(waiting: seq<Conn>, c: Conn) {
    c in waiting && forall d :: d in waiting ==> c.id <= d.id
  }

  /** Workers stay what they are, except that sleepers may be woken, and one is if there is any. */
  ghost predicate OneWoken(was: seq<Worker>, now: seq<Worker>) {
    && |now| == |was|
    && (forall i :: 0 <= i < |was| ==> now[i] == was[i] || (was[i].Sleeping? && now[i].Roused?))
    && ((exists i :: 0 <= i < |was| && was[i].Sleeping?) ==> exists i :: 0 <= i < |was| && was[i].Sleeping? && now[i].Roused?)
  }

  /** The newcomer is last in the queue now, and a worker has been signalled. */
  ghost predicate Queued(t: State, u: State, before: seq<Conn>, c: Conn) {
    u.acceptor.Accepting? && u.waiting == before + [c] && OneWoken(t.workers, u.workers)
  }

  /** The newcomer is closed, and nothing else has happened. */
  ghost predicate Refused(t: State, u: State, c: Conn) {
    u.acceptor.Accepting? && u.closed == t.closed + [c] && u.waiting == t.waiting && u.workers == t.workers
  }

  /** The acceptor sleeps with the newcomer, and nothing else has happened. */
  ghost predicate Waits(t: State, u: State, c: Conn) {
    u.acceptor == Blocked(c) && u.closed == t.closed && u.waiting == t.waiting && u.workers == t.workers
  }

  /** What the first critical section of an accept iteration does. */
  ghost predicate Entered(t: State, u: State, c: Conn) {
    && u.handling == t.handling && u.dispatched == t.dispatched && u.arrivals == t.arrivals
    && if |t.waiting| + |t.handling| < t.limit then Queued(t, u, t.waiting, c) && u.closed == t.closed
       else if t.policy == Block then Waits(t, u, c)
       else if t.policy == DropTail || t.waiting == [] then Refused(t, u, c)
       else if t.policy == DropHead then
         Queued(t, u, t.waiting[1..], c) && exists d :: Oldest(t.waiting, d) && u.closed == t.closed + [d]
       else exists gone, rest ::
         && Thinned(t.waiting, gone, rest) && |gone| == (|t.waiting| + 1) / 2
         && u.closed == t.closed + gone && Queued(t, u, rest, c)
  }

  lemma {:induction false} WakesOne(s: State, woken: set<int>)
    requires MayWake(s, woken)
    ensures OneWoken(s.workers, Wake(s.workers, woken))
  {
    var w := Wake(s.workers, woken);
    forall i | i in woken
      ensures 0 <= i < |w| && s.workers[i].Sleeping? && w[i].Roused?
    {
      assert i in Sleepers(s.workers);
    }
    if i :| 0 <= i < |w| && s.workers[i].Sleeping? {
      assert i in Sleepers(s.workers);
      var j :| j in woken;
      assert s.workers[j].Sleeping? && w[j].Roused?;
    }
  }

  lemma {:induction false} AdmitQueues(t: State, s: State, c: Conn, woken: set<int>)
    requires Inv(s) && !Full(s) && s.acceptor.Held() == [c] && MayWake(s, woken) && s.workers == t.workers
    ensures Queued(t, Admit(s, c, woken), s.waiting, c) && Admit(s, c, woken).closed == s.closed
  {
    AdmitKeeps(s, c, woken);
    WakesOne(s, woken);
  }

  lemma {:induction false} HeadIsOldest(s: State)
    requires InOrder(Line(s), s.arrivals) && s.waiting != []
    ensures Oldest(s.waiting, s.waiting[0])
  {
    forall k | 0 <= k < |s.waiting|
      ensures s.waiting[0].id <= s.waiting[k].id
    {
      assert Line(s)[|s.dispatched|] == s.waiting[0] && Line(s)[|s.dispatched| + k] == s.waiting[k];
    }
  }

  /** Positions in a queue without its element `i` are positions in the queue. */
  function Around(at: seq<nat>, i: nat): seq<nat> {
    seq(|at|, k requires 0 <= k < |at| => if at[k] < i then at[k] else at[k] + 1)
  }

  lemma {:induction false} EmbedsAround<T>(part: seq<T>, whole: seq<T>, i: nat, at: seq<nat>)
    requires i < |whole| && Embeds(part, RemoveAt(whole, i), at)
    ensures Embeds(part, whole, Around(at, i))
  {
    forall k | 0 <= k < |at|
      ensures Around(at, i)[k] < |whole| && whole[Around(at, i)[k]] == part[k]
    {
      assert RemoveAt(whole, i)[at[k]] == part[k];
    }
  }

  lemma {:induction false} ThinnedOnce(whole: seq<Conn>, i: nat, gone: seq<Conn>, rest: seq<Conn>)
    requires i < |whole| && Thinned(RemoveAt(whole, i), gone, rest)
    ensures Thinned(whole, [whole[i]] + gone, rest)
  {
    var at :| Embeds(rest, RemoveAt(whole, i), at);
    EmbedsAround(rest, whole, i, at);
    assert whole == whole[..i] + [whole[i]] + whole[i + 1..];
    assert multiset(whole) == multiset(RemoveAt(whole, i)) + multiset{whole[i]};
    assert multiset([whole[i]] + gone) == multiset{whole[i]} + multiset(gone);
  }

  lemma {:induction false} ThinnedNone(whole: seq<Conn>)
    ensures Thinned(whole, [], whole)
  {
    var at := seq(|whole|, k => k);
    assert Embeds(whole, whole, at);
  }

  lemma {:induction false} DropManyThins(s: State, n: nat, choices: seq<nat>) returns (gone: seq<Conn>)
    requires Inv(s) && n <= |s.waiting| && n <= |choices| && s.policy != Block
    ensures |gone| == n && DropMany(s, n, choices).closed == s.closed + gone
    ensures Thinned(s.waiting, gone, DropMany(s, n, choices).waiting)
    ensures DropMany(s, n, choices).dispatched == s.dispatched && DropMany(s, n, choices).arrivals == s.arrivals
    decreases n
  {
    hide Inv, Thinned;
    if n == 0 {
      gone := [];
      ThinnedNone(s.waiting);
    } else {
      var i := choices[0] % |s.waiting|;
      DropKeeps(s, i);
      gone := DropManyThins(Drop(s, i), n - 1, choices[1..]);
      ThinnedOnce(s.waiting, i, gone, DropMany(s, n, choices).waiting);
      gone := [s.waiting[i]] + gone;
    }
  }

  /** The overload policies, each with what it closes and what it leaves. */
  lemma {:induction false} OverloadIs(t: State, c: Conn, choices: seq<nat>, woken: set<int>)
    requires Inv(t) && Full(t) && t.acceptor == Arrived(c) && MayWake(t, woken)
    requires |choices| == (|t.waiting| + 1) / 2
    ensures Entered(t, Overload(t, c, choices, woken), c)
  {
    if t.policy == DropTail || (t.policy != Block && t.waiting == []) {
      RefuseKeeps(t, c);
    } else if t.policy == DropHead {
      DropKeeps(t, 0);
      AdmitQueues(t, Drop(t, 0), c, woken);
      HeadIsOldest(t);
    } else if t.policy == DropRandom {
      DropManyKeeps(t, |choices|, choices);
      var gone := DropManyThins(t, |choices|, choices);
      AdmitQueues(t, DropMany(t, |choices|, choices), c, woken);
    }
  }

  lemma {:induction false} EnterIs(t: State, choices: seq<nat>, woken: set<int>)
    requires Inv(t) && Enabled(t, Enter(choices, woken))
    ensures Entered(t, Apply(t, Enter(choices, woken)), t.acceptor.conn)
  {
    if Full(t) {
      OverloadIs(t, t.acceptor.conn, choices, woken);
    } else {
      AdmitQueues(t, t, t.acceptor.conn, woken);
    }
  }

  /** What a woken acceptor does: it queues its connection if there is room now, and sleeps again otherwise. */
  ghost predicate Reentered(t: State, u: State, c: Conn) {
    && u.handling == t.handling && u.dispatched == t.dispatched && u.arrivals == t.arrivals && u.closed == t.closed
    && if |t.waiting| + |t.handling| < t.limit then Queued(t, u, t.waiting, c) else Waits(t, u, c)
  }

  lemma {:induction false} ReenterIs(t: State, woken: set<int>)
    requires Inv(t) && Enabled(t, Reenter(woken))
    ensures Reentered(t, Apply(t, Reenter(woken)), t.acceptor.conn)
  {
    if !Full(t) {
      AdmitQueues(t, t, t.acceptor.conn, woken);
    }
  }

  /** In every run: below the limit the newcomer is queued; at the limit each policy closes what it should and nothing else. */
  lemma {:induction false} EnterExact(limit: nat, policy: Policy, threads: nat, t: State, choices: seq<nat>, woken: set<int>)
    requires Reachable(limit, policy, threads, t) && Enabled(t, Enter(choices, woken))
    ensures Entered(t, Apply(t, Enter(choices, woken)), t.acceptor.conn)
  {
    ReachableInv(limit, policy, threads, t);
    EnterIs(t, choices, woken);
  }

  /** Requests are dispatched in order of arrival: what has been dispatched is a subsequence of what has arrived. */
  lemma {:induction false} DispatchedInOrder(limit: nat, policy: Policy, threads: nat, t: State)
    requires Reachable(limit, policy, threads, t)
    ensures exists at :: Embeds(t.dispatched, t.arrivals, at)
  {
    ReachableInv(limit, policy, threads, t);
    var at := seq(|t.dispatched|, k requires 0 <= k < |t.dispatched| => t.dispatched[k].id);
    forall k | 0 <= k < |t.dispatched|
      ensures Known(t.arrivals, t.dispatched[k]) && at[k] == Line(t)[k].id
    {
      assert Line(t)[k] == t.dispatched[k];
    }
    assert Embeds(t.dispatched, t.arrivals, at);
  }

  /** Under the policy that waits nothing is lost: between iterations, dispatched and waiting are all that has arrived. */
  lemma {:induction false} FifoUnderBlock(limit: nat, threads: nat, t: State)
    requires Reachable(limit, Block, threads, t) && t.acceptor.Accepting?
    ensures t.dispatched + t.waiting == t.arrivals
  {
    ReachableInv(limit, Block, threads, t);
  }
}
