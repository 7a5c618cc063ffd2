/**
 * The request protocol of the thread pool: one acceptor and some workers, one mutex, two condition variables and
 * four overload policies. A step is what one thread does between taking the mutex and giving it up, or one action
 * outside; every interleaving of steps is a run. A wakeup moves a sleeper to the threads that compete for the mutex.
 */
module Protocol {

  /** A connection: its place in the order of arrival, which nobody stores, and the descriptor that stands for it. */
  datatype Conn = Conn(id: nat, fd: int)

  datatype Policy = Block | DropTail | DropHead | DropRandom

  datatype Acceptor =
    | Accepting          // in accept
    | Arrived(conn: Conn)  // about to lock for the first time
    | Blocked(conn: Conn)  // asleep on cond_block
    | Awake(conn: Conn)    // woken, about to get the mutex back
  {
    function Held(): seq<Conn> { if Accepting? then [] else [conn] }
  }

  datatype Worker =
    | Idle               // about to lock
    | Sleeping           // asleep on cond
    | Roused             // woken, about to get the mutex back
    | Busy(conn: Conn)     // handling a request
    | Closing(conn: Conn)  // connection closed, about to lock
  {
    predicate Free() { Idle? || Roused? }
    predicate Holding() { Busy? || Closing? }
  }

  /**
   * `waiting` and `handling` are the two queues, `open` is the descriptor table of the kernel. `arrivals`,
   * `dispatched`, `closed` and `faults` (descriptors closed while not open) record what has happened.
   */
  datatype State = State(limit: nat, policy: Policy, acceptor: Acceptor, workers: seq<Worker>,
                         waiting: seq<Conn>, handling: seq<int>, open: map<int, Conn>,
                         arrivals: seq<Conn>, dispatched: seq<Conn>, closed: seq<Conn>, faults: nat)

  datatype Step =
    | Accept(fd: int)
    | Enter(choices: seq<nat>, woken: set<int>)
    | Reenter(woken: set<int>)
    | Take(worker: int)
    | Close(worker: int)
    | Done(worker: int)
    | StirWorker(worker: int)
    | StirAcceptor

  ghost function Init(limit: nat, policy: Policy, threads: nat): State {
    State(limit, policy, Accepting, seq(threads, i => Idle), [], [], map[], [], [], [], 0)
  }

  // ----- pieces of steps -----

  ghost predicate Full(s: State) {
    |s.waiting| + |s.handling| == s.limit
  }

  /** A queue takes a value unless it is full; a full queue says nothing. */
  function Enqueue<T>(q: seq<T>, max: nat, x: T): seq<T> {
    if |q| == max then q else q + [x]
  }

  function RemoveAt<T>(q: seq<T>, i: int): seq<T>
    requires 0 <= i < |q|
  {
    q[..i] + q[i + 1..]
  }

  /** The first index of a value, or the length if there is none. */
  function FindIndex(q: seq<int>, fd: int): (i: nat)
    ensures i <= |q|
    ensures forall j :: 0 <= j < i ==> q[j] != fd
    ensures i < |q| ==> q[i] == fd
  {
    if q == [] || q[0] == fd then 0 else 1 + FindIndex(q[1..], fd)
  }

  ghost function CloseFd(s: State, fd: int): State {
    if fd in s.open then s.(open := s.open - {fd}, closed := s.closed + [s.open[fd]])
    else s.(faults := s.faults + 1)
  }

  ghost function Sleepers(workers: seq<Worker>): set<int> {
    set i | 0 <= i < |workers| && workers[i].Sleeping?
  }

  /** A signal wakes at least one sleeper if there is any. */
  ghost predicate MayWake(s: State, woken: set<int>) {
    woken <= Sleepers(s.workers) && (Sleepers(s.workers) != {} ==> woken != {})
  }

  ghost function Wake(workers: seq<Worker>, woken: set<int>): seq<Worker> {
    seq(|workers|, i requires 0 <= i < |workers| => if i in woken then Roused else workers[i])
  }

  /** The end of an accept iteration: the connection joins the queue and a worker is signalled. */
  ghost function Admit(s: State, c: Conn, woken: set<int>): State {
    s.(acceptor := Accepting, waiting := Enqueue(s.waiting, s.limit, c), workers := Wake(s.workers, woken))
  }

  ghost function Refuse(s: State, c: Conn): State {
    CloseFd(s, c.fd).(acceptor := Accepting)
  }

  /** Drops the waiting request at an index. */
  ghost function Drop(s: State, i: int): State
    requires 0 <= i < |s.waiting|
  {
    CloseFd(s.(waiting := RemoveAt(s.waiting, i)), s.waiting[i].fd)
  }

  /** Drops `n` waiting requests, each chosen anew among those that are left. */
  ghost function DropMany(s: State, n: nat, choices: seq<nat>): State
    requires n <= |s.waiting| && n <= |choices|
    decreases n
  {
    if n == 0 then s else DropMany(Drop(s, choices[0] % |s.waiting|), n - 1, choices[1..])
  }

  // ----- steps -----

  ghost predicate Enabled(s: State, step: Step) {
    match step
    case Accept(fd) => s.acceptor.Accepting? && fd !in s.open
    case Enter(choices, woken) => s.acceptor.Arrived? && MayWake(s, woken) && |choices| == (|s.waiting| + 1) / 2
    case Reenter(woken) => s.acceptor.Awake? && MayWake(s, woken)
    case Take(i) => 0 <= i < |s.workers| && s.workers[i].Free()
    case Close(i) => 0 <= i < |s.workers| && s.workers[i].Busy?
    case Done(i) => 0 <= i < |s.workers| && s.workers[i].Closing?
    case StirWorker(i) => 0 <= i < |s.workers| && s.workers[i].Sleeping?
    case StirAcceptor => s.acceptor.Blocked?
  }

  /** What the acceptor does on finding the server full. */
  ghost function Overload(s: State, c: Conn, choices: seq<nat>, woken: set<int>): State
    requires |choices| == (|s.waiting| + 1) / 2
  {
    match s.policy
    case Block => s.(acceptor := Blocked(c))
    case DropTail => Refuse(s, c)
    case DropHead => if s.waiting == [] then Refuse(s, c) else Admit(Drop(s, 0), c, woken)
    case DropRandom =>
      if s.waiting == [] then Refuse(s, c) else Admit(DropMany(s, (|s.waiting| + 1) / 2, choices), c, woken)
  }

  ghost function TakeRequest(s: State, i: int): State
    requires 0 <= i < |s.workers|
  {
    if s.waiting == [] then s.(workers := s.workers[i := Sleeping])
    else
      var c := s.waiting[0];
      s.(waiting := s.waiting[1..], handling := Enqueue(s.handling, s.limit, c.fd),
         workers := s.workers[i := Busy(c)], dispatched := s.dispatched + [c])
  }

  /** The worker forgets its request and signals the acceptor. */
  ghost function Finish(s: State, i: int, c: Conn): State
    requires 0 <= i < |s.workers|
  {
    var j := FindIndex(s.handling, c.fd);
    s.(handling := if j < |s.handling| then RemoveAt(s.handling, j) else s.handling,
       workers := s.workers[i := Idle],
       acceptor := if s.acceptor.Blocked? then Awake(s.acceptor.conn) else s.acceptor)
  }

  ghost function Apply(s: State, step: Step): State
    requires Enabled(s, step)
  {
    match step
    case Accept(fd) =>
      var c := Conn(|s.arrivals|, fd);
      s.(acceptor := Arrived(c), open := s.open[fd := c], arrivals := s.arrivals + [c])
    case Enter(choices, woken) =>
      if Full(s) then Overload(s, s.acceptor.conn, choices, woken) else Admit(s, s.acceptor.conn, woken)
    case Reenter(woken) =>
      if Full(s) then s.(acceptor := Blocked(s.acceptor.conn)) else Admit(s, s.acceptor.conn, woken)
    case Take(i) => TakeRequest(s, i)
    case Close(i) =>
      CloseFd(s, s.workers[i].conn.fd).(workers := s.workers[i := Closing(s.workers[i].conn)])
    case Done(i) => Finish(s, i, s.workers[i].conn)
    case StirWorker(i) => s.(workers := s.workers[i := Roused])
    case StirAcceptor => s.(acceptor := Awake(s.acceptor.conn))
  }

  ghost predicate Runs(s: State, steps: seq<Step>, t: State)
    decreases |steps|
  {
    if steps == [] then s == t
    else Enabled(s, steps[0]) && Runs(Apply(s, steps[0]), steps[1..], t)
  }
}
