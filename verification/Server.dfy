/**
 * The critical sections of the server over the real queues. Each method is what one thread does between taking the
 * mutex and giving it up, and is proved to be the step of the protocol of the same name. The ghost state carries
 * what the queues do not store: who the threads are, and which connection a descriptor stands for.
 */
module Server {
  import opened Protocol
  import opened ProtocolLaws
  import opened RequestQueue

  ghost function Fds(conns: seq<Conn>): (fds: seq<int>)
    ensures |fds| == |conns|
  {
    seq(|conns|, i requires 0 <= i < |conns| => conns[i].fd)
  }

  class Server {
    const queueMaxSize: nat
    const policy: Policy
    const waitQueue: Queue
    const workerQueue: Queue
    ghost var state: State

    /** The queues hold what the protocol says; nothing is said of whether the invariant holds. */
    ghost predicate Stores()
      reads this, waitQueue, workerQueue, waitQueue.cells, workerQueue.cells
    {
      && waitQueue != workerQueue && waitQueue.Valid() && workerQueue.Valid()
      && waitQueue.cells !! workerQueue.cells
      && queueMaxSize == waitQueue.maxSize == workerQueue.maxSize == state.limit && policy == state.policy
      && waitQueue.Contents() == Fds(state.waiting) && workerQueue.Contents() == state.handling
    }

    ghost predicate Valid()
      reads this, waitQueue, workerQueue, waitQueue.cells, workerQueue.cells
    {
      Stores() && Inv(state)
    }

    constructor (queueMaxSize: nat, policy: Policy, threads: nat)
      ensures Valid() && state == Init(queueMaxSize, policy, threads)
      ensures state.limit == queueMaxSize && state.policy == policy && state.acceptor.Accepting?
      ensures state.waiting == [] && state.handling == [] && state.open == map[] && state.arrivals == state.closed == []
      ensures |state.workers| == threads && forall i :: 0 <= i < threads ==> state.workers[i].Idle?
    {
      this.queueMaxSize, this.policy := queueMaxSize, policy;
      waitQueue := new Queue(queueMaxSize);
      workerQueue := new Queue(queueMaxSize);
      state := Init(queueMaxSize, policy, threads);
      InitInv(queueMaxSize, policy, threads);
    }

    predicate AtLimit()
      reads this, waitQueue, workerQueue
    {
      workerQueue.size + waitQueue.size == queueMaxSize
    }

    // ----- outside the mutex -----

    /** The kernel hands out a descriptor that is not in use. */
    method Accept(fd: int) returns (connfd: int)
      requires Valid() && Enabled(state, Step.Accept(fd))
      modifies this
      ensures Valid() && state == Apply(old(state), Step.Accept(fd))
      ensures connfd == fd
      ensures var c := Conn(|old(state).arrivals|, fd);
              state == old(state).(acceptor := Arrived(c), arrivals := old(state).arrivals + [c],
                                   open := old(state).open[fd := c])
    {
      StepKeeps(state, Step.Accept(fd));
      state := Apply(state, Step.Accept(fd));
      connfd := fd;
    }

    method Close(fd: int)
      requires Stores()
      modifies this
      ensures Stores() && state == CloseFd(old(state), fd)
    {
      state := CloseFd(state, fd);
    }

    // ----- the acceptor -----

    /** The last two calls of an accept iteration: the newcomer is queued and a worker signalled. */
    method Admit(connfd: int, arrival: int, ghost woken: set<int>)
      requires Stores() && state.acceptor.Held() != [] && connfd == state.acceptor.conn.fd
      modifies this, waitQueue, waitQueue.cells
      ensures Stores() && state == Protocol.Admit(old(state), old(state).acceptor.conn, woken)
    {
      ghost var c := state.acceptor.conn;
      waitQueue.Enqueue(connfd, arrival);
      state := Protocol.Admit(state, c, woken);
      assert Fds(old(state).waiting + [c]) == Fds(old(state).waiting) + [connfd];
    }

    /** Refuses the newcomer. */
    method Refuse(connfd: int)
      requires Stores() && state.acceptor.Held() != [] && connfd == state.acceptor.conn.fd
      modifies this
      ensures Stores() && state == Protocol.Refuse(old(state), old(state).acceptor.conn)
    {
      Close(connfd);
      state := state.(acceptor := Accepting);
    }

    /** Drops the oldest waiting request. */
    method DropHead()
      requires Stores() && state.waiting != []
      modifies this, waitQueue, waitQueue.cells
      ensures Stores() && state == Drop(old(state), 0)
      ensures waitQueue.cells == old(waitQueue.cells)
    {
      ghost var was := state.waiting;
      ghost var fds := waitQueue.Contents();
      var fd := waitQueue.Dequeue();
      assert fd == fds[0] && waitQueue.Contents() == fds[1..];
      assert Fds(RemoveAt(was, 0)) == fds[1..];
      state := state.(waiting := RemoveAt(was, 0));
      Close(fd);
    }

    /** Drops the waiting request at an index. */
    method DropAt(index: nat)
      requires Stores() && index < |state.waiting| <= queueMaxSize
      modifies this, waitQueue, waitQueue.cells
      ensures Stores() && state == Drop(old(state), index)
      ensures waitQueue.cells == old(waitQueue.cells)
    {
      ghost var was := state.waiting;
      ghost var fds := waitQueue.Contents();
      var fd := waitQueue.DequeueByIndex(index);
      assert fd == fds[index] && waitQueue.Contents() == RemoveAt(fds, index);
      assert Fds(RemoveAt(was, index)) == RemoveAt(fds, index);
      state := state.(waiting := RemoveAt(was, index));
      Close(fd);
    }

    /** Drops half of the waiting requests, rounded up, each chosen by the next random number. */
    method DropHalf(choices: seq<nat>)
      requires Stores() && |choices| == (|state.waiting| + 1) / 2 && |state.waiting| <= queueMaxSize
      modifies this, waitQueue, waitQueue.cells
      ensures Stores() && state == DropMany(old(state), |choices|, choices)
      ensures waitQueue.cells == old(waitQueue.cells) && state.acceptor == old(state).acceptor
    {
      var requestsToDrop := (waitQueue.size + 1) / 2;
      ghost var n := |state.waiting|;
      var i := 0;
      while i < requestsToDrop
        invariant 0 <= i <= requestsToDrop == |choices| && Stores() && |state.waiting| == n - i <= queueMaxSize
        invariant DropMany(old(state), |choices|, choices) == DropMany(state, |choices| - i, choices[i..])
        invariant waitQueue.cells == old(waitQueue.cells) && state.acceptor == old(state).acceptor
      {
        var indexToRemove := choices[i] % waitQueue.size;
        assert choices[i..][1..] == choices[i + 1..];
        DropAt(indexToRemove);
        i := i + 1;
      }
    }

    /** What the acceptor does on finding the server full, policy by policy. */
    method Overload(connfd: int, arrival: int, choices: seq<nat>, ghost woken: set<int>)
      requires Stores() && state.acceptor.Arrived? && connfd == state.acceptor.conn.fd
      requires |choices| == (|state.waiting| + 1) / 2 && |state.waiting| <= queueMaxSize
      modifies this, waitQueue, waitQueue.cells
      ensures Stores() && state == Protocol.Overload(old(state), old(state).acceptor.conn, choices, woken)
    {
      match policy
      case Block =>
        state := state.(acceptor := Blocked(state.acceptor.conn));
      case DropTail =>
        Refuse(connfd);
      case DropHead =>
        if waitQueue.Empty() { Refuse(connfd); } else { ReplaceHead(connfd, arrival, woken); }
      case DropRandom =>
        if waitQueue.Empty() { Refuse(connfd); } else { ReplaceHalf(connfd, arrival, choices, woken); }
    }

    method ReplaceHead(connfd: int, arrival: int, ghost woken: set<int>)
      requires Stores() && state.acceptor.Arrived? && connfd == state.acceptor.conn.fd && state.waiting != []
      modifies this, waitQueue, waitQueue.cells
      ensures Stores() && state == Protocol.Admit(Drop(old(state), 0), old(state).acceptor.conn, woken)
    {
      DropHead();
      Admit(connfd, arrival, woken);
    }

    method ReplaceHalf(connfd: int, arrival: int, choices: seq<nat>, ghost woken: set<int>)
      requires Stores() && state.acceptor.Arrived? && connfd == state.acceptor.conn.fd
      requires |choices| == (|state.waiting| + 1) / 2 && |state.waiting| <= queueMaxSize
      modifies this, waitQueue, waitQueue.cells
      ensures Stores()
      ensures state == Protocol.Admit(DropMany(old(state), |choices|, choices), old(state).acceptor.conn, woken)
    {
      DropHalf(choices);
      Admit(connfd, arrival, woken);
    }

    /** The first critical section of an accept iteration. */
    method Enter(connfd: int, arrival: int, choices: seq<nat>, ghost woken: set<int>)
      requires Valid() && Enabled(state, Step.Enter(choices, woken)) && connfd == state.acceptor.conn.fd
      modifies this, waitQueue, waitQueue.cells
      ensures Valid() && state == Apply(old(state), Step.Enter(choices, woken))
      ensures Entered(old(state), state, old(state.acceptor.conn))
    {
      EnterIs(state, choices, woken);
      StepKeeps(state, Step.Enter(choices, woken));
      if AtLimit() {
        Overload(connfd, arrival, choices, woken);
      } else {
        Admit(connfd, arrival, woken);
      }
    }

    /** The acceptor has been woken and has the mutex again: it tests the limit once more. */
    method Reenter(connfd: int, arrival: int, ghost woken: set<int>)
      requires Valid() && Enabled(state, Step.Reenter(woken)) && connfd == state.acceptor.conn.fd
      modifies this, waitQueue, waitQueue.cells
      ensures Valid() && state == Apply(old(state), Step.Reenter(woken))
      ensures Reentered(old(state), state, old(state.acceptor.conn))
    {
      ReenterIs(state, woken);
      StepKeeps(state, Step.Reenter(woken));
      if AtLimit() {
        state := state.(acceptor := Blocked(state.acceptor.conn));
      } else {
        Admit(connfd, arrival, woken);
      }
    }

    // ----- the workers -----

    /** A worker with the mutex goes to sleep, or moves the head of one queue to the other. */
    method Take(worker: int, arrival: int) returns (asleep: bool, fd: int)
      requires Valid() && Enabled(state, Step.Take(worker))
      modifies this, waitQueue, waitQueue.cells, workerQueue, workerQueue.cells
      ensures Valid() && state == Apply(old(state), Step.Take(worker))
      ensures asleep == state.workers[worker].Sleeping? && (!asleep ==> state.workers[worker] == Busy(old(state).waiting[0]))
      ensures asleep <==> old(state).waiting == []
      ensures asleep ==> state == old(state).(workers := state.workers)
      ensures !asleep ==>
                var c := old(state).waiting[0];
                && fd == c.fd && state.waiting == old(state).waiting[1..] && state.handling == old(state).handling + [fd]
                && state.dispatched == old(state).dispatched + [c] && state.acceptor == old(state).acceptor
                && state.closed == old(state).closed
      ensures forall i :: 0 <= i < |old(state).workers| && i != worker ==> state.workers[i] == old(state).workers[i]
    {
      StepKeeps(state, Step.Take(worker));
      if state.waiting != [] {
        TakeKeeps(state, worker);
      }
      asleep, fd := waitQueue.Empty(), -1;
      if !asleep {
        fd := Move(arrival);
      }
      state := Apply(state, Step.Take(worker));
    }

    /** The head of one queue goes to the end of the other. */
    method Move(arrival: int) returns (fd: int)
      requires Stores() && state.waiting != []
      modifies waitQueue, waitQueue.cells, workerQueue, workerQueue.cells
      ensures waitQueue.Valid() && workerQueue.Valid() && waitQueue.cells !! workerQueue.cells
      ensures fd == state.waiting[0].fd && waitQueue.Contents() == Fds(state.waiting[1..])
      ensures workerQueue.Contents() == Protocol.Enqueue(state.handling, state.limit, fd)
    {
      ghost var fds := waitQueue.Contents();
      fd := waitQueue.Dequeue();
      assert fd == fds[0] && waitQueue.Contents() == fds[1..] == Fds(state.waiting[1..]);
      workerQueue.Enqueue(fd, arrival);
    }

    /** A worker is through with its request and closes the connection; the mutex is not held. */
    method CloseRequest(worker: int, fd: int)
      requires Valid() && Enabled(state, Step.Close(worker)) && fd == state.workers[worker].conn.fd
      modifies this
      ensures Valid() && state == Apply(old(state), Step.Close(worker))
      ensures var c := old(state).workers[worker].conn;
              && state.closed == old(state).closed + [c] && state.workers == old(state).workers[worker := Closing(c)]
              && state.waiting == old(state).waiting && state.handling == old(state).handling
    {
      StepKeeps(state, Step.Close(worker));
      CloseStepKeeps(state, worker);
      ghost var c := state.workers[worker].conn;
      Close(fd);
      state := state.(workers := state.workers[worker := Closing(c)]);
    }

    /** A worker takes its descriptor out of the worker queue and signals the acceptor. */
    method Done(worker: int, fd: int)
      requires Valid() && Enabled(state, Step.Done(worker)) && fd == state.workers[worker].conn.fd
      modifies this, workerQueue, workerQueue.cells
      ensures Valid() && state == Apply(old(state), Step.Done(worker))
      ensures multiset(state.handling) == multiset(old(state).handling) - multiset{fd}
      ensures state.workers == old(state).workers[worker := Idle] && state.waiting == old(state).waiting
      ensures state.closed == old(state).closed && state.acceptor.Held() == old(state).acceptor.Held()
      ensures !state.acceptor.Blocked?
    {
      StepKeeps(state, Step.Done(worker));
      DoneKeeps(state, worker);
      OwnLeaves(state.handling, state.workers, worker);
      var jobIndex := workerQueue.QueueFindIndex(fd);
      var _ := workerQueue.DequeueByIndex(jobIndex);
      state := Apply(state, Step.Done(worker));
    }
  }
}
