/** The work queues of src/queues.py (and the copy of RateLimitQueue in ratelimit.py),
    each as a sequential state machine over an integer clock of whole seconds.

    A queued item is a Task Envelope: a call, its arguments, and the id of its future.
    The futures live in a map from id to Pending, Done or Failed; the outcome of a call
    is supplied by the environment (an `Outcome` parameter). */
module Queues {

  /** The request method of a queued call; request_handler special-cases Python's `print`. */
  datatype Callable = Print | Coroutine(name: string)

  /** What the awaited call produced: a value, or a raised exception. */
  datatype Outcome = Returned(value: int) | Raised(error: string)

  datatype FutureState = Pending | Done(result: int) | Failed(error: string)

  datatype Envelope = Envelope(id: nat, call: Callable, args: seq<string>)

  function Ids(q: seq<Envelope>): (r: seq<nat>)
    ensures |r| == |q| && forall k :: 0 <= k < |q| ==> r[k] == q[k].id
  {
    if q == [] then [] else [q[0].id] + Ids(q[1..])
  }

  predicate Distinct(s: seq<nat>) {
    forall i, j :: 0 <= i < j < |s| ==> s[i] != s[j]
  }

  /** The state `future.set_result` / `future.set_exception` leave a future in. */
  function Settle(o: Outcome): (r: FutureState) {
    match o
    case Returned(v) => Done(v)
    case Raised(e) => Failed(e)
  }

  /** What request_handler leaves a pending future in: `print` requests are only
      logged and never resolve it; every other call resolves it once. */
  function HandlerResult(call: Callable, o: Outcome): FutureState {
    if call.Print? then Pending else Settle(o)
  }

  lemma HandlerResolvesIffNotPrint(call: Callable, o: Outcome)
    ensures HandlerResult(call, o) != Pending <==> !call.Print?
    ensures !call.Print? && o.Returned? ==> HandlerResult(call, o) == Done(o.value)
    ensures !call.Print? && o.Raised? ==> HandlerResult(call, o) == Failed(o.error)
  {
  }

  // ---------------------------------------------------------------------------
  // The per-second throttle of RateLimitQueue.worker

  /** The pair (current_second, requests_this_second). */
  datatype Throttle = Throttle(second: int, count: nat)

  /** One admission: `now` is the integer time read on dequeue, `wake` the integer
      time read after sleeping to the next second boundary. */
  function Admit(t: Throttle, cap: nat, now: int, wake: int): (r: Throttle)
    ensures r.count >= 1
    ensures r.second == now || r.second == wake
    ensures r.second == wake && wake != now ==> r.count == 1
  {
    var rolled := if now != t.second then Throttle(now, 0) else t;
    var waited := if rolled.count >= cap then Throttle(wake, 0) else rolled;
    Throttle(waited.second, waited.count + 1)
  }

  lemma AdmitBounds(t: Throttle, cap: nat, now: int, wake: int)
    requires cap >= 1 && t.count <= cap
    ensures 1 <= Admit(t, cap, now, wake).count <= cap
  {
  }

  /** On a new second the counter restarts: the admission is the first of `now`. */
  lemma AdmitOnRollover(t: Throttle, cap: nat, now: int, wake: int)
    requires cap >= 1 && now != t.second
    ensures Admit(t, cap, now, wake) == Throttle(now, 1)
  {
  }

  /** At the cap the worker moves to the second it wakes in and counts from 1 there. */
  lemma AdmitAtCap(t: Throttle, cap: nat, now: int, wake: int)
    requires now == t.second && t.count >= cap
    ensures Admit(t, cap, now, wake) == Throttle(wake, 1)
  {
  }

  /** Below the cap within the same second, the admission is counted on that second. */
  lemma AdmitBelowCap(t: Throttle, cap: nat, now: int, wake: int)
    requires now == t.second && t.count < cap
    ensures Admit(t, cap, now, wake) == Throttle(t.second, t.count + 1)
  {
  }

  /** `log` holds the second of every admission so far, and `t` is consistent with it:
      no second was ever handed out more than `cap` times. */
  ghost predicate ThrottleInv(log: seq<int>, t: Throttle, cap: nat) {
    && t.count <= cap
    && (forall i :: 0 <= i < |log| ==> log[i] <= t.second)
    && multiset(log)[t.second] == t.count
    && (forall s :: multiset(log)[s] <= cap)
  }

  /** The throttle invariant survives an admission on a clock that does not go back
      (`now >= t.second`) and wakes strictly later than it slept (`wake > now`). */
  lemma AdmitKeepsInv(log: seq<int>, t: Throttle, cap: nat, now: int, wake: int)
    requires cap >= 1 && ThrottleInv(log, t, cap)
    requires now >= t.second && wake > now
    ensures Admit(t, cap, now, wake).second >= t.second
    ensures ThrottleInv(log + [Admit(t, cap, now, wake).second], Admit(t, cap, now, wake), cap)
  {
    var r := Admit(t, cap, now, wake);
    var log' := log + [r.second];
    assert multiset(log') == multiset(log) + multiset{r.second};
    if r.second != t.second {
      // a second later than every logged one: nothing was admitted on it yet
      assert forall i :: 0 <= i < |log| ==> log[i] != r.second;
      assert r.second !in log;
    }
    forall s
      ensures multiset(log')[s] <= cap
    {
      if s == r.second {
        assert multiset(log')[s] == r.count;
      }
    }
  }

  /** One admission's clock readings, as WorkerStep takes them: how far the clock moved
      since the last reading, and how many whole seconds past the next boundary the
      throttle sleep ends. */
  datatype Reading = Reading(elapsed: nat, lateness: nat)

  /** The throttle and the log of admitted seconds after admitting one request per
      reading, starting from the constructor's state at time `start` (counter 0). */
  function Replay(start: int, cap: nat, rs: seq<Reading>): (Throttle, seq<int>)
    decreases |rs|
  {
    if rs == [] then (Throttle(start, 0), [])
    else
      var before := Replay(start, cap, rs[..|rs| - 1]);
      var r := rs[|rs| - 1];
      var now := before.0.second + r.elapsed;
      var t := Admit(before.0, cap, now, now + 1 + r.lateness);
      (t, before.1 + [t.second])
  }

  lemma {:induction false} ReplayKeepsInv(start: int, cap: nat, rs: seq<Reading>)
    requires cap >= 1
    ensures ThrottleInv(Replay(start, cap, rs).1, Replay(start, cap, rs).0, cap)
    decreases |rs|
  {
    if rs != [] {
      var before := Replay(start, cap, rs[..|rs| - 1]);
      ReplayKeepsInv(start, cap, rs[..|rs| - 1]);
      var r := rs[|rs| - 1];
      var now := before.0.second + r.elapsed;
      AdmitKeepsInv(before.1, before.0, cap, now, now + 1 + r.lateness);
    }
  }

  /** The throttle never admits more than `cap` requests on one second: from the
      constructor's state, whatever the clock readings, every second appears at most
      `cap` times among the admitted seconds, and there is one per admission. */
  lemma PerSecondCap(start: int, cap: nat, rs: seq<Reading>, s: int)
    requires cap >= 1
    ensures |Replay(start, cap, rs).1| == |rs|
    ensures multiset(Replay(start, cap, rs).1)[s] <= cap
  {
    ReplayLength(start, cap, rs);
    ReplayKeepsInv(start, cap, rs);
  }

  lemma {:induction false} ReplayLength(start: int, cap: nat, rs: seq<Reading>)
    ensures |Replay(start, cap, rs).1| == |rs|
    decreases |rs|
  {
    if rs != [] {
      ReplayLength(start, cap, rs[..|rs| - 1]);
    }
  }

  // ---------------------------------------------------------------------------
  // RateLimitQueue

  /** Ids strictly increase along the queue (they are handed out in submission order). */
  predicate IncreasingIds(q: seq<Envelope>) {
    forall i, j :: 0 <= i < j < |q| ==> q[i].id < q[j].id
  }

  /** A request_handler task created by the worker: the envelope, and the second and
      counter value it was admitted with. */
  datatype Dispatch = Dispatch(env: Envelope, second: int, count: nat)

  /** Every queued or dispatched envelope owns a distinct, still pending future. */
  ghost predicate FlightInv(queue: seq<Envelope>, dispatched: map<nat, Dispatch>,
                            futures: map<nat, FutureState>, nextId: nat)
  {
    && IncreasingIds(queue)
    && (forall id :: id in futures ==> id < nextId)
    && (forall k :: 0 <= k < |queue| ==>
          queue[k].id !in dispatched && queue[k].id in futures && futures[queue[k].id] == Pending)
    && (forall id :: id in dispatched ==>
          dispatched[id].env.id == id && id in futures && futures[id] == Pending)
  }

  lemma EnqueueKeepsFlightInv(queue: seq<Envelope>, dispatched: map<nat, Dispatch>,
                              futures: map<nat, FutureState>, nextId: nat, e: Envelope)
    requires FlightInv(queue, dispatched, futures, nextId) && e.id == nextId
    ensures e.id !in futures
    ensures FlightInv(queue + [e], dispatched, futures[e.id := Pending], nextId + 1)
  {
  }

  lemma DispatchKeepsFlightInv(queue: seq<Envelope>, dispatched: map<nat, Dispatch>,
                               futures: map<nat, FutureState>, nextId: nat, d: Dispatch)
    requires FlightInv(queue, dispatched, futures, nextId) && queue != [] && d.env == queue[0]
    ensures FlightInv(queue[1..], dispatched[d.env.id := d], futures, nextId)
  {
    assert forall k :: 0 <= k < |queue| - 1 ==> queue[1..][k] == queue[k + 1];
  }

  lemma HandleKeepsFlightInv(queue: seq<Envelope>, dispatched: map<nat, Dispatch>,
                             futures: map<nat, FutureState>, nextId: nat, id: nat, f: FutureState)
    requires FlightInv(queue, dispatched, futures, nextId) && id in dispatched
    ensures futures[id] == Pending
    ensures FlightInv(queue, dispatched - {id}, futures[id := f], nextId)
  {
  }

  /** The dispatch throttle: a FIFO of envelopes, the per-second counter, and the
      request_handler tasks handed off by the worker, keyed by their future's id. */
  class RateLimitQueue {
    const maxRequestsPerSecond: nat
    var currentSecond: int
    var requestsThisSecond: nat
    var queue: seq<Envelope>
    var dispatched: map<nat, Dispatch>
    var futures: map<nat, FutureState>
    var nextId: nat
    /** the second passed to request_handler on every admission so far, in order */
    ghost var admitted: seq<int>

    ghost predicate Valid()
      reads this
    {
      && maxRequestsPerSecond >= 1
      && ThrottleInv(admitted, Throttle(currentSecond, requestsThisSecond), maxRequestsPerSecond)
      && FlightInv(queue, dispatched, futures, nextId)
    }

    /** `RateLimitQueue(max_requests_per_second)`, created at integer time `now`.
        The worker sleeps `1 / max_requests_per_second` after each admission, so the
        cap must be positive. */
    constructor (maxRequestsPerSecond: nat, now: int)
      requires maxRequestsPerSecond >= 1
      ensures Valid()
      ensures this.maxRequestsPerSecond == maxRequestsPerSecond
      ensures currentSecond == now && requestsThisSecond == 0
      ensures queue == [] && dispatched == map[] && futures == map[] && admitted == []
    {
      this.maxRequestsPerSecond := maxRequestsPerSecond;
      currentSecond := now;
      requestsThisSecond := 0;
      queue := [];
      dispatched := map[];
      futures := map[];
      nextId := 0;
      admitted := [];
    }

    /** add_request: create a pending future and put the envelope at the back of the queue. */
    method AddRequest(call: Callable, args: seq<string>) returns (id: nat)
      requires Valid()
      modifies this`queue, this`futures, this`nextId
      ensures Valid()
      ensures id !in old(futures)
      ensures queue == old(queue) + [Envelope(id, call, args)]
      ensures futures == old(futures)[id := Pending]
    {
      id := nextId;
      EnqueueKeepsFlightInv(queue, dispatched, futures, nextId, Envelope(id, call, args));
      nextId := nextId + 1;
      queue := queue + [Envelope(id, call, args)];
      futures := futures[id := Pending];
    }

    /** One iteration of the worker loop. `elapsed` is how far the integer clock moved
        since the last reading and `lateness` how many whole seconds past the next
        boundary the throttle sleep ends. An empty queue blocks `queue.get()`: no step. */
    method WorkerStep(elapsed: nat, lateness: nat) returns (took: bool)
      requires Valid()
      modifies this`queue, this`dispatched, this`currentSecond, this`requestsThisSecond, this`admitted
      ensures Valid()
      ensures took == (old(queue) != [])
      ensures !took ==> queue == old(queue) && dispatched == old(dispatched)
                        && currentSecond == old(currentSecond)
                        && requestsThisSecond == old(requestsThisSecond)
                        && admitted == old(admitted)
      ensures took ==>
        var now := old(currentSecond) + elapsed;
        var env := old(queue)[0];
        && Throttle(currentSecond, requestsThisSecond)
           == Admit(Throttle(old(currentSecond), old(requestsThisSecond)),
                    maxRequestsPerSecond, now, now + 1 + lateness)
        && 1 <= requestsThisSecond <= maxRequestsPerSecond
        && queue == old(queue)[1..]
        && dispatched == old(dispatched)[env.id := Dispatch(env, currentSecond, requestsThisSecond)]
        && admitted == old(admitted) + [currentSecond]
    {
      if queue == [] {
        return false;
      }
      var env := queue[0];
      var now := currentSecond + elapsed;
      AdmitKeepsInv(admitted, Throttle(currentSecond, requestsThisSecond), maxRequestsPerSecond,
                    now, now + 1 + lateness);
      AdmitBounds(Throttle(currentSecond, requestsThisSecond), maxRequestsPerSecond,
                  now, now + 1 + lateness);
      var second, count := currentSecond, requestsThisSecond;
      if now != second {
        second, count := now, 0;
      }
      if count >= maxRequestsPerSecond {
        second, count := now + 1 + lateness, 0;
      }
      count := count + 1;
      assert Throttle(second, count)
          == Admit(Throttle(currentSecond, requestsThisSecond), maxRequestsPerSecond, now, now + 1 + lateness);
      DispatchKeepsFlightInv(queue, dispatched, futures, nextId, Dispatch(env, second, count));
      currentSecond, requestsThisSecond := second, count;
      admitted := admitted + [second];
      queue := queue[1..];
      dispatched := dispatched[env.id := Dispatch(env, second, count)];
      took := true;
    }

    /** Run the request_handler task of future `id`: that future, pending until now, gets
        the handler's result, and every other future is unchanged. */
    method RunHandler(id: nat, outcome: Outcome)
      requires Valid() && id in dispatched
      modifies this`dispatched, this`futures
      ensures Valid()
      ensures old(futures)[id] == Pending
      ensures dispatched == old(dispatched) - {id}
      ensures futures == old(futures)[id := HandlerResult(old(dispatched)[id].env.call, outcome)]
    {
      var d := dispatched[id];
      HandleKeepsFlightInv(queue, dispatched, futures, nextId, id, HandlerResult(d.env.call, outcome));
      dispatched := dispatched - {id};
      futures := futures[id := HandlerResult(d.env.call, outcome)];
    }
  }

  // ---------------------------------------------------------------------------
  // BaseDBQueue, PGQueue, ObjectStorageQueue

  /** The worker has completed a prefix of the submissions, the rest are queued in
      order with pending futures, and every completed future is resolved. */
  ghost predicate FifoInv(submitted: seq<nat>, completed: seq<nat>, queue: seq<Envelope>,
                          futures: map<nat, FutureState>, nextId: nat)
  {
    && submitted == completed + Ids(queue)
    && IncreasingIds(queue)
    && (forall id :: id in futures ==> id < nextId)
    && (forall k :: 0 <= k < |queue| ==> queue[k].id in futures && futures[queue[k].id] == Pending)
    && (forall k :: 0 <= k < |completed| ==> completed[k] in futures && futures[completed[k]] != Pending)
  }

  lemma SubmitKeepsFifoInv(submitted: seq<nat>, completed: seq<nat>, queue: seq<Envelope>,
                           futures: map<nat, FutureState>, nextId: nat, e: Envelope)
    requires FifoInv(submitted, completed, queue, futures, nextId) && e.id == nextId
    ensures e.id !in futures
    ensures FifoInv(submitted + [e.id], completed, queue + [e], futures[e.id := Pending], nextId + 1)
  {
    assert Ids(queue + [e]) == Ids(queue) + [e.id];
  }

  lemma CompleteKeepsFifoInv(submitted: seq<nat>, completed: seq<nat>, queue: seq<Envelope>,
                             futures: map<nat, FutureState>, nextId: nat, o: Outcome)
    requires FifoInv(submitted, completed, queue, futures, nextId) && queue != []
    ensures futures[queue[0].id] == Pending
    ensures FifoInv(submitted, completed + [queue[0].id], queue[1..],
                    futures[queue[0].id := Settle(o)], nextId)
  {
    var q' := queue[1..];
    assert Ids(queue) == [queue[0].id] + Ids(q');
    assert completed + [queue[0].id] + Ids(q') == completed + Ids(queue);
    assert forall k :: 0 <= k < |q'| ==> q'[k] == queue[k + 1];
  }

  /** A FIFO write queue whose worker awaits each call in turn. */
  class DbQueue {
    const name: string
    const maxWorkers: nat
    var queue: seq<Envelope>
    var futures: map<nat, FutureState>
    var nextId: nat
    /** asyncio.Queue's count of items put and not yet marked task_done */
    var unfinished: nat
    /** worker tasks created by start_workers */
    var workers: nat
    /** ids in submission order, and ids in the order the worker finished them */
    ghost var submitted: seq<nat>
    ghost var completed: seq<nat>

    ghost predicate Valid()
      reads this
    {
      && unfinished == |queue|
      && FifoInv(submitted, completed, queue, futures, nextId)
    }

    /** BaseDBQueue(name, max_workers). */
    constructor Base(name: string, maxWorkers: nat)
      ensures Valid() && this.name == name && this.maxWorkers == maxWorkers
      ensures queue == [] && futures == map[] && workers == 0 && submitted == []
    {
      this.name := name;
      this.maxWorkers := maxWorkers;
      queue, futures, nextId, unfinished, workers := [], map[], 0, 0, 0;
      submitted, completed := [], [];
    }

    /** PGQueue(max_workers): the queue named "PostgreSQL" (one worker by default). */
    constructor PG(maxWorkers: nat)
      ensures Valid() && name == "PostgreSQL" && this.maxWorkers == maxWorkers
      ensures queue == [] && futures == map[] && workers == 0 && submitted == []
    {
      name := "PostgreSQL";
      this.maxWorkers := maxWorkers;
      queue, futures, nextId, unfinished, workers := [], map[], 0, 0, 0;
      submitted, completed := [], [];
    }

    /** ObjectStorageQueue(max_workers): the queue named "Object Storage". */
    constructor ObjectStorage(maxWorkers: nat)
      ensures Valid() && name == "Object Storage" && this.maxWorkers == maxWorkers
      ensures queue == [] && futures == map[] && workers == 0 && submitted == []
    {
      name := "Object Storage";
      this.maxWorkers := maxWorkers;
      queue, futures, nextId, unfinished, workers := [], map[], 0, 0, 0;
      submitted, completed := [], [];
    }

    /** add_task: a pending future, and the envelope at the back of the queue. */
    method AddTask(call: Callable, args: seq<string>) returns (id: nat)
      requires Valid()
      modifies this`queue, this`futures, this`nextId, this`unfinished, this`submitted
      ensures Valid()
      ensures id !in old(futures)
      ensures queue == old(queue) + [Envelope(id, call, args)]
      ensures futures == old(futures)[id := Pending]
      ensures submitted == old(submitted) + [id] && unfinished == old(unfinished) + 1
    {
      id := nextId;
      SubmitKeepsFifoInv(submitted, completed, queue, futures, nextId, Envelope(id, call, args));
      nextId := nextId + 1;
      queue := queue + [Envelope(id, call, args)];
      futures := futures[id := Pending];
      unfinished := unfinished + 1;
      submitted := submitted + [id];
    }

    /** One iteration of `worker`: take the oldest envelope, settle its future with the
        call's outcome (a raised exception included), and mark the item done. */
    method WorkerStep(outcome: Outcome) returns (took: bool)
      requires Valid()
      modifies this`queue, this`futures, this`unfinished, this`completed
      ensures Valid()
      ensures took == (old(queue) != [])
      ensures !took ==> queue == old(queue) && futures == old(futures) && completed == old(completed)
      ensures took ==>
        && old(futures)[old(queue)[0].id] == Pending
        && queue == old(queue)[1..]
        && futures == old(futures)[old(queue)[0].id := Settle(outcome)]
        && completed == old(completed) + [old(queue)[0].id]
        && unfinished == old(unfinished) - 1
    {
      if queue == [] {
        return false;
      }
      var env := queue[0];
      CompleteKeepsFifoInv(submitted, completed, queue, futures, nextId, outcome);
      queue := queue[1..];
      futures := futures[env.id := Settle(outcome)];
      unfinished := unfinished - 1;
      completed := completed + [env.id];
      took := true;
    }

    /** The worker keeps going whatever the outcomes: draining the queue with one
        outcome per item completes every queued item, in submission order. */
    method Drain(outcomes: seq<Outcome>)
      requires Valid() && |outcomes| == |queue|
      modifies this`queue, this`futures, this`unfinished, this`completed
      ensures Valid()
      ensures queue == [] && unfinished == 0 && completed == submitted
      ensures completed == old(completed) + Ids(old(queue))
      ensures forall k :: 0 <= k < |old(queue)| ==>
                old(queue)[k].id in futures && futures[old(queue)[k].id] == Settle(outcomes[k])
    {
      ghost var q0 := queue;
      var i := 0;
      while i < |outcomes|
        invariant Valid()
        invariant 0 <= i <= |outcomes| && IncreasingIds(q0) && |q0| == |outcomes|
        invariant queue == q0[i..]
        invariant submitted == old(submitted)
        invariant forall k :: 0 <= k < i ==> q0[k].id in futures && futures[q0[k].id] == Settle(outcomes[k])
      {
        ghost var f0 := futures;
        var took := WorkerStep(outcomes[i]);
        assert futures == f0[q0[i].id := Settle(outcomes[i])];
        forall k | 0 <= k < i + 1
          ensures q0[k].id in futures && futures[q0[k].id] == Settle(outcomes[k])
        {
          if k < i {
            assert q0[k].id < q0[i].id;
          }
        }
        i := i + 1;
      }
    }

    /** start_workers: create exactly `max_workers` worker tasks. */
    method StartWorkers()
      requires Valid()
      modifies this`workers
      ensures Valid() && workers == old(workers) + maxWorkers
    {
      for i := 0 to maxWorkers
        invariant workers == old(workers) + i
      {
        workers := workers + 1;
      }
    }
  }

  // ---------------------------------------------------------------------------
  // CpuIntensiveQueue

  /** A FIFO of CPU-heavy calls; at most `maxWorkers` run inside the semaphore at once. */
  class CpuIntensiveQueue {
    const maxWorkers: nat
    var queue: seq<Envelope>
    /** the calls inside `async with self.semaphore`, running in the executor, by future id */
    var running: map<nat, Envelope>
    /** the semaphore's counter */
    var available: nat
    var futures: map<nat, FutureState>
    var nextId: nat
    var unfinished: nat
    var workers: nat

    ghost predicate Valid()
      reads this
    {
      && available + |running| == maxWorkers
      && unfinished == |queue| + |running|
      && IncreasingIds(queue)
      && (forall id :: id in futures ==> id < nextId)
      && (forall k :: 0 <= k < |queue| ==>
            queue[k].id !in running && queue[k].id in futures && futures[queue[k].id] == Pending)
      && (forall id :: id in running ==>
            running[id].id == id && id in futures && futures[id] == Pending)
    }

    /** CpuIntensiveQueue(max_workers): the semaphore starts at max_workers (default 2). */
    constructor (maxWorkers: nat)
      ensures Valid() && this.maxWorkers == maxWorkers && available == maxWorkers
      ensures queue == [] && running == map[] && futures == map[] && workers == 0
    {
      this.maxWorkers := maxWorkers;
      queue, running, available := [], map[], maxWorkers;
      futures, nextId, unfinished, workers := map[], 0, 0, 0;
    }

    /** add_task: a pending future, and the envelope at the back of the queue. */
    method AddTask(call: Callable, args: seq<string>) returns (id: nat)
      requires Valid()
      modifies this`queue, this`futures, this`nextId, this`unfinished
      ensures Valid()
      ensures id !in old(futures)
      ensures queue == old(queue) + [Envelope(id, call, args)]
      ensures futures == old(futures)[id := Pending]
      ensures unfinished == old(unfinished) + 1
    {
      id := nextId;
      nextId := nextId + 1;
      queue := queue + [Envelope(id, call, args)];
      futures := futures[id := Pending];
      unfinished := unfinished + 1;
    }

    /** A worker takes the oldest envelope and enters the semaphore; with the counter at
        zero (or nothing queued) no worker can proceed. */
    method Begin() returns (took: bool)
      requires Valid()
      modifies this`queue, this`running, this`available
      ensures Valid()
      ensures took == (old(queue) != [] && old(available) > 0)
      ensures !took ==> queue == old(queue) && running == old(running) && available == old(available)
      ensures took ==> queue == old(queue)[1..] && running == old(running)[old(queue)[0].id := old(queue)[0]]
                       && available == old(available) - 1
      ensures |running| <= maxWorkers
    {
      if queue == [] || available == 0 {
        return false;
      }
      var env := queue[0];
      queue := queue[1..];
      running := running[env.id := env];
      available := available - 1;
      assert forall k :: 0 <= k < |queue| ==> queue[k] == old(queue)[k + 1];
      took := true;
    }

    /** The running call of future `id` finishes: that future, pending until now, is
        settled with the outcome; the semaphore is released and the item marked done. */
    method Finish(id: nat, outcome: Outcome)
      requires Valid() && id in running
      modifies this`running, this`futures, this`available, this`unfinished
      ensures Valid()
      ensures old(futures)[id] == Pending
      ensures running == old(running) - {id}
      ensures futures == old(futures)[id := Settle(outcome)]
      ensures available == old(available) + 1 && unfinished == old(unfinished) - 1
    {
      running := running - {id};
      futures := futures[id := Settle(outcome)];
      available := available + 1;
      unfinished := unfinished - 1;
    }

    /** start_workers: create exactly `max_workers` worker tasks. */
    method StartWorkers()
      requires Valid()
      modifies this`workers
      ensures Valid() && workers == old(workers) + maxWorkers
    {
      for i := 0 to maxWorkers
        invariant workers == old(workers) + i
      {
        workers := workers + 1;
      }
    }
  }
}
