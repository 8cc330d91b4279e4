/** The deduplicating job queue (database/queue.go): any number of workers over one in-memory table per task kind.
    `R` is whatever state a running job keeps; it does not influence the queue. */
module DedupQueue {
  import opened Types
  import opened Tasks

  datatype DedupValue = DedupValue(running: bool, posted: int)

  datatype Msg = Msg(posted: int, job: Payload)

  /** A time that is read and the later time at which what is stamped with it is handed over. */
  datatype When = When(read: int, at: int)

  /** `since` is the time of the worker's last step; a time it reads later is not earlier than that. */
  datatype Worker<R> =
    | Idle
    | Taken(posted: int, task: Task, since: int)
    | Cleared(posted: int, task: Task, since: int)
    | Running(posted: int, task: Task, since: int, run: R)

  datatype Event =
    | Posted(task: Task, posted: int)
    | Skipped(task: Task, posted: int)
    | Started(task: Task, posted: int)
    | Succeeded(task: Task, posted: int, finish: int)
    | RunFailed(task: Task, posted: int)

  datatype Queue<R> = Queue(name: QName, pending: seq<Msg>, dedup: map<string, DedupValue>, workers: seq<Worker<R>>,
                            clock: int, log: seq<Event>)

  /** `Read` and `Claim` are the two separate table accesses of the source; `Decide` is both in one step, the
      idealised system. `stamp` is the time a worker read before writing it to the table. */
  datatype Action<R> =
    | Post(task: Task, when: When)
    | Take(w: nat, i: nat, at: int)
    | Read(w: nat, at: int)
    | Claim(w: nat, stamp: int, at: int, start: R)
    | Decide(w: nat, at: int, start: R)
    | Work(w: nat, run: R)
    | Succeed(w: nat, stamp: int, at: int)
    | Fail(w: nat, at: int)

  function InitialQueue<R>(name: QName, n: nat, clock: int): Queue<R> {
    Queue(name, [], map[], seq(n, _ => Idle), clock, [])
  }

  function Key<R>(w: Worker<R>): string
    requires !w.Idle?
  {
    DedupingKey(w.task)
  }

  /** The consumer's test on what it read from the table. */
  predicate Skips(dedup: map<string, DedupValue>, task: Task, posted: int) {
    DedupingKey(task) in dedup && (posted < dedup[DedupingKey(task)].posted || dedup[DedupingKey(task)].running)
  }

  predicate Enabled<R>(q: Queue<R>, a: Action<R>) {
    match a
    case Post(task, when) => when.at >= q.clock && when.read <= when.at && QueueOf(task) == q.name
    case Take(w, i, at) => at >= q.clock && w < |q.workers| && q.workers[w].Idle? && i < |q.pending|
    case Read(w, at) => at >= q.clock && w < |q.workers| && q.workers[w].Taken?
    case Claim(w, stamp, at, _) => at >= q.clock && w < |q.workers| && q.workers[w].Cleared?
                                   && q.workers[w].since <= stamp <= at
    case Decide(w, at, _) => at >= q.clock && w < |q.workers| && q.workers[w].Taken?
    case Work(w, _) => w < |q.workers| && q.workers[w].Running?
    case Succeed(w, stamp, at) => at >= q.clock && w < |q.workers| && q.workers[w].Running?
                                  && q.workers[w].since <= stamp <= at
    case Fail(w, at) => at >= q.clock && w < |q.workers| && q.workers[w].Running?
  }

  function Next<R>(q: Queue<R>, a: Action<R>): Queue<R>
    requires Enabled(q, a)
  {
    match a
    case Post(task, when) =>
      q.(pending := q.pending + [Msg(when.read, Job(task))], clock := when.at, log := q.log + [Posted(task, when.read)])
    case Take(w, i, at) => (
      var msg := q.pending[i];
      var q' := q.(pending := q.pending[..i] + q.pending[i + 1..], clock := at);
      match ParseJob(q.name, msg.job)
      case None => q'
      case Some(task) => q'.(workers := q.workers[w := Taken(msg.posted, task, at)]))
    case Read(w, at) => (
      var Taken(posted, task, _) := q.workers[w];
      if Skips(q.dedup, task, posted) then Skip(q, w, at)
      else q.(workers := q.workers[w := Cleared(posted, task, at)], clock := at))
    case Claim(w, stamp, at, start) => Begin(q, w, stamp, at, start)
    case Decide(w, at, start) => (
      var Taken(posted, task, _) := q.workers[w];
      if Skips(q.dedup, task, posted) then Skip(q, w, at) else Begin(q, w, at, at, start))
    case Work(w, run) => q.(workers := q.workers[w := q.workers[w].(run := run)])
    case Succeed(w, stamp, at) => (
      var Running(posted, task, _, _) := q.workers[w];
      q.(workers := q.workers[w := Idle], dedup := q.dedup[DedupingKey(task) := DedupValue(false, stamp)], clock := at,
         log := q.log + [Succeeded(task, posted, stamp)]))
    case Fail(w, at) => (
      var Running(posted, task, _, _) := q.workers[w];
      q.(workers := q.workers[w := Idle], dedup := q.dedup - {DedupingKey(task)}, clock := at,
         log := q.log + [RunFailed(task, posted)]))
  }

  /** Return without running the job. */
  function Skip<R>(q: Queue<R>, w: nat, at: int): Queue<R>
    requires w < |q.workers| && q.workers[w].Taken?
  {
    q.(workers := q.workers[w := Idle], clock := at, log := q.log + [Skipped(q.workers[w].task, q.workers[w].posted)])
  }

  /** Mark the key as running and start the runner. */
  function Begin<R>(q: Queue<R>, w: nat, stamp: int, at: int, start: R): Queue<R>
    requires w < |q.workers| && (q.workers[w].Taken? || q.workers[w].Cleared?)
  {
    var (posted, task) := (q.workers[w].posted, q.workers[w].task);
    q.(workers := q.workers[w := Running(posted, task, at, start)],
       dedup := q.dedup[DedupingKey(task) := DedupValue(true, stamp)], clock := at,
       log := q.log + [Started(task, posted)])
  }

  /** The idealised step is the source's two steps with nothing in between. */
  lemma DecideIsReadThenClaim<R>(q: Queue<R>, w: nat, at: int, start: R)
    requires Enabled(q, Decide(w, at, start))
    ensures Next(q, Decide(w, at, start)) ==
            var read := Next(q, Read(w, at));
            if read.workers[w].Cleared? then Next(read, Claim(w, at, at, start)) else read
  {
    var read := Next(q, Read(w, at));
    if read.workers[w].Cleared? {
      assert read.workers[w := Running(q.workers[w].posted, q.workers[w].task, at, start)] ==
             q.workers[w := Running(q.workers[w].posted, q.workers[w].task, at, start)];
    }
  }

  // ---------------------------------------------------------------- runs

  function Run<R>(q: Queue<R>, acts: seq<Action<R>>): Option<Queue<R>>
    decreases acts
  {
    if acts == [] then Some(q)
    else if Enabled(q, acts[0]) then Run(Next(q, acts[0]), acts[1..])
    else None
  }

  // ---------------------------------------------------------------- the fine-grained system

  ghost predicate Times<R>(q: Queue<R>) {
    && (forall i :: 0 <= i < |q.pending| ==> q.pending[i].posted <= q.clock)
    && (forall w :: 0 <= w < |q.workers| && !q.workers[w].Idle? ==>
                      q.workers[w].posted <= q.clock && q.workers[w].since <= q.clock)
    && (forall k :: k in q.dedup ==> q.dedup[k].posted <= q.clock)
  }

  /** `Running: true` in the table means that some worker is between claiming the key and releasing it. */
  ghost predicate RunningBacked<R>(q: Queue<R>) {
    forall k :: k in q.dedup && q.dedup[k].running ==> Busy(q, k)
  }

  ghost predicate Busy<R>(q: Queue<R>, k: string) {
    exists w :: 0 <= w < |q.workers| && q.workers[w].Running? && Key(q.workers[w]) == k
  }

  /** `Running: false` with time t means that a run of the key finished successfully at t. */
  ghost predicate FinishedBacked<R>(q: Queue<R>) {
    forall k :: k in q.dedup && !q.dedup[k].running ==> SucceededAt(q.log, k, q.dedup[k].posted)
  }

  ghost predicate SucceededAt(log: seq<Event>, k: string, t: int) {
    exists i :: 0 <= i < |log| && log[i].Succeeded? && DedupingKey(log[i].task) == k && log[i].finish == t
  }

  ghost predicate OwnTasks<R>(q: Queue<R>) {
    && (forall w :: 0 <= w < |q.workers| && !q.workers[w].Idle? ==> QueueOf(q.workers[w].task) == q.name)
    && (forall i :: 0 <= i < |q.log| ==> QueueOf(q.log[i].task) == q.name)
  }

  ghost predicate QueueInv<R>(q: Queue<R>) {
    Times(q) && RunningBacked(q) && FinishedBacked(q) && OwnTasks(q)
  }

  lemma InitialQueueInv<R>(name: QName, n: nat, clock: int)
    ensures QueueInv(InitialQueue<R>(name, n, clock))
  {
  }

  lemma TimesStep<R>(q: Queue<R>, a: Action<R>)
    requires Times(q) && Enabled(q, a)
    ensures Times(Next(q, a))
  {
  }

  lemma BackedStep<R>(q: Queue<R>, a: Action<R>)
    requires RunningBacked(q) && Enabled(q, a)
    ensures RunningBacked(Next(q, a))
  {
    var q' := Next(q, a);
    forall k | k in q'.dedup && q'.dedup[k].running
      ensures Busy(q', k)
    {
      if k in q.dedup && q.dedup[k].running {
        var v :| 0 <= v < |q.workers| && q.workers[v].Running? && Key(q.workers[v]) == k;
        if q'.workers[v].Running? {
          assert Key(q'.workers[v]) == k;
        }
      } else {
        var v := if a.Claim? || a.Decide? then a.w else 0;
        assert q'.workers[v].Running? && Key(q'.workers[v]) == k;
      }
    }
  }

  lemma FinishedStep<R>(q: Queue<R>, a: Action<R>)
    requires FinishedBacked(q) && Enabled(q, a)
    ensures FinishedBacked(Next(q, a))
  {
    var q' := Next(q, a);
    assert q.log <= q'.log;
    forall k | k in q'.dedup && !q'.dedup[k].running
      ensures SucceededAt(q'.log, k, q'.dedup[k].posted)
    {
      if k in q.dedup && q.dedup[k] == q'.dedup[k] {
        var i :| && 0 <= i < |q.log| && q.log[i].Succeeded? && DedupingKey(q.log[i].task) == k
                 && q.log[i].finish == q.dedup[k].posted;
        assert q'.log[i] == q.log[i];
      } else {
        var e := q'.log[|q.log|];
        assert e.Succeeded? && DedupingKey(e.task) == k;
      }
    }
  }

  lemma OwnTasksStep<R>(q: Queue<R>, a: Action<R>)
    requires OwnTasks(q) && Enabled(q, a)
    ensures OwnTasks(Next(q, a))
  {
  }

  /** The queue invariant is kept by every step, reads and claims of different workers interleaved as they may. */
  lemma QueueStep<R>(q: Queue<R>, a: Action<R>)
    requires QueueInv(q) && Enabled(q, a)
    ensures QueueInv(Next(q, a))
  {
    TimesStep(q, a);
    BackedStep(q, a);
    FinishedStep(q, a);
    OwnTasksStep(q, a);
  }

  lemma {:induction false} QueueRun<R>(q: Queue<R>, acts: seq<Action<R>>)
    requires QueueInv(q) && Run(q, acts).Some?
    ensures QueueInv(Run(q, acts).value)
    decreases acts
  {
    if acts != [] {
      QueueStep(q, acts[0]);
      QueueRun(Next(q, acts[0]), acts[1..]);
    }
  }

  /** Skipped work is covered: in every reachable state, when a read skips a job, at that moment a run of its key is
      in progress, or one finished successfully strictly after the job was posted. */
  lemma SkippedIsCovered<R>(name: QName, n: nat, clock: int, acts: seq<Action<R>>, w: nat, at: int)
    requires Run(InitialQueue(name, n, clock), acts).Some?
    requires var q := Run(InitialQueue(name, n, clock), acts).value;
             Enabled(q, Read(w, at)) && Skips(q.dedup, q.workers[w].task, q.workers[w].posted)
    ensures var q := Run(InitialQueue(name, n, clock), acts).value;
            || Busy(q, Key(q.workers[w]))
            || exists t :: t > q.workers[w].posted && SucceededAt(q.log, Key(q.workers[w]), t)
  {
    InitialQueueInv<R>(name, n, clock);
    QueueRun(InitialQueue(name, n, clock), acts);
    var q := Run(InitialQueue(name, n, clock), acts).value;
    SkipCovered(q, q.workers[w].task, q.workers[w].posted);
  }

  lemma SkipCovered<R>(q: Queue<R>, task: Task, posted: int)
    requires QueueInv(q) && Skips(q.dedup, task, posted)
    ensures Busy(q, DedupingKey(task)) || exists t :: t > posted && SucceededAt(q.log, DedupingKey(task), t)
  {
    var k := DedupingKey(task);
    if !q.dedup[k].running {
      assert SucceededAt(q.log, k, q.dedup[k].posted);
    }
  }

  // ---------------------------------------------------------------- no key gets stuck

  predicate Quiescent<R>(q: Queue<R>) {
    q.pending == [] && forall w :: 0 <= w < |q.workers| ==> q.workers[w].Idle?
  }

  /** The table's entry for a key. */
  function Mark<R>(q: Queue<R>, k: string): Option<DedupValue> {
    if k in q.dedup then Some(q.dedup[k]) else None
  }

  /** Nobody has read the table for key `k` since its entry was `mark`, which is not a running one. */
  ghost predicate Fresh<R>(q: Queue<R>, k: string, mark: Option<DedupValue>) {
    && Mark(q, k) == mark && (mark.Some? ==> !mark.value.running)
    && forall w :: 0 <= w < |q.workers| && !q.workers[w].Idle? && Key(q.workers[w]) == k ==> q.workers[w].Taken?
  }

  predicate Touches<R>(q: Queue<R>, a: Action<R>, k: string) {
    (a.Read? || a.Decide?) && a.w < |q.workers| && q.workers[a.w].Taken? && Key(q.workers[a.w]) == k
  }

  predicate Untouched<R>(q: Queue<R>, acts: seq<Action<R>>, k: string)
    decreases acts
  {
    acts == [] || (Enabled(q, acts[0]) && !Touches(q, acts[0], k) && Untouched(Next(q, acts[0]), acts[1..], k))
  }

  lemma FreshStep<R>(q: Queue<R>, a: Action<R>, k: string, mark: Option<DedupValue>)
    requires Fresh(q, k, mark) && Enabled(q, a) && !Touches(q, a, k)
    ensures Fresh(Next(q, a), k, mark)
  {
  }

  lemma {:induction false} FreshRun<R>(q: Queue<R>, acts: seq<Action<R>>, k: string, mark: Option<DedupValue>)
    requires Fresh(q, k, mark) && Untouched(q, acts, k)
    ensures Run(q, acts).Some? && Fresh(Run(q, acts).value, k, mark)
    decreases acts
  {
    if acts != [] {
      FreshStep(q, acts[0], k, mark);
      FreshRun(Next(q, acts[0]), acts[1..], k, mark);
    }
  }

  /** No key gets stuck: whatever successes, failures and duplicate runs came before, after a quiescent moment the
      next job of a key to be read is run unless the table then held a success after the time the job was posted. A
      job posted since that moment is always run. */
  lemma NoKeyStuck<R>(name: QName, n: nat, clock: int, past: seq<Action<R>>, since: seq<Action<R>>, w: nat, at: int)
    requires Run(InitialQueue(name, n, clock), past).Some? && Quiescent(Run(InitialQueue(name, n, clock), past).value)
    requires var quiet := Run(InitialQueue(name, n, clock), past).value;
             && Run(quiet, since).Some? && Enabled(Run(quiet, since).value, Read(w, at))
             && Untouched(quiet, since, Key(Run(quiet, since).value.workers[w]))
    ensures var quiet := Run(InitialQueue(name, n, clock), past).value;
            var q := Run(quiet, since).value;
            var k := Key(q.workers[w]);
            && (Next(q, Read(w, at)).workers[w].Cleared? <==>
                  k !in quiet.dedup || quiet.dedup[k].posted <= q.workers[w].posted)
            && (q.workers[w].posted >= quiet.clock ==> Next(q, Read(w, at)).workers[w].Cleared?)
  {
    InitialQueueInv<R>(name, n, clock);
    QueueRun(InitialQueue(name, n, clock), past);
    var quiet := Run(InitialQueue(name, n, clock), past).value;
    var k := Key(Run(quiet, since).value.workers[w]);
    QuiescentFresh(quiet, k);
    FreshRun(quiet, since, k, Mark(quiet, k));
  }

  lemma QuiescentFresh<R>(q: Queue<R>, k: string)
    requires QueueInv(q) && Quiescent(q)
    ensures Fresh(q, k, Mark(q, k)) && (k in q.dedup ==> q.dedup[k].posted <= q.clock)
  {
    assert k in q.dedup && q.dedup[k].running ==> Busy(q, k);
  }
}
