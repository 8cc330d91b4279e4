/** No job is lost: whatever the schedule, the key of every job that was enqueued is in flight or has had a run that
    ended, and a version job whose key has had no failure is published once its queue is at rest. */
module Answered {
  import opened Types
  import opened Archives
  import opened Tasks
  import opened ReadPath
  import opened Runners
  import opened DedupQueue
  import opened System

  predicate Waiting<R>(q: Queue<R>, i: nat, k: string) {
    i < |q.pending| && var t := ParseJob(q.name, q.pending[i].job); t.Some? && DedupingKey(t.value) == k
  }

  predicate AtWork<R>(q: Queue<R>, w: nat, k: string) {
    w < |q.workers| && !q.workers[w].Idle? && Key(q.workers[w]) == k
  }

  /** A job of the key is waiting or with a worker. */
  ghost predicate InFlight<R>(q: Queue<R>, k: string) {
    (exists i: nat :: Waiting(q, i, k)) || (exists w: nat :: AtWork(q, w, k))
  }

  predicate EndOf(log: seq<Event>, i: nat, k: string) {
    i < |log| && (log[i].Succeeded? || log[i].RunFailed?) && DedupingKey(log[i].task) == k
  }

  /** A run of the key has ended. */
  ghost predicate Ended(log: seq<Event>, k: string) {
    exists i: nat :: EndOf(log, i, k)
  }

  ghost predicate Tracked<R>(q: Queue<R>) {
    forall i :: 0 <= i < |q.log| && q.log[i].Posted? ==>
                  var k := DedupingKey(q.log[i].task); InFlight(q, k) || Ended(q.log, k)
  }

  lemma EndedStays<R>(q: Queue<R>, a: Action<R>, k: string)
    requires Enabled(q, a) && Ended(q.log, k)
    ensures Ended(Next(q, a).log, k)
  {
    var i: nat :| EndOf(q.log, i, k);
    assert EndOf(Next(q, a).log, i, k);
  }

  lemma WaitingStays<R>(q: Queue<R>, a: Action<R>, i: nat, k: string)
    requires Enabled(q, a) && Waiting(q, i, k)
    ensures InFlight(Next(q, a), k)
  {
    var q' := Next(q, a);
    if a.Take? {
      if i == a.i {
        assert AtWork(q', a.w, k);
      } else {
        assert Waiting(q', if i < a.i then i else i - 1, k);
      }
    } else {
      assert Waiting(q', i, k);
    }
  }

  /** A worker that lets go of a key has ended a run of it, or skipped a job that others cover. */
  lemma AtWorkStays<R>(q: Queue<R>, a: Action<R>, w: nat, k: string)
    requires QueueInv(q) && Enabled(q, a) && AtWork(q, w, k)
    ensures InFlight(Next(q, a), k) || Ended(Next(q, a).log, k)
  {
    var q' := Next(q, a);
    if !q'.workers[w].Idle? {
      assert AtWork(q', w, k);
    } else if a.Succeed? || a.Fail? {
      assert EndOf(q'.log, |q.log|, k);
    } else {
      SkipCovered(q, q.workers[w].task, q.workers[w].posted);
      if Busy(q, k) {
        var v :| 0 <= v < |q.workers| && q.workers[v].Running? && Key(q.workers[v]) == k;
        assert AtWork(q', v, k);
      } else {
        var t :| t > q.workers[w].posted && SucceededAt(q.log, k, t);
        SuccessEnds(q.log, k, t);
        EndedStays(q, a, k);
      }
    }
  }

  lemma SuccessEnds(log: seq<Event>, k: string, t: int)
    requires SucceededAt(log, k, t)
    ensures Ended(log, k)
  {
    var i: nat :| i < |log| && log[i].Succeeded? && DedupingKey(log[i].task) == k && log[i].finish == t;
    assert EndOf(log, i, k);
  }

  lemma KeyStays<R>(q: Queue<R>, a: Action<R>, k: string)
    requires QueueInv(q) && Enabled(q, a) && (InFlight(q, k) || Ended(q.log, k))
    ensures InFlight(Next(q, a), k) || Ended(Next(q, a).log, k)
  {
    if Ended(q.log, k) {
      EndedStays(q, a, k);
    } else if i: nat :| Waiting(q, i, k) {
      WaitingStays(q, a, i, k);
    } else {
      var w: nat :| AtWork(q, w, k);
      AtWorkStays(q, a, w, k);
    }
  }

  lemma TrackedStep<R>(q: Queue<R>, a: Action<R>)
    requires QueueInv(q) && Tracked(q) && Enabled(q, a)
    ensures Tracked(Next(q, a))
  {
    var q' := Next(q, a);
    forall i | 0 <= i < |q'.log| && q'.log[i].Posted?
      ensures var k := DedupingKey(q'.log[i].task); InFlight(q', k) || Ended(q'.log, k)
    {
      if i < |q.log| {
        assert q'.log[i] == q.log[i];
        KeyStays(q, a, DedupingKey(q.log[i].task));
      } else {
        JobRoundTrip(a.task);
        assert Waiting(q', |q.pending|, DedupingKey(a.task));
      }
    }
  }

  // ---------------------------------------------------------------- the whole server

  ghost predicate AllTracked(s: Sys) {
    forall q: QName :: q in s.queues ==> Tracked(s.queues[q])
  }

  ghost predicate QueuesInv(s: Sys) {
    Shape(s) && forall q: QName :: q in s.queues ==> QueueInv(s.queues[q])
  }

  lemma PostToTracked(s: Sys, post: Option<Task>, when: When)
    requires QueuesInv(s) && AllTracked(s)
    requires post.Some? ==> Enabled(s.queues[QueueOf(post.value)], Action.Post(post.value, when))
    ensures AllTracked(PostTo(s, post, when))
  {
    if post.Some? {
      TrackedStep(s.queues[QueueOf(post.value)], Action.Post(post.value, when));
    }
  }

  lemma WorkTracked(env: Env, s: Sys, q: QName, w: nat, ra: RunAct, when: When)
    requires QueuesInv(s) && AllTracked(s) && SysEnabled(env, s, SysAct.Work(q, w, ra, when))
    ensures AllTracked(SysNext(env, s, SysAct.Work(q, w, ra, when)))
  {
    var worker := s.queues[q].workers[w];
    var result := RunStep(env, worker.task, s.store, worker.run, ra);
    QueueStep(s.queues[q], Action.Work(w, result.run));
    TrackedStep(s.queues[q], Action.Work(w, result.run));
    PostToTracked(AfterRunner(s, q, w, result), result.post, when);
  }

  lemma StepTracked(env: Env, s: Sys, act: SysAct)
    requires QueuesInv(s) && AllTracked(s) && SysEnabled(env, s, act)
    ensures AllTracked(SysNext(env, s, act))
  {
    match act
    case Hook(repo, when) => PostToTracked(s, Some(FetchRepo(PackageRepo, repo)), when);
    case Ask(_, _) =>
    case Respond(i, f, when) =>
      var r := ReqStep(s.store, s.requests[i], f);
      PostToTracked(s.(requests := s.requests[i := r.req]), r.post, when);
    case Consume(q, a) => TrackedStep(s.queues[q], a);
    case Work(q, w, ra, when) => WorkTracked(env, s, q, w, ra, when);
    case Crash(_, _) =>
  }

  lemma SysQueuesInv(env: Env, s: Sys)
    requires SysInv(env, s)
    ensures QueuesInv(s)
  {
    forall q: QName
      ensures QueueInv(s.queues[q])
    {
      assert QueueOk(env, s.store, s.queues[q]);
    }
  }

  lemma {:induction false} RunTracked(env: Env, s: Sys, acts: seq<SysAct>)
    requires ValidEnv(env) && SysInv(env, s) && AllTracked(s) && RunSys(env, s, acts).Some?
    ensures AllTracked(RunSys(env, s, acts).value)
    decreases acts
  {
    if acts != [] {
      SysStep(env, s, acts[0]);
      SysQueuesInv(env, s);
      StepTracked(env, s, acts[0]);
      RunTracked(env, SysNext(env, s, acts[0]), acts[1..]);
    }
  }

  lemma ReachableTracked(env: Env, s: Sys)
    requires ValidEnv(env) && Reachable(env, s)
    ensures AllTracked(s)
  {
    var n: nat, clock: int, acts: seq<SysAct> :| RunSys(env, Boot(EMPTY_STORE, n, clock), acts) == Some(s);
    BootInv(env, EMPTY_STORE, n, clock);
    RunTracked(env, Boot(EMPTY_STORE, n, clock), acts);
  }

  /** The job that event `i` of the log records is for a published version, or a run of its key has failed. */
  ghost predicate PublishedOrFailed(s: Store, log: seq<Event>, i: nat)
    requires i < |log|
  {
    var t := log[i].task;
    && t.FetchVersion?
    && (|| t.version.sha in s.meta
        || exists j: nat :: j < |log| && log[j].RunFailed? && DedupingKey(log[j].task) == DedupingKey(t))
  }

  /** Every job that a version queue has been given is accounted for. */
  ghost predicate Accounted(s: Sys) {
    forall q: QName, i: nat :: q in s.queues && q.version && i < |s.queues[q].log| && s.queues[q].log[i].Posted? ==>
                                 PublishedOrFailed(s.store, s.queues[q].log, i)
  }

  lemma RestingJob(env: Env, s: Store, q: Queue<Run>, i: nat)
    requires QueueOk(env, s, q) && Tracked(q) && Quiescent(q) && q.name.version && i < |q.log| && q.log[i].Posted?
    ensures PublishedOrFailed(s, q.log, i)
  {
    var k := DedupingKey(q.log[i].task);
    assert !InFlight(q, k);
    var j: nat :| EndOf(q.log, j, k);
    SameKey(q.log[i].task, q.log[j].task);
  }

  /** No job is lost: in every reachable state in which a version queue is at rest, every version for which it has
      been given a job since the start is published, unless a run of its key has failed. */
  lemma EnqueuedVersionsArePublished(env: Env, s: Sys, kind: RepoType, i: nat)
    requires ValidEnv(env) && Reachable(env, s) && QName(true, kind) in s.queues
             && Quiescent(s.queues[QName(true, kind)])
    requires i < |s.queues[QName(true, kind)].log| && s.queues[QName(true, kind)].log[i].Posted?
    ensures PublishedOrFailed(s.store, s.queues[QName(true, kind)].log, i)
  {
    ReachableInv(env, s);
    ReachableTracked(env, s);
    RestingJob(env, s.store, s.queues[QName(true, kind)], i);
  }

  lemma RestingServer(env: Env, s: Sys)
    requires SysInv(env, s) && AllTracked(s) && forall q: QName :: q in s.queues ==> Quiescent(s.queues[q])
    ensures Accounted(s)
  {
    forall q: QName, i: nat | q in s.queues && q.version && i < |s.queues[q].log| && s.queues[q].log[i].Posted?
      ensures PublishedOrFailed(s.store, s.queues[q].log, i)
    {
      RestingJob(env, s.store, s.queues[q], i);
    }
  }
}
