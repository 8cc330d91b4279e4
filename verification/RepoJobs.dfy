/** What became of repository jobs: whatever the schedule, once the server is at rest every repository it was given a
    job for has a record all of whose versions were enqueued, unless its listing was empty or a run of it failed. */
module RepoJobs {
  import opened Types
  import opened Archives
  import opened Listings
  import opened Tasks
  import opened ReadPath
  import opened Runners
  import opened DedupQueue
  import opened System
  import opened Answered

  predicate PostedAt(log: seq<Event>, i: nat, v: Version) {
    i < |log| && log[i].Posted? && log[i].task.FetchVersion? && log[i].task.version == v
  }

  /** A job for the version has been enqueued since the start. */
  ghost predicate VersionPosted(log: seq<Event>, v: Version) {
    exists i: nat :: PostedAt(log, i, v)
  }

  /** Every version of the record is in `rest` or has been enqueued. */
  ghost predicate EachPosted(info: RepoInfo, log: seq<Event>, rest: seq<Version>) {
    forall v :: v in info.versions ==> v in rest || VersionPosted(log, v)
  }

  function RepoQueue(s: Sys, kind: RepoType): Queue<Run>
    requires QName(false, kind) in s.queues
  {
    s.queues[QName(false, kind)]
  }

  function VersionLog(s: Sys, kind: RepoType): seq<Event>
    requires QName(true, kind) in s.queues
  {
    s.queues[QName(true, kind)].log
  }

  /** The worker runs a fetch of the repository with key `k`. */
  predicate RunsRepo(q: Queue<Run>, w: nat, k: string) {
    && w < |q.workers| && q.workers[w].Running? && q.workers[w].task.FetchRepo?
    && RepoString(q.workers[w].task.repo) == k
  }

  /** Every version of the repository's record has been enqueued. */
  ghost predicate Complete(s: Sys, k: string)
    requires Shape(s)
  {
    k in s.store.repos && exists kind :: EachPosted(s.store.repos[k], VersionLog(s, kind), [])
  }

  /** The worker is enqueueing what is still missing. */
  ghost predicate Enqueues(s: Sys, k: string, kind: RepoType, w: nat)
    requires Shape(s)
  {
    && k in s.store.repos && RunsRepo(RepoQueue(s, kind), w, k) && RepoQueue(s, kind).workers[w].run.REnqueue?
    && EachPosted(s.store.repos[k], VersionLog(s, kind), RepoQueue(s, kind).workers[w].run.rest)
  }

  predicate FailureAt(log: seq<Event>, i: nat, k: string) {
    i < |log| && log[i].RunFailed? && log[i].task.FetchRepo? && RepoString(log[i].task.repo) == k
  }

  /** A run of the repository has failed since the start. */
  ghost predicate RepoFailed(s: Sys, k: string)
    requires Shape(s)
  {
    exists kind, i: nat :: FailureAt(RepoQueue(s, kind).log, i, k)
  }

  /** The worker is about to report such a failure. */
  predicate Fails(s: Sys, k: string, kind: RepoType, w: nat)
    requires QName(false, kind) in s.queues
  {
    RunsRepo(RepoQueue(s, kind), w, k) && RepoQueue(s, kind).workers[w].run == Done(false)
  }

  /** What has come of the repository with key `k`. */
  ghost predicate Concluded(s: Sys, k: string)
    requires Shape(s)
  {
    || k in s.unlisted || Complete(s, k) || (exists kind, w: nat :: Enqueues(s, k, kind, w))
    || RepoFailed(s, k) || (exists kind, w: nat :: Fails(s, k, kind, w))
  }

  /** The run has stored its record, or ended well without one. */
  predicate Stored(run: Run) {
    run.REnqueue? || run == Done(true)
  }

  ghost predicate WorkersConclude(s: Sys)
    requires Shape(s)
  {
    forall kind, w: nat, k :: RunsRepo(RepoQueue(s, kind), w, k) && Stored(RepoQueue(s, kind).workers[w].run) ==>
                             Concluded(s, k)
  }

  predicate SuccessAt(log: seq<Event>, i: nat, k: string) {
    i < |log| && log[i].Succeeded? && log[i].task.FetchRepo? && RepoString(log[i].task.repo) == k
  }

  ghost predicate SuccessesConclude(s: Sys)
    requires Shape(s)
  {
    forall kind, i: nat, k :: SuccessAt(RepoQueue(s, kind).log, i, k) ==> Concluded(s, k)
  }

  ghost predicate RepoInv(s: Sys) {
    Shape(s) && WorkersConclude(s) && SuccessesConclude(s)
  }

  // ---------------------------------------------------------------- what a step leaves as it was

  /** Logs and the set of unlisted keys only grow, and the record of `k` is the same. */
  ghost predicate Keeps(s: Sys, s': Sys, k: string) {
    && Shape(s) && Shape(s') && (forall q: QName :: s.queues[q].log <= s'.queues[q].log) && s.unlisted <= s'.unlisted
    && (k in s.store.repos ==> k in s'.store.repos && s'.store.repos[k] == s.store.repos[k])
  }

  lemma PostedStays(log: seq<Event>, log': seq<Event>, info: RepoInfo, rest: seq<Version>)
    requires log <= log' && EachPosted(info, log, rest)
    ensures EachPosted(info, log', rest)
  {
    forall v | v in info.versions && v !in rest
      ensures VersionPosted(log', v)
    {
      var i: nat :| PostedAt(log, i, v);
      assert PostedAt(log', i, v);
    }
  }

  lemma CompleteStays(s: Sys, s': Sys, k: string)
    requires Keeps(s, s', k) && Complete(s, k)
    ensures Complete(s', k)
  {
    var kind :| EachPosted(s.store.repos[k], VersionLog(s, kind), []);
    PostedStays(VersionLog(s, kind), VersionLog(s', kind), s.store.repos[k], []);
  }

  lemma FailureStays(s: Sys, s': Sys, k: string)
    requires Keeps(s, s', k) && RepoFailed(s, k)
    ensures RepoFailed(s', k)
  {
    var kind, i: nat :| FailureAt(RepoQueue(s, kind).log, i, k);
    assert FailureAt(RepoQueue(s', kind).log, i, k);
  }

  predicate SameWorker(s: Sys, s': Sys, kind: RepoType, w: nat)
    requires QName(false, kind) in s.queues && QName(false, kind) in s'.queues
  {
    w < |RepoQueue(s, kind).workers| && w < |RepoQueue(s', kind).workers|
    && RepoQueue(s', kind).workers[w] == RepoQueue(s, kind).workers[w]
  }

  lemma EnqueuesStays(s: Sys, s': Sys, k: string, kind: RepoType, w: nat)
    requires Keeps(s, s', k) && Enqueues(s, k, kind, w) && SameWorker(s, s', kind, w)
    ensures Enqueues(s', k, kind, w)
  {
    PostedStays(VersionLog(s, kind), VersionLog(s', kind), s.store.repos[k], RepoQueue(s, kind).workers[w].run.rest);
  }

  /** Workers that are enqueueing for `k` or about to fail go on as they are, or report the failure. */
  ghost predicate GoesOn(s: Sys, s': Sys, k: string) {
    && Keeps(s, s', k)
    && (forall kind, w: nat :: Enqueues(s, k, kind, w) ==> SameWorker(s, s', kind, w))
    && (forall kind, w: nat :: Fails(s, k, kind, w) ==> SameWorker(s, s', kind, w) || RepoFailed(s', k))
  }

  lemma ConcludedStays(s: Sys, s': Sys, k: string)
    requires GoesOn(s, s', k) && Concluded(s, k)
    ensures Concluded(s', k)
  {
    if Complete(s, k) {
      CompleteStays(s, s', k);
    } else if kind, w: nat :| Enqueues(s, k, kind, w) {
      EnqueuesStays(s, s', k, kind, w);
    } else if RepoFailed(s, k) {
      FailureStays(s, s', k);
    } else if kind, w: nat :| Fails(s, k, kind, w) {
      assert SameWorker(s, s', kind, w) ==> Fails(s', k, kind, w);
    }
  }

  // ---------------------------------------------------------------- steps outside the runners

  lemma PostGoesOn(s: Sys, post: Option<Task>, when: When, k: string)
    requires Shape(s)
    requires post.Some? ==> Enabled(s.queues[QueueOf(post.value)], Action.Post(post.value, when))
    ensures GoesOn(s, PostTo(s, post, when), k)
  {
  }

  /** A worker whose run has not ended well is let go of only when it failed. */
  lemma ConsumeWorker(q: Queue<Run>, a: Action<Run>, w: nat)
    requires ConsumeEnabled(q, a) && w < |q.workers| && q.workers[w].Running? && q.workers[w].run != Done(true)
    ensures q.log <= Next(q, a).log && w < |Next(q, a).workers|
    ensures || Next(q, a).workers[w] == q.workers[w]
            || (q.workers[w].run == Done(false)
                && Next(q, a).log == q.log + [RunFailed(q.workers[w].task, q.workers[w].posted)])
  {
  }

  lemma ConsumeLog(q: Queue<Run>, a: Action<Run>)
    requires ConsumeEnabled(q, a)
    ensures q.log <= Next(q, a).log
  {
  }

  lemma ConsumeEnqueues(s: Sys, q: QName, after: Queue<Run>, a: Action<Run>, k: string, kind: RepoType, w: nat)
    requires Shape(s) && ConsumeEnabled(s.queues[q], a) && after == Next(s.queues[q], a)
    requires Enqueues(s, k, kind, w)
    ensures SameWorker(s, s.(queues := s.queues[q := after]), kind, w)
  {
    if q == QName(false, kind) {
      ConsumeWorker(s.queues[q], a, w);
    }
  }

  lemma ConsumeFails(s: Sys, q: QName, after: Queue<Run>, a: Action<Run>, k: string, kind: RepoType, w: nat)
    requires Shape(s) && ConsumeEnabled(s.queues[q], a) && after == Next(s.queues[q], a) && Fails(s, k, kind, w)
    requires Shape(s.(queues := s.queues[q := after]))
    ensures SameWorker(s, s.(queues := s.queues[q := after]), kind, w)
            || RepoFailed(s.(queues := s.queues[q := after]), k)
  {
    if q == QName(false, kind) {
      ConsumeWorker(s.queues[q], a, w);
      if after.workers[w] != s.queues[q].workers[w] {
        assert FailureAt(RepoQueue(s.(queues := s.queues[q := after]), kind).log, |s.queues[q].log|, k);
      }
    }
  }

  lemma ConsumeGoesOn(env: Env, s: Sys, q: QName, a: Action<Run>, k: string)
    requires Shape(s) && ConsumeEnabled(s.queues[q], a)
    ensures GoesOn(s, SysNext(env, s, Consume(q, a)), k)
  {
    var after := Next(s.queues[q], a);
    ConsumeLog(s.queues[q], a);
    var s' := s.(queues := s.queues[q := after]);
    forall kind, w: nat | Enqueues(s, k, kind, w)
      ensures SameWorker(s, s', kind, w)
    {
      ConsumeEnqueues(s, q, after, a, k, kind, w);
    }
    forall kind, w: nat | Fails(s, k, kind, w)
      ensures SameWorker(s, s', kind, w) || RepoFailed(s', k)
    {
      ConsumeFails(s, q, after, a, k, kind, w);
    }
  }

  // ---------------------------------------------------------------- steps of the runners

  /** A runner's step leaves the other workers alone, and records of other repositories. */
  lemma WorkKeeps(env: Env, s: Sys, q: QName, w: nat, ra: RunAct, k: string)
    requires Shape(s) && w < |s.queues[q].workers| && s.queues[q].workers[w].Running?
    requires RunEnabled(env, s.queues[q].workers[w].task, s.queues[q].workers[w].run, ra)
    requires ra.StoreRepo? ==> RepoString(s.queues[q].workers[w].task.repo) != k
    ensures var r := RunStep(env, s.queues[q].workers[w].task, s.store, s.queues[q].workers[w].run, ra);
            Keeps(s, AfterRunner(s, q, w, r), k)
  {
  }

  lemma OtherWorkers(s: Sys, q: QName, w: nat, r: RunResult, kind: RepoType, v: nat)
    requires Shape(s) && w < |s.queues[q].workers| && s.queues[q].workers[w].Running?
    requires v < |RepoQueue(s, kind).workers| && (q != QName(false, kind) || v != w)
    ensures SameWorker(s, AfterRunner(s, q, w, r), kind, v)
  {
  }

  ghost predicate Works(env: Env, s: Sys, q: QName, w: nat, ra: RunAct) {
    && Shape(s) && w < |s.queues[q].workers| && s.queues[q].workers[w].Running?
    && RunEnabled(env, s.queues[q].workers[w].task, s.queues[q].workers[w].run, ra)
    && QueueOf(s.queues[q].workers[w].task) == q
  }

  ghost predicate WorksAt(env: Env, s: Sys, q: QName, w: nat, ra: RunAct, when: When) {
    Works(env, s, q, w, ra) && NotBefore(s, when)
  }

  /** A step of a runner that neither enqueues for `k` nor stores its record. */
  lemma WorkGoesOn(env: Env, s: Sys, q: QName, w: nat, ra: RunAct, k: string)
    requires Works(env, s, q, w, ra)
    requires ra.StoreRepo? ==> RepoString(s.queues[q].workers[w].task.repo) != k
    requires !q.version ==> !Enqueues(s, k, q.kind, w)
    ensures var r := RunStep(env, s.queues[q].workers[w].task, s.store, s.queues[q].workers[w].run, ra);
            GoesOn(s, AfterRunner(s, q, w, r), k)
  {
    var r := RunStep(env, s.queues[q].workers[w].task, s.store, s.queues[q].workers[w].run, ra);
    WorkKeeps(env, s, q, w, ra, k);
    forall kind, v: nat | Enqueues(s, k, kind, v) || Fails(s, k, kind, v)
      ensures SameWorker(s, AfterRunner(s, q, w, r), kind, v)
    {
      OtherWorkers(s, q, w, r, kind, v);
    }
  }

  /** Storing the record, or failing to: from now on this worker enqueues its versions. */
  lemma StoreConcluded(env: Env, s: Sys, kind: RepoType, w: nat, dbOk: bool, k: string)
    requires Works(env, s, QName(false, kind), w, StoreRepo(dbOk)) && RunsRepo(RepoQueue(s, kind), w, k)
    requires RunInv(env, RepoQueue(s, kind).workers[w].task, s.store, RepoQueue(s, kind).workers[w].run)
    ensures var worker := RepoQueue(s, kind).workers[w];
            var mid := AfterRunner(s, QName(false, kind), w,
                                   RunStep(env, worker.task, s.store, worker.run, StoreRepo(dbOk)));
            Shape(mid) && Concluded(mid, k)
  {
    var worker := RepoQueue(s, kind).workers[w];
    var mid := AfterRunner(s, QName(false, kind), w, RunStep(env, worker.task, s.store, worker.run, StoreRepo(dbOk)));
    if dbOk {
      assert Enqueues(mid, k, kind, w);
    } else {
      assert Fails(mid, k, kind, w);
    }
  }

  /** The worker that enqueues for `k` takes its next step, which may post a job. */
  lemma EnqueueConcluded(env: Env, s: Sys, kind: RepoType, w: nat, ok: bool, when: When, k: string)
    requires WorksAt(env, s, QName(false, kind), w, EnqueueNext(ok), when) && Enqueues(s, k, kind, w)
    ensures var s' := SysNext(env, s, SysAct.Work(QName(false, kind), w, EnqueueNext(ok), when));
            Shape(s') && Concluded(s', k)
  {
    var worker := RepoQueue(s, kind).workers[w];
    var s' := SysNext(env, s, SysAct.Work(QName(false, kind), w, EnqueueNext(ok), when));
    var info := s.store.repos[k];
    if worker.run.rest == [] {
      assert EachPosted(info, VersionLog(s', kind), []);
    } else if !ok {
      assert Fails(s', k, kind, w);
    } else {
      NextPosted(info, VersionLog(s, kind), VersionLog(s', kind), worker.run.rest);
      assert Enqueues(s', k, kind, w);
    }
  }

  lemma NextPosted(info: RepoInfo, log: seq<Event>, log': seq<Event>, rest: seq<Version>)
    requires EachPosted(info, log, rest) && rest != [] && log <= log' && PostedAt(log', |log|, rest[0])
    ensures EachPosted(info, log', rest[1..])
  {
    PostedStays(log, log', info, rest);
    forall v | v in info.versions
      ensures v in rest[1..] || VersionPosted(log', v)
    {
      if v in rest && v !in rest[1..] {
        assert v == rest[0];
      }
    }
  }

  /** Whatever a runner does next, what has been concluded stays so. */
  lemma WorkConcluded(env: Env, s: Sys, q: QName, w: nat, ra: RunAct, when: When, k: string)
    requires WorksAt(env, s, q, w, ra, when) && Concluded(s, k)
    requires RunInv(env, s.queues[q].workers[w].task, s.store, s.queues[q].workers[w].run)
    ensures var s' := SysNext(env, s, SysAct.Work(q, w, ra, when)); Shape(s') && Concluded(s', k)
  {
    var worker := s.queues[q].workers[w];
    var r := RunStep(env, worker.task, s.store, worker.run, ra);
    if !q.version && Enqueues(s, k, q.kind, w) {
      EnqueueConcluded(env, s, q.kind, w, ra.enqueueOk, when, k);
    } else {
      RunnerConcluded(env, s, q, w, ra, k);
      PostGoesOn(AfterRunner(s, q, w, r), r.post, when, k);
      ConcludedStays(AfterRunner(s, q, w, r), PostTo(AfterRunner(s, q, w, r), r.post, when), k);
    }
  }

  lemma RunnerConcluded(env: Env, s: Sys, q: QName, w: nat, ra: RunAct, k: string)
    requires Works(env, s, q, w, ra) && Concluded(s, k) && (!q.version ==> !Enqueues(s, k, q.kind, w))
    requires RunInv(env, s.queues[q].workers[w].task, s.store, s.queues[q].workers[w].run)
    ensures var r := RunStep(env, s.queues[q].workers[w].task, s.store, s.queues[q].workers[w].run, ra);
            Shape(AfterRunner(s, q, w, r)) && Concluded(AfterRunner(s, q, w, r), k)
  {
    var worker := s.queues[q].workers[w];
    if ra.StoreRepo? && RepoString(worker.task.repo) == k {
      StoreConcluded(env, s, q.kind, w, ra.dbOk, k);
    } else {
      WorkGoesOn(env, s, q, w, ra, k);
      ConcludedStays(s, AfterRunner(s, q, w, RunStep(env, worker.task, s.store, worker.run, ra)), k);
    }
  }

  /** A runner that has stored its record, or found nothing to store, has concluded. */
  lemma StoredConcluded(env: Env, s: Sys, kind: RepoType, w: nat, ra: RunAct, when: When, k: string)
    requires WorksAt(env, s, QName(false, kind), w, ra, when) && WorkersConclude(s)
    requires RunsRepo(RepoQueue(s, kind), w, k)
    requires var worker := RepoQueue(s, kind).workers[w];
             && RunInv(env, worker.task, s.store, worker.run)
             && Stored(RunStep(env, worker.task, s.store, worker.run, ra).run)
    ensures var s' := SysNext(env, s, SysAct.Work(QName(false, kind), w, ra, when)); Shape(s') && Concluded(s', k)
  {
    var q := QName(false, kind);
    var worker := s.queues[q].workers[w];
    if worker.run.REnqueue? {
      WorkConcluded(env, s, q, w, ra, when, k);
    } else {
      var r := RunStep(env, worker.task, s.store, worker.run, ra);
      if worker.run.RStore? {
        StoreConcluded(env, s, kind, w, ra.dbOk, k);
      }
      assert r.post == None;
    }
  }

  // ---------------------------------------------------------------- every run

  ghost predicate KeepsConcluded(s: Sys, s': Sys) {
    Shape(s) && Shape(s') && forall k :: Concluded(s, k) ==> Concluded(s', k)
  }

  lemma PostConcluded(s: Sys, post: Option<Task>, when: When)
    requires Shape(s)
    requires post.Some? ==> Enabled(s.queues[QueueOf(post.value)], Action.Post(post.value, when))
    ensures KeepsConcluded(s, PostTo(s, post, when))
  {
    forall k | Concluded(s, k)
      ensures Concluded(PostTo(s, post, when), k)
    {
      PostGoesOn(s, post, when, k);
      ConcludedStays(s, PostTo(s, post, when), k);
    }
  }

  lemma StepKeepsConcluded(env: Env, s: Sys, act: SysAct)
    requires SysInv(env, s) && SysEnabled(env, s, act) && !act.Crash?
    ensures KeepsConcluded(s, SysNext(env, s, act))
  {
    match act
    case Hook(repo, when) => PostConcluded(s, Some(FetchRepo(PackageRepo, repo)), when);
    case Ask(r, rt) => SameQueuesConcluded(s, s.requests + [Asked(r, rt)]);
    case Respond(i, f, when) =>
      var r := ReqStep(s.store, s.requests[i], f);
      SameQueuesConcluded(s, s.requests[i := r.req]);
      PostConcluded(s.(requests := s.requests[i := r.req]), r.post, when);
    case Consume(q, a) => ConsumeConcluded(env, s, q, a);
    case Work(q, w, ra, when) =>
      RunnerKnows(env, s, q, w);
      WorkKeepsConcluded(env, s, q, w, ra, when);
  }

  lemma ConsumeConcluded(env: Env, s: Sys, q: QName, a: Action<Run>)
    requires Shape(s) && ConsumeEnabled(s.queues[q], a)
    ensures KeepsConcluded(s, SysNext(env, s, Consume(q, a)))
  {
    forall k | Concluded(s, k)
      ensures Concluded(SysNext(env, s, Consume(q, a)), k)
    {
      ConsumeGoesOn(env, s, q, a, k);
      ConcludedStays(s, SysNext(env, s, Consume(q, a)), k);
    }
  }

  lemma WorkKeepsConcluded(env: Env, s: Sys, q: QName, w: nat, ra: RunAct, when: When)
    requires WorksAt(env, s, q, w, ra, when)
    requires RunInv(env, s.queues[q].workers[w].task, s.store, s.queues[q].workers[w].run)
    ensures KeepsConcluded(s, SysNext(env, s, SysAct.Work(q, w, ra, when)))
  {
    WorkShape(env, s, q, w, ra, when);
    forall k | Concluded(s, k)
      ensures Concluded(SysNext(env, s, SysAct.Work(q, w, ra, when)), k)
    {
      WorkConcluded(env, s, q, w, ra, when, k);
    }
  }

  lemma WorkShape(env: Env, s: Sys, q: QName, w: nat, ra: RunAct, when: When)
    requires WorksAt(env, s, q, w, ra, when)
    ensures SysEnabled(env, s, SysAct.Work(q, w, ra, when)) && Shape(SysNext(env, s, SysAct.Work(q, w, ra, when)))
  {
  }

  lemma SameQueuesConcluded(s: Sys, requests: seq<Req>)
    requires Shape(s)
    ensures KeepsConcluded(s, s.(requests := requests))
  {
    forall k | Concluded(s, k)
      ensures Concluded(s.(requests := requests), k)
    {
      ConcludedStays(s, s.(requests := requests), k);
    }
  }

  /** Who has stored a record after a queue's own step had before. */
  lemma StoredBefore(q: Queue<Run>, a: Action<Run>, w: nat, k: string)
    requires ConsumeEnabled(q, a) && RunsRepo(Next(q, a), w, k) && Stored(Next(q, a).workers[w].run)
    ensures RunsRepo(q, w, k) && Stored(q.workers[w].run)
  {
  }

  /** A new success comes from a worker that had stored its record or found nothing. */
  lemma SucceededBefore(q: Queue<Run>, a: Action<Run>, i: nat, k: string) returns (w: nat)
    requires ConsumeEnabled(q, a) && SuccessAt(Next(q, a).log, i, k)
    ensures SuccessAt(q.log, i, k) || (RunsRepo(q, w, k) && Stored(q.workers[w].run))
  {
    w := if a.Succeed? then a.w else 0;
  }

  lemma ConsumeRepoInv(env: Env, s: Sys, q: QName, a: Action<Run>)
    requires RepoInv(s) && ConsumeEnabled(s.queues[q], a) && KeepsConcluded(s, SysNext(env, s, Consume(q, a)))
    ensures RepoInv(SysNext(env, s, Consume(q, a)))
  {
    var s' := SysNext(env, s, Consume(q, a));
    forall kind, w: nat, k | RunsRepo(RepoQueue(s', kind), w, k) && Stored(RepoQueue(s', kind).workers[w].run)
      ensures Concluded(s', k)
    {
      if q == QName(false, kind) {
        StoredBefore(s.queues[q], a, w, k);
      }
      assert RunsRepo(RepoQueue(s, kind), w, k);
    }
    forall kind, i: nat, k | SuccessAt(RepoQueue(s', kind).log, i, k)
      ensures Concluded(s', k)
    {
      if q == QName(false, kind) {
        var w := SucceededBefore(s.queues[q], a, i, k);
        assert SuccessAt(RepoQueue(s, kind).log, i, k) || RunsRepo(RepoQueue(s, kind), w, k);
      } else {
        assert SuccessAt(RepoQueue(s, kind).log, i, k);
      }
    }
  }

  /** Enqueueing a job ends no run and stores no record. */
  lemma PostRepoInv(s: Sys, post: Option<Task>, when: When)
    requires RepoInv(s)
    requires post.Some? ==> Enabled(s.queues[QueueOf(post.value)], Action.Post(post.value, when))
    ensures RepoInv(PostTo(s, post, when))
  {
    var s' := PostTo(s, post, when);
    PostConcluded(s, post, when);
    forall kind, w: nat, k | RunsRepo(RepoQueue(s', kind), w, k) && Stored(RepoQueue(s', kind).workers[w].run)
      ensures Concluded(s', k)
    {
      assert RunsRepo(RepoQueue(s, kind), w, k);
    }
    forall kind, i: nat, k | SuccessAt(RepoQueue(s', kind).log, i, k)
      ensures Concluded(s', k)
    {
      assert SuccessAt(RepoQueue(s, kind).log, i, k);
    }
  }

  lemma RequestsRepoInv(s: Sys, requests: seq<Req>)
    requires RepoInv(s)
    ensures RepoInv(s.(requests := requests))
  {
    var s' := s.(requests := requests);
    SameQueuesConcluded(s, requests);
    forall kind, w: nat, k | RunsRepo(RepoQueue(s', kind), w, k) && Stored(RepoQueue(s', kind).workers[w].run)
      ensures Concluded(s', k)
    {
      assert RunsRepo(RepoQueue(s, kind), w, k);
    }
    forall kind, i: nat, k | SuccessAt(RepoQueue(s', kind).log, i, k)
      ensures Concluded(s', k)
    {
      assert SuccessAt(RepoQueue(s, kind).log, i, k);
    }
  }

  /** What a runner's step changes in a repository queue: its own worker. */
  lemma WorkChanges(env: Env, s: Sys, q: QName, w: nat, ra: RunAct, when: When, kind: RepoType, v: nat)
    requires WorksAt(env, s, q, w, ra, when)
    ensures var worker := s.queues[q].workers[w];
            var run := RunStep(env, worker.task, s.store, worker.run, ra).run;
            var s' := SysNext(env, s, SysAct.Work(q, w, ra, when));
            var (before, after) := (RepoQueue(s, kind), RepoQueue(s', kind));
            && |after.workers| == |before.workers|
            && (v < |before.workers| ==>
                  after.workers[v] == if q == QName(false, kind) && w == v then worker.(run := run)
                                      else before.workers[v])
  {
    var worker := s.queues[q].workers[w];
    var r := RunStep(env, worker.task, s.store, worker.run, ra);
    PostChanges(AfterRunner(s, q, w, r), r.post, when, kind);
  }

  /** Enqueueing changes no worker and adds no success. */
  lemma PostChanges(s: Sys, post: Option<Task>, when: When, kind: RepoType)
    requires Shape(s)
    requires post.Some? ==> Enabled(s.queues[QueueOf(post.value)], Action.Post(post.value, when))
    ensures RepoQueue(PostTo(s, post, when), kind).workers == RepoQueue(s, kind).workers
    ensures forall i: nat, k :: SuccessAt(RepoQueue(PostTo(s, post, when), kind).log, i, k) ==>
                           SuccessAt(RepoQueue(s, kind).log, i, k)
  {
  }

  /** It adds no success. */
  lemma WorkSuccesses(env: Env, s: Sys, q: QName, w: nat, ra: RunAct, when: When, kind: RepoType, i: nat, k: string)
    requires WorksAt(env, s, q, w, ra, when)
    ensures var s' := SysNext(env, s, SysAct.Work(q, w, ra, when));
            SuccessAt(RepoQueue(s', kind).log, i, k) ==> SuccessAt(RepoQueue(s, kind).log, i, k)
  {
    var worker := s.queues[q].workers[w];
    var r := RunStep(env, worker.task, s.store, worker.run, ra);
    PostChanges(AfterRunner(s, q, w, r), r.post, when, kind);
    assert RepoQueue(AfterRunner(s, q, w, r), kind).log == RepoQueue(s, kind).log;
  }

  lemma WorkRepoInv(env: Env, s: Sys, q: QName, w: nat, ra: RunAct, when: When)
    requires WorksAt(env, s, q, w, ra, when) && RepoInv(s)
    requires RunInv(env, s.queues[q].workers[w].task, s.store, s.queues[q].workers[w].run)
    requires KeepsConcluded(s, SysNext(env, s, SysAct.Work(q, w, ra, when)))
    ensures RepoInv(SysNext(env, s, SysAct.Work(q, w, ra, when)))
  {
    var s' := SysNext(env, s, SysAct.Work(q, w, ra, when));
    forall kind, v: nat, k | RunsRepo(RepoQueue(s', kind), v, k) && Stored(RepoQueue(s', kind).workers[v].run)
      ensures Concluded(s', k)
    {
      WorkChanges(env, s, q, w, ra, when, kind, v);
      assert RunsRepo(RepoQueue(s, kind), v, k);
      if q == QName(false, kind) && w == v {
        StoredConcluded(env, s, kind, w, ra, when, k);
      }
    }
    forall kind, i: nat, k | SuccessAt(RepoQueue(s', kind).log, i, k)
      ensures Concluded(s', k)
    {
      WorkSuccesses(env, s, q, w, ra, when, kind, i, k);
      assert SuccessAt(RepoQueue(s, kind).log, i, k);
    }
  }

  /** Every step of the server keeps: a repository of which a run has ended well or stored its record has all versions
      of its record enqueued, or somebody enqueues them, or its listing was empty, or a run of it failed. */
  lemma RepoInvStep(env: Env, s: Sys, act: SysAct)
    requires SysInv(env, s) && RepoInv(s) && SysEnabled(env, s, act)
    ensures RepoInv(SysNext(env, s, act))
  {
    match act
    case Hook(repo, when) => PostRepoInv(s, Some(FetchRepo(PackageRepo, repo)), when);
    case Ask(r, rt) => RequestsRepoInv(s, s.requests + [Asked(r, rt)]);
    case Respond(i, f, when) =>
      var r := ReqStep(s.store, s.requests[i], f);
      RequestsRepoInv(s, s.requests[i := r.req]);
      PostRepoInv(s.(requests := s.requests[i := r.req]), r.post, when);
    case Consume(q, a) =>
      StepKeepsConcluded(env, s, act);
      ConsumeRepoInv(env, s, q, a);
    case Work(q, w, ra, when) =>
      RunnerKnows(env, s, q, w);
      StepKeepsConcluded(env, s, act);
      WorkRepoInv(env, s, q, w, ra, when);
    case Crash(n, clock) => BootRepoInv(s.store, n, clock);
  }

  lemma BootRepoInv(store: Store, n: nat, clock: int)
    ensures RepoInv(Boot(store, n, clock))
  {
    forall q: QName
      ensures q in Boot(store, n, clock).queues
    {
      AllQueuesAreAll(q);
    }
  }

  lemma {:induction false} RepoInvRun(env: Env, s: Sys, acts: seq<SysAct>)
    requires ValidEnv(env) && SysInv(env, s) && RepoInv(s) && RunSys(env, s, acts).Some?
    ensures RepoInv(RunSys(env, s, acts).value)
    decreases acts
  {
    if acts != [] {
      SysStep(env, s, acts[0]);
      RepoInvStep(env, s, acts[0]);
      RepoInvRun(env, SysNext(env, s, acts[0]), acts[1..]);
    }
  }

  lemma ReachableRepoInv(env: Env, s: Sys)
    requires ValidEnv(env) && Reachable(env, s)
    ensures RepoInv(s)
  {
    var n: nat, clock: int, acts: seq<SysAct> :| RunSys(env, Boot(EMPTY_STORE, n, clock), acts) == Some(s);
    BootInv(env, EMPTY_STORE, n, clock);
    BootRepoInv(EMPTY_STORE, n, clock);
    RepoInvRun(env, Boot(EMPTY_STORE, n, clock), acts);
  }

  // ---------------------------------------------------------------- at rest

  ghost predicate RepoQueuesRest(s: Sys)
    requires Shape(s)
  {
    forall kind :: Quiescent(RepoQueue(s, kind))
  }

  predicate AskedAt(log: seq<Event>, i: nat, k: string) {
    i < |log| && log[i].Posted? && log[i].task.FetchRepo? && RepoString(log[i].task.repo) == k
  }

  /** The repository's listing was empty, or all versions of its record were enqueued, or a run of it failed. */
  ghost predicate RepoAccounted(s: Sys, k: string)
    requires Shape(s)
  {
    k in s.unlisted || Complete(s, k) || RepoFailed(s, k)
  }

  lemma RestingRepo(env: Env, s: Sys, kind: RepoType, i: nat, k: string)
    requires SysInv(env, s) && RepoInv(s) && AllTracked(s) && RepoQueuesRest(s)
    requires AskedAt(RepoQueue(s, kind).log, i, k)
    ensures RepoAccounted(s, k)
  {
    var q := RepoQueue(s, kind);
    assert QueueOk(env, s.store, q) && Tracked(q) && Quiescent(q);
    EndedAlike(q, i, k);
    if j: nat :| SuccessAt(q.log, j, k) {
      RestConcluded(s, k);
    } else {
      var j: nat :| FailureAt(q.log, j, k);
    }
  }

  /** A repository job given to a queue at rest has had a run of its key that ended. */
  lemma EndedAlike(q: Queue<Run>, i: nat, k: string)
    requires OwnTasks(q) && Tracked(q) && Quiescent(q) && AskedAt(q.log, i, k)
    ensures (exists j: nat :: SuccessAt(q.log, j, k)) || (exists j: nat :: FailureAt(q.log, j, k))
  {
    assert !InFlight(q, DedupingKey(q.log[i].task));
    var j: nat :| EndOf(q.log, j, DedupingKey(q.log[i].task));
    SameKey(q.log[i].task, q.log[j].task);
    assert SuccessAt(q.log, j, k) || FailureAt(q.log, j, k);
  }

  lemma RestConcluded(s: Sys, k: string)
    requires Shape(s) && RepoQueuesRest(s) && Concluded(s, k)
    ensures RepoAccounted(s, k)
  {
    forall kind, w: nat
      ensures !Enqueues(s, k, kind, w) && !Fails(s, k, kind, w)
    {
      assert Quiescent(RepoQueue(s, kind));
    }
  }

  /** No repository job is lost: in every reachable state in which the repository queues are at rest, every repository
      for which one of them has been given a job since the start has a record all of whose versions have been enqueued
      since, unless a run found its listing empty or a run of it failed. */
  lemma EnqueuedReposAreRecorded(env: Env, s: Sys, kind: RepoType, i: nat, k: string)
    requires ValidEnv(env) && Reachable(env, s) && Shape(s) && RepoQueuesRest(s)
    requires AskedAt(RepoQueue(s, kind).log, i, k)
    ensures RepoAccounted(s, k)
  {
    ReachableInv(env, s);
    ReachableTracked(env, s);
    ReachableRepoInv(env, s);
    RestingRepo(env, s, kind, i, k);
  }

  predicate VersionFailureAt(log: seq<Event>, i: nat, sha: string) {
    i < |log| && log[i].RunFailed? && log[i].task.FetchVersion? && log[i].task.version.sha == sha
  }

  /** A run of the version has failed since the start. */
  ghost predicate VersionFailed(s: Sys, sha: string)
    requires Shape(s)
  {
    exists kind, i: nat :: VersionFailureAt(VersionLog(s, kind), i, sha)
  }

  /** A request is answered like the archive of the version that it selects in the repository's record. */
  ghost predicate AnsweredFromArchive(env: Env, s: Sys, r: RepoFileAtVersion, rt: RepoType, v: Version) {
    var result := ReadPath.Respond(s.store, Asked(r, rt), NO_FAULTS);
    && result.post == None
    && (Agree(env.archives(v.sha)) ==>
          result.req.answer == FromServe(Serve(env.archives(v.sha), Normalise(r.file))))
  }

  /** What a request for a repository gets for which a job has been enqueued: unless something failed or there was
      nothing to list, the archive's answer. */
  ghost predicate RepeatAnswered(env: Env, s: Sys, r: RepoFileAtVersion, rt: RepoType)
    requires Shape(s)
  {
    var k := RepoString(r.repo);
    || k in s.unlisted || RepoFailed(s, k)
    || (Complete(s, k)
        && match SelectVersion(s.store.repos[k], r.version)
           case None => ReadPath.Respond(s.store, Asked(r, rt), NO_FAULTS).req.answer == VersionNotFound
           case Some(v) => VersionFailed(s, v.sha) || AnsweredFromArchive(env, s, r, rt, v))
  }

  /** So it is for every repository that has been asked for since the start. */
  ghost predicate RepeatsAnswered(env: Env, s: Sys)
    requires Shape(s)
  {
    forall kind, i: nat, r: RepoFileAtVersion, rt ::
      AskedAt(RepoQueue(s, kind).log, i, RepoString(r.repo)) ==> RepeatAnswered(env, s, r, rt)
  }

  lemma RestingRepeats(env: Env, s: Sys)
    requires ValidEnv(env) && SysInv(env, s) && RepoInv(s) && AllTracked(s) && Accounted(s) && RepoQueuesRest(s)
    ensures RepeatsAnswered(env, s)
  {
    forall kind, i: nat, r: RepoFileAtVersion, rt | AskedAt(RepoQueue(s, kind).log, i, RepoString(r.repo))
      ensures RepeatAnswered(env, s, r, rt)
    {
      RestingRepo(env, s, kind, i, RepoString(r.repo));
      RepeatedRequest(env, s, r, rt);
    }
  }

  lemma PostedPublished(env: Env, s: Sys, kind: RepoType, v: Version)
    requires SysInv(env, s) && Accounted(s) && VersionPosted(VersionLog(s, kind), v)
    ensures v.sha in s.store.meta || VersionFailed(s, v.sha)
  {
    var log := VersionLog(s, kind);
    var i: nat :| PostedAt(log, i, v);
    assert QueueOk(env, s.store, s.queues[QName(true, kind)]);
    assert PublishedOrFailed(s.store, log, i);
    if v.sha !in s.store.meta {
      var j: nat :| j < |log| && log[j].RunFailed? && DedupingKey(log[j].task) == DedupingKey(log[i].task);
      SameKey(log[i].task, log[j].task);
      assert VersionFailureAt(log, j, v.sha);
    }
  }

  /** A version that the request selects is one of the record's. */
  lemma SelectedIsListed(env: Env, s: Store, k: string, name: string)
    requires StoreInv(env, s) && k in s.repos
    ensures match SelectVersion(s.repos[k], name) case None => true case Some(v) => v in s.repos[k].versions
  {
    var listing :| Record(s.repos[k], listing) in s.records;
    assert StoredFrom(Record(s.repos[k], listing).info, listing);
    LatestIsNewest(s.repos[k]);
  }

  lemma PublishedResponds(env: Env, s: Sys, r: RepoFileAtVersion, rt: RepoType, v: Version)
    requires ValidEnv(env) && StoreInv(env, s.store) && RepoString(r.repo) in s.store.repos
    requires SelectVersion(s.store.repos[RepoString(r.repo)], r.version) == Some(v) && v.sha in s.store.meta
    ensures AnsweredFromArchive(env, s, r, rt, v)
  {
    var chosen := Chosen(r, rt, s.store.repos[RepoString(r.repo)], v);
    assert v.sha != "";
    assert ReqStep(s.store, Asked(r, rt), NO_FAULTS).req == chosen;
    assert ReadPath.Respond(s.store, Asked(r, rt), NO_FAULTS) == ReadPath.Respond(s.store, chosen, NO_FAULTS);
    LocatedPostsNothing(s.store, r, rt, s.store.repos[RepoString(r.repo)], v);
    if Agree(env.archives(v.sha)) {
      ChosenResponds(env, s.store, r, rt, s.store.repos[RepoString(r.repo)], v);
    }
  }

  lemma LocatedPostsNothing(s: Store, r: RepoFileAtVersion, rt: RepoType, info: RepoInfo, v: Version)
    requires v.sha in s.meta
    ensures ReadPath.Respond(s, Chosen(r, rt, info, v), NO_FAULTS).post == None
  {
    var next := ReqStep(s, Chosen(r, rt, info, v), NO_FAULTS).req;
    if next.Located? {
      assert ReadPath.Respond(s, next, NO_FAULTS) == ReqStep(s, next, NO_FAULTS);
    }
  }

  /** A repeated request is answered from the archive: when the server is at rest, whoever asks for a repository that
      has been asked for since the start gets the archive's answer, unless a run of the repository or of the selected
      version failed or there was nothing to list. */
  lemma RepeatedRequest(env: Env, s: Sys, r: RepoFileAtVersion, rt: RepoType)
    requires ValidEnv(env) && SysInv(env, s) && Accounted(s) && RepoAccounted(s, RepoString(r.repo))
    ensures RepeatAnswered(env, s, r, rt)
  {
    var k := RepoString(r.repo);
    if Complete(s, k) {
      var info := s.store.repos[k];
      SelectedIsListed(env, s.store, k, r.version);
      match SelectVersion(info, r.version)
      case None =>
      case Some(v) =>
        var kind :| EachPosted(info, VersionLog(s, kind), []);
        PostedPublished(env, s, kind, v);
        if v.sha in s.store.meta {
          PublishedResponds(env, s, r, rt, v);
        }
    }
  }
}
