/** With no new requests or hooks, every schedule of the server comes to rest with all queues empty. */
module Draining {
  import opened Types
  import opened Archives
  import opened Unzip
  import opened Listings
  import opened Tasks
  import opened ReadPath
  import opened Runners
  import opened DedupQueue
  import opened System
  import opened ReleaseJobs
  import opened Answered
  import opened RepoJobs

  /** Steps the server takes by itself. */
  predicate Internal(act: SysAct) {
    act.Respond? || act.Consume? || act.Work?
  }

  predicate Drained(s: Sys) {
    && (forall q :: q in s.queues ==> Quiescent(s.queues[q]))
    && forall i :: 0 <= i < |s.requests| ==> s.requests[i].Answered?
  }

  // ---------------------------------------------------------------- the measure

  function RequestWork(requests: seq<Req>): nat {
    if requests == [] then 0 else Ahead(requests[0]) + RequestWork(requests[1..])
  }

  /** Progress of a repository job until its list of version jobs is being enqueued. */
  function RepoWeight(w: Worker<Run>): nat {
    match w
    case Idle => 0
    case Taken(_, _, _) => 6
    case Cleared(_, _, _) => 5
    case Running(_, _, _, run) => match run case RList => 4 case RStore(_, _) => 3 case REnqueue(_) => 2 case _ => 1
  }

  /** Version jobs a repository job still has to enqueue. */
  function SpawnWeight(w: Worker<Run>): nat {
    if w.Running? && w.run.REnqueue? then |w.run.rest| else 0
  }

  /** Progress of a version job, except inside its unzip. */
  function VersionWeight(w: Worker<Run>): nat {
    match w
    case Idle => 0
    case Taken(_, _, _) => 7
    case Cleared(_, _, _) => 6
    case Running(_, _, _, run) =>
      match run case VCheck => 5 case VFetch => 4 case VUnzip(_, _) => 3 case VPublish(_) => 2 case _ => 1
  }

  function UnzipWeight(w: Worker<Run>): nat {
    if w.Running? && w.run.VUnzip? then UnzipWork(w.run.a, w.run.u) else 0
  }

  function Sum(ws: seq<Worker<Run>>, f: Worker<Run> -> nat): nat {
    if ws == [] then 0 else f(ws[0]) + Sum(ws[1..], f)
  }

  function RepoWork(q: Queue<Run>): nat {
    if q.name.version then 0 else 7 * |q.pending| + Sum(q.workers, RepoWeight)
  }

  function SpawnWork(q: Queue<Run>): nat {
    if q.name.version then 0 else Sum(q.workers, SpawnWeight)
  }

  function VersionWork(q: Queue<Run>): nat {
    if q.name.version then 8 * |q.pending| + Sum(q.workers, VersionWeight) else 0
  }

  function ArchiveWork(q: Queue<Run>): nat {
    if q.name.version then Sum(q.workers, UnzipWeight) else 0
  }

  function Total(queues: map<QName, Queue<Run>>, g: Queue<Run> -> nat): nat
    requires forall q: QName :: q in queues
  {
    g(queues[QName(false, BranchRepo)]) + g(queues[QName(false, PackageRepo)]) + g(queues[QName(false, ReleaseRepo)]) +
    g(queues[QName(true, BranchRepo)]) + g(queues[QName(true, PackageRepo)]) + g(queues[QName(true, ReleaseRepo)])
  }

  datatype Measure = Measure(requests: nat, repo: nat, spawn: nat, version: nat, archive: nat)

  ghost function Work(s: Sys): Measure
    requires Shape(s)
  {
    Measure(RequestWork(s.requests), Total(s.queues, RepoWork), Total(s.queues, SpawnWork),
            Total(s.queues, VersionWork),
            Total(s.queues, ArchiveWork))
  }

  /** Lexicographic order: a request outweighs any repository work, a repository job outweighs any number of version
      jobs it spawns, a version job outweighs any archive it unpacks. */
  predicate Less(m: Measure, n: Measure) {
    || m.requests < n.requests
    || (m.requests == n.requests && m.repo < n.repo)
    || (m.requests == n.requests && m.repo == n.repo && m.spawn < n.spawn)
    || (m.requests == n.requests && m.repo == n.repo && m.spawn == n.spawn && m.version < n.version)
    || (m.requests == n.requests && m.repo == n.repo && m.spawn == n.spawn && m.version == n.version
        && m.archive < n.archive)
  }

  lemma {:induction false} SumUpdate(ws: seq<Worker<Run>>, i: nat, w: Worker<Run>, f: Worker<Run> -> nat)
    requires i < |ws|
    ensures Sum(ws[i := w], f) + f(ws[i]) == Sum(ws, f) + f(w)
  {
    if i > 0 {
      assert ws[i := w][1..] == ws[1..][i - 1 := w];
      SumUpdate(ws[1..], i - 1, w, f);
    } else {
      assert ws[i := w][1..] == ws[1..];
    }
  }

  lemma {:induction false} RequestUpdate(requests: seq<Req>, i: nat, req: Req)
    requires i < |requests|
    ensures RequestWork(requests[i := req]) + Ahead(requests[i]) == RequestWork(requests) + Ahead(req)
  {
    if i > 0 {
      assert requests[i := req][1..] == requests[1..][i - 1 := req];
      RequestUpdate(requests[1..], i - 1, req);
    } else {
      assert requests[i := req][1..] == requests[1..];
    }
  }

  lemma TotalUpdate(queues: map<QName, Queue<Run>>, q: QName, x: Queue<Run>, g: Queue<Run> -> nat)
    requires forall p: QName :: p in queues
    ensures Total(queues[q := x], g) + g(queues[q]) == Total(queues, g) + g(x)
  {
    match q
    case QName(false, BranchRepo) =>
    case QName(false, PackageRepo) =>
    case QName(false, ReleaseRepo) =>
    case QName(true, BranchRepo) =>
    case QName(true, PackageRepo) =>
    case QName(true, ReleaseRepo) =>
  }

  /** The four queue totals after one queue is replaced. */
  lemma QueueUpdate(s: Sys, q: QName, x: Queue<Run>)
    requires Shape(s) && x.name == q
    ensures var s' := s.(queues := s.queues[q := x]);
            && Shape(s') && Work(s').requests == Work(s).requests
            && Work(s').repo + RepoWork(s.queues[q]) == Work(s).repo + RepoWork(x)
            && Work(s').spawn + SpawnWork(s.queues[q]) == Work(s).spawn + SpawnWork(x)
            && Work(s').version + VersionWork(s.queues[q]) == Work(s).version + VersionWork(x)
            && Work(s').archive + ArchiveWork(s.queues[q]) == Work(s).archive + ArchiveWork(x)
  {
    TotalUpdate(s.queues, q, x, RepoWork);
    TotalUpdate(s.queues, q, x, SpawnWork);
    TotalUpdate(s.queues, q, x, VersionWork);
    TotalUpdate(s.queues, q, x, ArchiveWork);
  }

  /** The weights of one queue after one worker is replaced and the pending jobs have changed. */
  lemma WorkerUpdate(q: Queue<Run>, w: nat, x: Worker<Run>, q': Queue<Run>)
    requires w < |q.workers| && q'.name == q.name && q'.workers == q.workers[w := x]
    ensures !q.name.version ==>
              RepoWork(q') - 7 * |q'.pending| + RepoWeight(q.workers[w]) ==
              RepoWork(q) - 7 * |q.pending| + RepoWeight(x)
    ensures !q.name.version ==> SpawnWork(q') + SpawnWeight(q.workers[w]) == SpawnWork(q) + SpawnWeight(x)
    ensures q.name.version ==>
              VersionWork(q') - 8 * |q'.pending| + VersionWeight(q.workers[w]) ==
              VersionWork(q) - 8 * |q.pending| + VersionWeight(x)
    ensures q.name.version ==> ArchiveWork(q') + UnzipWeight(q.workers[w]) == ArchiveWork(q) + UnzipWeight(x)
  {
    SumUpdate(q.workers, w, x, RepoWeight);
    SumUpdate(q.workers, w, x, SpawnWeight);
    SumUpdate(q.workers, w, x, VersionWeight);
    SumUpdate(q.workers, w, x, UnzipWeight);
  }

  // ---------------------------------------------------------------- every step lowers the measure

  /** Posting adds only to the work of the queue posted to. */
  lemma PostWork(s: Sys, post: Option<Task>, when: When)
    requires Shape(s) && (post.Some? ==> Enabled(s.queues[QueueOf(post.value)], Action.Post(post.value, when)))
    ensures Shape(PostTo(s, post, when))
    ensures Work(PostTo(s, post, when)).requests == Work(s).requests
            && Work(PostTo(s, post, when)).spawn == Work(s).spawn
    ensures (post.Some? ==> post.value.FetchVersion?) ==> Work(PostTo(s, post, when)).repo == Work(s).repo
    ensures post == None ==> PostTo(s, post, when) == s
  {
    if post.Some? {
      var q := QueueOf(post.value);
      QueueUpdate(s, q, Next(s.queues[q], Action.Post(post.value, when)));
    }
  }

  ghost predicate Lowers(env: Env, s: Sys, act: SysAct)
    requires Shape(s) && SysEnabled(env, s, act)
  {
    Shape(SysNext(env, s, act)) && Less(Work(SysNext(env, s, act)), Work(s))
  }

  lemma ReqStepLess(s: Store, req: Req, f: Faults)
    requires !req.Answered?
    ensures Ahead(ReqStep(s, req, f).req) < Ahead(req)
  {
  }

  lemma RespondWork(env: Env, s: Sys, i: nat, f: Faults, when: When)
    requires Shape(s) && SysEnabled(env, s, SysAct.Respond(i, f, when))
    ensures Lowers(env, s, SysAct.Respond(i, f, when))
  {
    var result := ReqStep(s.store, s.requests[i], f);
    ReqStepLess(s.store, s.requests[i], f);
    RequestUpdate(s.requests, i, result.req);
    var mid := s.(requests := s.requests[i := result.req]);
    PostWork(mid, result.post, when);
    assert Work(mid).requests < Work(s).requests;
  }

  /** The change of one worker's weight in a consumer step, counting the job it takes from the queue. */
  lemma ConsumeWeights(q: Queue<Run>, a: Action<Run>)
    requires ConsumeEnabled(q, a) && OwnTasks(q)
    ensures var q' := Next(q, a);
            && a.w < |q.workers| && q'.name == q.name && q'.workers == q.workers[a.w := q'.workers[a.w]]
            && (if q.name.version
                then 8 * |q'.pending| + VersionWeight(q'.workers[a.w]) < 8 * |q.pending| + VersionWeight(q.workers[a.w])
                else 7 * |q'.pending| + RepoWeight(q'.workers[a.w]) < 7 * |q.pending| + RepoWeight(q.workers[a.w]))
  {
    assert a.Take? ==> |Next(q, a).pending| == |q.pending| - 1;
    assert a.Claim? ==> QueueOf(q.workers[a.w].task) == q.name;
  }

  lemma ConsumeWork(env: Env, s: Sys, q: QName, a: Action<Run>)
    requires SysInv(env, s) && SysEnabled(env, s, Consume(q, a))
    ensures Lowers(env, s, Consume(q, a))
  {
    var before, after := s.queues[q], Next(s.queues[q], a);
    assert QueueOk(env, s.store, before);
    ConsumeWeights(before, a);
    WorkerUpdate(before, a.w, after.workers[a.w], after);
    QueueUpdate(s, q, after);
  }

  /** A runner step makes progress: in its weight or, within one, in the list it enqueues or the archive it unpacks. */
  ghost predicate Progresses(worker: Worker<Run>, x: Worker<Run>, post: Option<Task>)
    requires worker.Running?
  {
    if worker.task.FetchRepo? then
      && (post.Some? ==> post.value.FetchVersion?)
      && (|| RepoWeight(x) < RepoWeight(worker)
          || (RepoWeight(x) == RepoWeight(worker) && SpawnWeight(x) < SpawnWeight(worker)))
    else
      && post == None
      && (|| VersionWeight(x) < VersionWeight(worker)
          || (VersionWeight(x) == VersionWeight(worker) && UnzipWeight(x) < UnzipWeight(worker)))
  }

  lemma UnzipDoWork(env: Env, s: Store, worker: Worker<Run>, ua: UnzipAct)
    requires worker.Running? && RunInv(env, worker.task, s, worker.run)
             && RunEnabled(env, worker.task, worker.run, UnzipDo(ua))
    ensures var r := RunStep(env, worker.task, s, worker.run, UnzipDo(ua));
            Progresses(worker, worker.(run := r.run), r.post)
  {
    UnzipWorkDecreases(env, worker.run.a, worker.run.u, ua);
  }

  lemma VersionRunWork(env: Env, s: Store, worker: Worker<Run>, ra: RunAct)
    requires worker.Running? && RunEnabled(env, worker.task, worker.run, ra)
             && (ra.Check? || ra.Fetch? || ra.Wait? || ra.Publish?)
    ensures var r := RunStep(env, worker.task, s, worker.run, ra);
            Progresses(worker, worker.(run := r.run), r.post)
  {
  }

  lemma RunWork(env: Env, s: Store, worker: Worker<Run>, ra: RunAct)
    requires worker.Running? && RunInv(env, worker.task, s, worker.run) && RunEnabled(env, worker.task, worker.run, ra)
    ensures var r := RunStep(env, worker.task, s, worker.run, ra);
            Progresses(worker, worker.(run := r.run), r.post)
  {
    match ra
    case UnzipDo(ua) => UnzipDoWork(env, s, worker, ua);
    case List(_, _) =>
    case StoreRepo(_) =>
    case EnqueueNext(_) =>
    case _ => VersionRunWork(env, s, worker, ra);
  }

  /** Less in its first three components only, so whatever is posted to a version queue does not matter. */
  predicate LessBeforeVersions(m: Measure, n: Measure) {
    m.requests == n.requests && (m.repo < n.repo || (m.repo == n.repo && m.spawn < n.spawn))
  }

  /** The measure after a runner's own state has changed. */
  lemma RunnerWork(s: Sys, q: QName, w: nat, run: Run, post: Option<Task>)
    requires Shape(s) && w < |s.queues[q].workers| && s.queues[q].workers[w].Running?
    requires QueueOf(s.queues[q].workers[w].task) == q
    requires Progresses(s.queues[q].workers[w], s.queues[q].workers[w].(run := run), post)
    ensures var s' := s.(queues := s.queues[q := Next(s.queues[q], Action.Work(w, run))]);
            && Shape(s')
            && if q.version then post == None && Less(Work(s'), Work(s)) else LessBeforeVersions(Work(s'), Work(s))
  {
    var before, after := s.queues[q], Next(s.queues[q], Action.Work(w, run));
    WorkerUpdate(before, w, before.workers[w].(run := run), after);
    QueueUpdate(s, q, after);
  }

  lemma RunnerStepWork(env: Env, s: Sys, q: QName, w: nat, ra: RunAct, when: When)
    returns (mid: Sys, post: Option<Task>)
    requires Shape(s) && SysEnabled(env, s, SysAct.Work(q, w, ra, when))
    requires var worker := s.queues[q].workers[w];
             QueueOf(worker.task) == q && RunInv(env, worker.task, s.store, worker.run)
    ensures Shape(mid) && (post.Some? ==> Enabled(mid.queues[QueueOf(post.value)], Action.Post(post.value, when)))
    ensures SysNext(env, s, SysAct.Work(q, w, ra, when)) == PostTo(mid, post, when)
    ensures if q.version then post == None && Less(Work(mid), Work(s))
            else LessBeforeVersions(Work(mid), Work(s)) && (post.Some? ==> post.value.FetchVersion?)
  {
    var worker := s.queues[q].workers[w];
    RunWork(env, s.store, worker, ra);
    var r := RunStep(env, worker.task, s.store, worker.run, ra);
    RunnerWork(s, q, w, r.run, r.post);
    mid, post := AfterRunner(s, q, w, r), r.post;
  }

  /** Enqueueing a version job does not undo what a repository job has achieved. */
  lemma PostStaysLess(s: Sys, version: bool, mid: Sys, post: Option<Task>, when: When)
    requires Shape(s) && Shape(mid)
             && (post.Some? ==> Enabled(mid.queues[QueueOf(post.value)], Action.Post(post.value, when)))
    requires if version then post == None && Less(Work(mid), Work(s))
             else LessBeforeVersions(Work(mid), Work(s)) && (post.Some? ==> post.value.FetchVersion?)
    ensures Shape(PostTo(mid, post, when)) && Less(Work(PostTo(mid, post, when)), Work(s))
  {
    PostWork(mid, post, when);
  }

  lemma WorkStepWork(env: Env, s: Sys, q: QName, w: nat, ra: RunAct, when: When)
    requires SysInv(env, s) && SysEnabled(env, s, SysAct.Work(q, w, ra, when))
    ensures Lowers(env, s, SysAct.Work(q, w, ra, when))
  {
    RunnerKnows(env, s, q, w);
    var mid, post := RunnerStepWork(env, s, q, w, ra, when);
    PostStaysLess(s, q.version, mid, post, when);
  }

  /** Every step the server takes by itself lowers the measure. */
  lemma InternalStepLess(env: Env, s: Sys, act: SysAct)
    requires SysInv(env, s) && SysEnabled(env, s, act) && Internal(act)
    ensures Lowers(env, s, act)
  {
    match act
    case Respond(i, f, when) => RespondWork(env, s, i, f, when);
    case Consume(q, a) => ConsumeWork(env, s, q, a);
    case Work(q, w, ra, when) => WorkStepWork(env, s, q, w, ra, when);
  }

  // ---------------------------------------------------------------- every schedule comes to rest, drained

  ghost predicate InternalStep(env: Env, s: Sys, act: SysAct, s': Sys) {
    Shape(s) && Internal(act) && SysEnabled(env, s, act) && s' == SysNext(env, s, act)
  }

  /** No schedule goes on for ever without outside events. */
  lemma {:induction false} EveryScheduleStops(env: Env, run: nat -> Sys, acts: nat -> SysAct, k: nat)
    requires ValidEnv(env) && SysInv(env, run(k))
    ensures exists i: nat :: i >= k && !InternalStep(env, run(i), acts(i), run(i + 1))
    decreases Work(run(k)).requests, Work(run(k)).repo, Work(run(k)).spawn, Work(run(k)).version, Work(run(k)).archive
  {
    if InternalStep(env, run(k), acts(k), run(k + 1)) {
      SysStep(env, run(k), acts(k));
      InternalStepLess(env, run(k), acts(k));
      EveryScheduleStops(env, run, acts, k + 1);
    }
  }

  ghost predicate HasWorkers(s: Sys) {
    forall q :: q in s.queues ==> s.queues[q].workers != []
  }

  ghost predicate NoPanics(s: Sys) {
    forall q :: q in s.queues ==> NoPanic(s.queues[q])
  }

  function Now(s: Sys): int
    requires forall q: QName :: q in s.queues
  {
    Max(s.queues[QName(false, BranchRepo)].clock, Max(s.queues[QName(false, PackageRepo)].clock,
    Max(s.queues[QName(false, ReleaseRepo)].clock, Max(s.queues[QName(true, BranchRepo)].clock,
    Max(s.queues[QName(true, PackageRepo)].clock, s.queues[QName(true, ReleaseRepo)].clock)))))
  }

  function Max(a: int, b: int): int {
    if a < b then b else a
  }

  lemma NowIsLatest(s: Sys)
    requires Shape(s)
    ensures NotBefore(s, When(Now(s), Now(s)))
  {
    forall q: QName
      ensures Now(s) >= s.queues[q].clock
    {
      match q
      case QName(false, BranchRepo) =>
      case QName(false, PackageRepo) =>
      case QName(false, ReleaseRepo) =>
      case QName(true, BranchRepo) =>
      case QName(true, PackageRepo) =>
      case QName(true, ReleaseRepo) =>
    }
  }

  /** A runner that has not returned can take a step. */
  lemma RunnerCanStep(env: Env, t: Task, s: Store, run: Run) returns (ra: RunAct)
    requires RunInv(env, t, s, run) && !run.Done? && !run.VPanicked?
    ensures RunEnabled(env, t, run, ra)
  {
    match run
    case VCheck => ra := Check(true);
    case VFetch => ra := Fetch(None);
    case VUnzip(a, u) =>
      if UnzipFinished(a, u) {
        ra := Wait;
      } else {
        var act := UnzipCanStep(a, u);
        ra := UnzipDo(act);
      }
    case VPublish(_) => ra := Publish(true);
    case RList => ra := List(None, []);
    case RStore(_, _) => ra := StoreRepo(true);
    case REnqueue(_) => ra := EnqueueNext(true);
  }

  /** A queue with work left can take a step. */
  lemma QueueCanStep(env: Env, s: Sys, q: QName) returns (act: SysAct)
    requires SysInv(env, s) && HasWorkers(s) && NoPanics(s) && !Quiescent(s.queues[q])
    ensures Internal(act) && SysEnabled(env, s, act)
  {
    var queue := s.queues[q];
    assert QueueOk(env, s.store, queue);
    if w :| 0 <= w < |queue.workers| && !queue.workers[w].Idle? {
      var worker := queue.workers[w];
      match worker
      case Taken(_, _, _) => act := Consume(q, Action.Read(w, queue.clock));
      case Cleared(_, t, since) => act := Consume(q, Action.Claim(w, since, queue.clock, StartOf(t)));
      case Running(_, t, since, run) =>
        if run == Done(true) {
          act := Consume(q, Action.Succeed(w, since, queue.clock));
        } else if run == Done(false) {
          act := Consume(q, Action.Fail(w, queue.clock));
        } else {
          var ra := RunnerCanStep(env, t, s.store, run);
          NowIsLatest(s);
          act := SysAct.Work(q, w, ra, When(Now(s), Now(s)));
        }
    } else {
      assert queue.workers[0].Idle?;
      act := Consume(q, Action.Take(0, 0, queue.clock));
    }
  }

  /** Where no internal step is possible there is nothing left to do. */
  lemma StuckIsDrained(env: Env, s: Sys)
    requires SysInv(env, s) && HasWorkers(s) && NoPanics(s)
    requires forall act :: Internal(act) ==> !SysEnabled(env, s, act)
    ensures Drained(s)
  {
    forall i | 0 <= i < |s.requests|
      ensures s.requests[i].Answered?
    {
      NowIsLatest(s);
      assert Internal(SysAct.Respond(i, NO_FAULTS, When(Now(s), Now(s))));
    }
    if q :| q in s.queues && !Quiescent(s.queues[q]) {
      var act := QueueCanStep(env, s, q);
      assert false;
    }
  }

  ghost predicate CanMove(env: Env, s: Sys) {
    Shape(s) && exists act :: Internal(act) && SysEnabled(env, s, act)
  }

  /** The server is left to itself: it moves on whenever it can, and listings carry the ids of their releases. */
  ghost predicate LeftAlone(env: Env, types: RepoTypes, run: nat -> Sys, acts: nat -> SysAct) {
    forall i: nat {:trigger acts(i)} ::
      && (InternalStep(env, run(i), acts(i), run(i + 1)) ==> TypedAct(types, acts(i)))
      && (CanMove(env, run(i)) ==> InternalStep(env, run(i), acts(i), run(i + 1)))
  }

  /** Nothing is left to do, every version that was enqueued is accounted for, and so is every repeated request. */
  ghost predicate AtRest(env: Env, s: Sys) {
    Shape(s) && Drained(s) && Accounted(s) && RepeatsAnswered(env, s)
  }

  /** What a state offers that was reached with releases apart. */
  ghost predicate Healthy(env: Env, types: RepoTypes, s: Sys) {
    && SysInv(env, s) && TypedSys(types, s) && ReleasesApart(types) && HasWorkers(s) && AllTracked(s) && RepoInv(s)
  }

  lemma HealthyStep(env: Env, types: RepoTypes, s: Sys, act: SysAct, s': Sys)
    requires ValidEnv(env) && Healthy(env, types, s) && InternalStep(env, s, act, s') && TypedAct(types, act)
    ensures Healthy(env, types, s') && Less(Work(s'), Work(s))
  {
    SysStep(env, s, act);
    TypedStep(env, types, s, act);
    SysQueuesInv(env, s);
    StepTracked(env, s, act);
    RepoInvStep(env, s, act);
    InternalStepLess(env, s, act);
    WorkersStay(env, s, act);
  }

  lemma HealthyStop(env: Env, types: RepoTypes, s: Sys)
    requires ValidEnv(env) && Healthy(env, types, s) && !CanMove(env, s)
    ensures AtRest(env, s)
  {
    forall q: QName
      ensures NoPanic(s.queues[q])
    {
      TypedQueueWellFormed(types, s.queues[q]);
    }
    StuckIsDrained(env, s);
    RestingServer(env, s);
    RestingRepeats(env, s);
  }

  lemma HealthyMove(env: Env, types: RepoTypes, run: nat -> Sys, acts: nat -> SysAct, k: nat)
    requires ValidEnv(env) && Healthy(env, types, run(k)) && LeftAlone(env, types, run, acts)
    ensures || AtRest(env, run(k))
            || (Healthy(env, types, run(k + 1)) && Less(Work(run(k + 1)), Work(run(k))))
  {
    var act := acts(k);
    if CanMove(env, run(k)) {
      HealthyStep(env, types, run(k), act, run(k + 1));
    } else {
      HealthyStop(env, types, run(k));
    }
  }

  lemma {:induction false} DrainsFrom(env: Env, types: RepoTypes, run: nat -> Sys, acts: nat -> SysAct, k: nat)
    requires ValidEnv(env) && Healthy(env, types, run(k)) && LeftAlone(env, types, run, acts)
    ensures exists i: nat :: i >= k && AtRest(env, run(i))
    decreases Work(run(k)).requests, Work(run(k)).repo, Work(run(k)).spawn, Work(run(k)).version, Work(run(k)).archive
  {
    HealthyMove(env, types, run, acts, k);
    if !AtRest(env, run(k)) {
      DrainsFrom(env, types, run, acts, k + 1);
    }
  }

  lemma WorkersStay(env: Env, s: Sys, act: SysAct)
    requires Shape(s) && HasWorkers(s) && Internal(act) && SysEnabled(env, s, act)
    ensures HasWorkers(SysNext(env, s, act))
  {
  }

  /** Draining: after any run in which a repository used for releases is used for nothing else, with at least one
      worker per queue, once requests and hooks stop and the server keeps moving as long as it can, every schedule comes
      to a state where all queues are empty, all workers idle and all requests answered. There every version job
      enqueued since the start has its version published unless a run of its key failed, and a request for a repository
      that was asked for since the start gets the archive's answer, unless there was nothing to list or a run of the
      repository or of the version failed. */
  lemma EveryScheduleDrains(env: Env, types: RepoTypes, n: nat, clock: int, past: seq<SysAct>, run: nat -> Sys,
          acts: nat -> SysAct)
    requires ValidEnv(env) && RunSys(env, Boot(EMPTY_STORE, n, clock), past) == Some(run(0)) && HasWorkers(run(0))
    requires ReleasesApart(types) && TypedActs(types, past)
    requires LeftAlone(env, types, run, acts)
    ensures exists i: nat :: AtRest(env, run(i))
  {
    TypedReach(env, types, n, clock, past, run(0));
    ReachableTracked(env, run(0));
    ReachableRepoInv(env, run(0));
    DrainsFrom(env, types, run, acts, 0);
  }
}
