/** Runs that reach what cannot be ruled out: a published answer that changes, a runner that panics. All steps of these
    runs happen at time 0. */
module Scenarios {
  import opened Types
  import opened Archives
  import opened Unzipping = Unzip
  import opened UnzipSchedules
  import Paging
  import opened Listings
  import opened ReleaseIds
  import opened Tasks
  import opened ReadPath
  import opened Runners
  import opened RunnerRuns
  import opened DedupQueue
  import opened System
  import opened ReleaseJobs

  const NOW: When := When(0, 0)
  const START_UP: Sys := Boot(EMPTY_STORE, 2, 0)

  function AnyFile(repo: Repo): RepoFileAtVersion {
    RepoFileAtVersion(repo, "", "")
  }

  /** Some schedule that uses repositories with their types leads from `s` to `s'`. */
  ghost predicate Leads(env: Env, types: RepoTypes, s: Sys, s': Sys) {
    exists acts: seq<SysAct> :: RunSys(env, s, acts) == Some(s') && TypedActs(types, acts)
  }

  lemma LeadsOn(env: Env, types: RepoTypes, s: Sys, mid: Sys, s': Sys)
    requires Leads(env, types, s, mid) && Leads(env, types, mid, s')
    ensures Leads(env, types, s, s')
  {
    var acts: seq<SysAct> :| RunSys(env, s, acts) == Some(mid) && TypedActs(types, acts);
    var more: seq<SysAct> :| RunSys(env, mid, more) == Some(s') && TypedActs(types, more);
    RunSysConcat(env, s, acts, more);
    assert RunSys(env, s, acts + more) == Some(s') && TypedActs(types, acts + more);
  }

  lemma StepLeads(env: Env, types: RepoTypes, s: Sys, act: SysAct)
    requires Shape(s) && SysEnabled(env, s, act) && TypedAct(types, act)
    ensures Leads(env, types, s, SysNext(env, s, act))
  {
    assert [act][1..] == [];
    assert RunSys(env, s, [act]) == Some(SysNext(env, s, act)) && TypedActs(types, [act]);
  }

  ghost predicate AtZero(s: Sys) {
    Shape(s) && forall q: QName :: q in s.queues ==> s.queues[q].clock == 0
  }

  function With(s: Sys, qn: QName, q: Queue<Run>): Sys {
    s.(queues := s.queues[qn := q])
  }

  /** Nothing outside the queue has changed. */
  ghost predicate OnlyQueue(s: Sys, s': Sys, qn: QName) {
    && AtZero(s) && AtZero(s') && s'.store == s.store && s'.requests == s.requests
    && forall p: QName :: p != qn ==> s'.queues[p] == s.queues[p]
  }

  // ---------------------------------------------------------------- steps of one queue

  lemma ConsumeLeads(env: Env, types: RepoTypes, s: Sys, qn: QName, a: Action<Run>)
    requires AtZero(s) && ConsumeEnabled(s.queues[qn], a) && Next(s.queues[qn], a).clock == 0
    ensures var s' := With(s, qn, Next(s.queues[qn], a)); Leads(env, types, s, s') && OnlyQueue(s, s', qn)
  {
    StepLeads(env, types, s, Consume(qn, a));
  }

  /** Only the worker, the jobs waiting and the table have changed. */
  ghost predicate Became(q: Queue<Run>, q': Queue<Run>, pending: seq<Msg>, dedup: map<string, DedupValue>, w: nat,
                         worker: Worker<Run>)
    requires w < |q.workers|
  {
    && q'.name == q.name && q'.pending == pending && q'.dedup == dedup && q'.clock == 0
    && q'.workers == q.workers[w := worker]
  }

  /** An idle worker takes the first job. */
  lemma TakeLeads(env: Env, types: RepoTypes, s: Sys, qn: QName, w: nat, t: Task) returns (s': Sys)
    requires AtZero(s) && w < |s.queues[qn].workers| && s.queues[qn].workers[w].Idle?
    requires s.queues[qn].pending != [] && s.queues[qn].pending[0] == Msg(0, Job(t)) && ParseJob(qn, Job(t)) == Some(t)
    ensures Leads(env, types, s, s') && OnlyQueue(s, s', qn)
    ensures Became(s.queues[qn], s'.queues[qn], s.queues[qn].pending[1..], s.queues[qn].dedup, w, Taken(0, t, 0))
  {
    var q := s.queues[qn];
    ConsumeLeads(env, types, s, qn, Action.Take(w, 0, 0));
    s' := With(s, qn, Next(q, Action.Take(w, 0, 0)));
    assert q.pending[..0] + q.pending[1..] == q.pending[1..];
  }

  /** It finds nothing about its key in the table. */
  lemma ReadLeads(env: Env, types: RepoTypes, s: Sys, qn: QName, w: nat, t: Task) returns (s': Sys)
    requires AtZero(s) && w < |s.queues[qn].workers| && s.queues[qn].workers[w] == Taken(0, t, 0)
    requires DedupingKey(t) !in s.queues[qn].dedup
    ensures Leads(env, types, s, s') && OnlyQueue(s, s', qn)
    ensures Became(s.queues[qn], s'.queues[qn], s.queues[qn].pending, s.queues[qn].dedup, w, Cleared(0, t, 0))
  {
    ConsumeLeads(env, types, s, qn, Action.Read(w, 0));
    s' := With(s, qn, Next(s.queues[qn], Action.Read(w, 0)));
  }

  /** It claims the key and starts its runner. */
  lemma ClaimLeads(env: Env, types: RepoTypes, s: Sys, qn: QName, w: nat, t: Task) returns (s': Sys)
    requires AtZero(s) && w < |s.queues[qn].workers| && s.queues[qn].workers[w] == Cleared(0, t, 0)
    ensures Leads(env, types, s, s') && OnlyQueue(s, s', qn)
    ensures Became(s.queues[qn], s'.queues[qn], s.queues[qn].pending,
                   s.queues[qn].dedup[DedupingKey(t) := DedupValue(true, 0)], w, Running(0, t, 0, StartOf(t)))
  {
    ConsumeLeads(env, types, s, qn, Action.Claim(w, 0, 0, StartOf(t)));
    s' := With(s, qn, Next(s.queues[qn], Action.Claim(w, 0, 0, StartOf(t))));
  }

  /** All three for the only job of a queue. */
  lemma StartLeads(env: Env, types: RepoTypes, s: Sys, qn: QName, w: nat, t: Task) returns (s': Sys)
    requires AtZero(s) && w < |s.queues[qn].workers| && s.queues[qn].workers[w].Idle?
    requires s.queues[qn].pending == [Msg(0, Job(t))] && s.queues[qn].dedup == map[] && ParseJob(qn, Job(t)) == Some(t)
    ensures Leads(env, types, s, s') && OnlyQueue(s, s', qn)
    ensures s'.queues[qn].pending == []
            && s'.queues[qn].workers == s.queues[qn].workers[w := Running(0, t, 0, StartOf(t))]
  {
    var s1 := TakeLeads(env, types, s, qn, w, t);
    var s2 := ReadLeads(env, types, s1, qn, w, t);
    s' := ClaimLeads(env, types, s2, qn, w, t);
    LeadsOn(env, types, s1, s2, s');
    LeadsOn(env, types, s, s1, s');
  }

  // ---------------------------------------------------------------- steps of one runner

  function SetRun(q: Queue<Run>, w: nat, run: Run): Queue<Run>
    requires w < |q.workers| && q.workers[w].Running?
  {
    q.(workers := q.workers[w := q.workers[w].(run := run)])
  }

  lemma RunStepLeads(env: Env, types: RepoTypes, s: Sys, qn: QName, w: nat, ra: RunAct)
    requires AtZero(s) && w < |s.queues[qn].workers| && s.queues[qn].workers[w].Running?
    requires var worker := s.queues[qn].workers[w]; RealIds(ra) && RunEnabled(env, worker.task, worker.run, ra)
    requires var worker := s.queues[qn].workers[w];
             var r := RunStep(env, worker.task, s.store, worker.run, ra);
             r.post == None && FoundUnlisted(worker, r.run) == {}
    ensures var worker := s.queues[qn].workers[w];
            var r := RunStep(env, worker.task, s.store, worker.run, ra);
            var s' := With(s.(store := r.store), qn, SetRun(s.queues[qn], w, r.run));
            Leads(env, types, s, s') && AtZero(s')
  {
    StepLeads(env, types, s, SysAct.Work(qn, w, ra, NOW));
    assert s.unlisted + {} == s.unlisted;
  }

  lemma RunSetTwice(s: Sys, qn: QName, w: nat, mid: Store, run: Run, store: Store, run': Run)
    requires AtZero(s) && w < |s.queues[qn].workers| && s.queues[qn].workers[w].Running?
    ensures var s1 := With(s.(store := mid), qn, SetRun(s.queues[qn], w, run));
            With(s1.(store := store), qn, SetRun(s1.queues[qn], w, run')) ==
            With(s.(store := store), qn, SetRun(s.queues[qn], w, run'))
  {
    var q := SetRun(s.queues[qn], w, run);
    assert SetRun(q, w, run') == SetRun(s.queues[qn], w, run');
    assert s.queues[qn := q][qn := SetRun(q, w, run')] == s.queues[qn := SetRun(q, w, run')];
  }

  ghost predicate AllRealIds(acts: seq<RunAct>) {
    forall k :: 0 <= k < |acts| ==> RealIds(acts[k])
  }

  /** A trace of a runner that enqueues nothing is a schedule of the server. */
  lemma {:induction false} TraceLeads(env: Env, types: RepoTypes, s: Sys, qn: QName, w: nat, acts: seq<RunAct>,
                                      last: Trace)
    requires AtZero(s) && w < |s.queues[qn].workers| && s.queues[qn].workers[w].Running?
    requires var worker := s.queues[qn].workers[w]; RunAll(env, worker.task, s.store, worker.run, acts) == Some(last)
    requires last.posts == []
    requires s.queues[qn].workers[w].task.FetchRepo? ==> AllRealIds(acts) && last.run != Done(true)
    ensures var s' := With(s.(store := last.store), qn, SetRun(s.queues[qn], w, last.run));
            Leads(env, types, s, s') && AtZero(s')
    decreases acts
  {
    var worker := s.queues[qn].workers[w];
    if acts == [] {
      assert SetRun(s.queues[qn], w, last.run) == s.queues[qn];
      assert With(s.(store := last.store), qn, s.queues[qn]) == s;
      assert RunSys(env, s, []) == Some(s) && TypedActs(types, []);
    } else {
      var r := RunStep(env, worker.task, s.store, worker.run, acts[0]);
      RunStepLeads(env, types, s, qn, w, acts[0]);
      var s1 := With(s.(store := r.store), qn, SetRun(s.queues[qn], w, r.run));
      TraceLeads(env, types, s1, qn, w, acts[1..], last);
      RunSetTwice(s, qn, w, r.store, r.run, last.store, last.run);
      LeadsOn(env, types, s, s1, With(s.(store := last.store), qn, SetRun(s.queues[qn], w, last.run)));
    }
  }

  // ---------------------------------------------------------------- requests

  function Given(q: Queue<Run>, t: Task): Queue<Run>
    requires Enabled(q, Action.Post(t, NOW))
  {
    Next(q, Action.Post(t, NOW))
  }

  /** A request at the end of the list takes one step. */
  lemma RespondLeads(env: Env, types: RepoTypes, s: Sys, i: nat, post: Option<Task>)
    requires AtZero(s) && i < |s.requests| && !s.requests[i].Answered?
    requires ReqStep(s.store, s.requests[i], NO_FAULTS).post == post
    ensures var s1 := s.(requests := s.requests[i := ReqStep(s.store, s.requests[i], NO_FAULTS).req]);
            var s' := match post case None => s1 case Some(t) => With(s1, QueueOf(t), Given(s.queues[QueueOf(t)], t));
            Leads(env, types, s, s') && AtZero(s')
  {
    StepLeads(env, types, s, SysAct.Respond(i, NO_FAULTS, NOW));
  }

  /** A request for a repository without a record ends with a job for it. */
  lemma AskForRepo(env: Env, types: RepoTypes, repo: Repo, s: Sys, rt: RepoType) returns (s': Sys)
    requires AtZero(s) && RepoString(repo) !in s.store.repos && rt in types(RepoString(repo))
    ensures Leads(env, types, s, s') && AtZero(s') && s'.store == s.store
    ensures var qn := QName(false, rt);
            s'.queues == s.queues[qn := Given(s.queues[qn], FetchRepo(rt, repo))]
  {
    var i := |s.requests|;
    StepLeads(env, types, s, Ask(AnyFile(repo), rt));
    var s1 := s.(requests := s.requests + [Asked(AnyFile(repo), rt)]);
    RespondLeads(env, types, s1, i, None);
    var s2 := s1.(requests := s1.requests[i := Missed(AnyFile(repo), rt, None)]);
    RespondLeads(env, types, s2, i, Some(FetchRepo(rt, repo)));
    var s3 := s2.(requests := s2.requests[i := ReqStep(s2.store, s2.requests[i], NO_FAULTS).req]);
    s' := With(s3, QName(false, rt), Given(s.queues[QName(false, rt)], FetchRepo(rt, repo)));
    LeadsOn(env, types, s1, s2, s');
    LeadsOn(env, types, s, s1, s');
  }

  /** A request for a version without metadata ends with a job for it. */
  lemma AskForVersion(env: Env, types: RepoTypes, repo: Repo, s: Sys, rt: RepoType, v: Version) returns (s': Sys)
    requires AtZero(s) && RepoString(repo) in s.store.repos && s.store.repos[RepoString(repo)].latest == v
    requires v.sha != "" && v.sha !in s.store.meta && rt in types(RepoString(repo))
    ensures Leads(env, types, s, s') && AtZero(s') && s'.store == s.store
    ensures var qn := QName(true, rt);
            s'.queues == s.queues[qn := Given(s.queues[qn], FetchVersion(rt, repo, v))]
  {
    var i := |s.requests|;
    var info := s.store.repos[RepoString(repo)];
    StepLeads(env, types, s, Ask(AnyFile(repo), rt));
    var s1 := s.(requests := s.requests + [Asked(AnyFile(repo), rt)]);
    RespondLeads(env, types, s1, i, None);
    var s2 := s1.(requests := s1.requests[i := Chosen(AnyFile(repo), rt, info, v)]);
    RespondLeads(env, types, s2, i, None);
    var s3 := s2.(requests := s2.requests[i := Missed(AnyFile(repo), rt, Some(v))]);
    RespondLeads(env, types, s3, i, Some(FetchVersion(rt, repo, v)));
    var s4 := s3.(requests := s3.requests[i := ReqStep(s3.store, s3.requests[i], NO_FAULTS).req]);
    s' := With(s4, QName(true, rt), Given(s.queues[QName(true, rt)], FetchVersion(rt, repo, v)));
    LeadsOn(env, types, s2, s3, s');
    LeadsOn(env, types, s1, s2, s');
    LeadsOn(env, types, s, s1, s');
  }

  // ---------------------------------------------------------------- a recorded repository

  /** A server that has a record with one version and nothing else, and whose version queues are untouched. */
  ghost predicate Recorded(repo: Repo, s: Sys, v: Version) {
    && AtZero(s) && s.store.meta == map[] && s.store.data == map[]
    && RepoString(repo) in s.store.repos && s.store.repos[RepoString(repo)] == RepoInfo(repo, v, [v])
    && forall kind :: s.queues[QName(true, kind)] == InitialQueue(QName(true, kind), 2, 0)
  }

  /** A new server with nothing but a running fetch of the repository. */
  ghost predicate Fetching(repo: Repo, s: Sys, kind: RepoType) {
    && AtZero(s) && s.store == EMPTY_STORE
    && (forall k :: s.queues[QName(true, k)] == InitialQueue(QName(true, k), 2, 0))
    && var q := s.queues[QName(false, kind)];
       |q.workers| == 2 && q.workers[0] == Running(0, FetchRepo(kind, repo), 0, RList)
  }

  lemma BootAtZero()
    ensures AtZero(START_UP)
    ensures forall q: QName :: START_UP.queues[q] == InitialQueue(q, 2, 0)
  {
    forall q: QName
      ensures q in START_UP.queues
    {
      AllQueuesAreAll(q);
    }
  }

  lemma BootAsked(env: Env, types: RepoTypes, repo: Repo, kind: RepoType) returns (s: Sys)
    requires kind in types(RepoString(repo))
    ensures Leads(env, types, START_UP, s) && AtZero(s) && s.store == EMPTY_STORE
    ensures forall k :: s.queues[QName(true, k)] == InitialQueue(QName(true, k), 2, 0)
    ensures var q := s.queues[QName(false, kind)];
            q.pending == [Msg(0, Job(FetchRepo(kind, repo)))] && q.dedup == map[] && q.workers == [Idle, Idle]
  {
    BootAtZero();
    s := AskForRepo(env, types, repo, START_UP, kind);
  }

  lemma LeadsToFetching(env: Env, types: RepoTypes, repo: Repo, kind: RepoType) returns (s: Sys)
    requires kind in types(RepoString(repo)) && '/' !in repo.owner
    ensures Leads(env, types, START_UP, s) && Fetching(repo, s, kind)
  {
    var s1 := BootAsked(env, types, repo, kind);
    JobRoundTrip(FetchRepo(kind, repo));
    s := StartLeads(env, types, s1, QName(false, kind), 0, FetchRepo(kind, repo));
    LeadsOn(env, types, START_UP, s1, s);
  }

  /** A listing with one version, whose ids, if it has any, are 64-bit integers. */
  ghost predicate Lists(listing: Listing, kind: RepoType, repo: Repo, v: Version) {
    && ListingKind(listing) == kind && VersionsOf(listing, repo.repo) == Some([v])
    && (listing.Releases? ==> Int64Ids(listing.releases))
  }

  lemma LeadsToRecorded(env: Env, types: RepoTypes, repo: Repo, kind: RepoType, listing: Listing, v: Version)
    returns (s: Sys)
    requires kind in types(RepoString(repo)) && '/' !in repo.owner && Lists(listing, kind, repo, v)
    ensures Leads(env, types, START_UP, s) && Recorded(repo, s, v)
  {
    var qn := QName(false, kind);
    var s1 := LeadsToFetching(env, types, repo, kind);
    var acts := ListsAndStores(env, FetchRepo(kind, repo), s1.store, listing, v);
    var last := RunAll(env, FetchRepo(kind, repo), s1.store, RList, acts).value;
    TraceLeads(env, types, s1, qn, 0, acts, last);
    s := With(s1.(store := last.store), qn, SetRun(s1.queues[qn], 0, last.run));
    LeadsOn(env, types, START_UP, s1, s);
  }

  /** List and store, without enqueueing yet. */
  lemma ListsAndStores(env: Env, t: Task, s: Store, listing: Listing, v: Version) returns (acts: seq<RunAct>)
    requires t.FetchRepo? && Lists(listing, t.kind, t.repo, v)
    ensures var r := RunAll(env, t, s, RList, acts);
            && r.Some? && r.value.posts == [] && r.value.run == REnqueue([v])
            && r.value.store.meta == s.meta && r.value.store.data == s.data
            && r.value.store.repos == s.repos[RepoString(t.repo) := RepoInfo(t.repo, v, [v])]
    ensures AllRealIds(acts)
  {
    var info := RepoInfo(t.repo, v, [v]);
    var s' := s.(repos := s.repos[RepoString(t.repo) := info], records := s.records + {Record(info, listing)});
    var last := Trace(s', REnqueue([v]), []);
    StoresIt(env, t, s, info, listing);
    QuietFirst(env, t, s, RList, List(Some(listing), [v]), [StoreRepo(true)], last);
    acts := [List(Some(listing), [v])] + [StoreRepo(true)];
  }

  lemma StoresIt(env: Env, t: Task, s: Store, info: RepoInfo, listing: Listing)
    requires t.FetchRepo?
    ensures var s' := s.(repos := s.repos[RepoString(t.repo) := info], records := s.records + {Record(info, listing)});
            RunAll(env, t, s, RStore(info, listing), [StoreRepo(true)]) == Some(Trace(s', REnqueue(info.versions), []))
  {
    var r := RunStep(env, t, s, RStore(info, listing), StoreRepo(true));
    QuietFirst(env, t, s, RStore(info, listing), StoreRepo(true), [], Trace(r.store, r.run, []));
    assert [StoreRepo(true)] + [] == [StoreRepo(true)];
  }

  // ---------------------------------------------------------------- a runner that panics

  /** A repository that is used for releases and for something else makes a runner panic: listed from packages or
      branches, then asked for as a release repository, its version carries no ids. */
  lemma RunnerCanPanic(env: Env, types: RepoTypes, repo: Repo, kind: RepoType) returns (s: Sys)
    requires '/' !in repo.owner && kind != ReleaseRepo && {kind, ReleaseRepo} <= types(RepoString(repo))
    ensures Leads(env, types, START_UP, s) && Shape(s)
    ensures !NoPanic(s.queues[QName(true, ReleaseRepo)])
  {
    assert kind in {kind, ReleaseRepo} && ReleaseRepo in {kind, ReleaseRepo};
    assert PagesSHA256FromString("ab") == "ab";
    var listing, v := OneVersion(kind, repo, "ab");
    var s0 := LeadsToRecorded(env, types, repo, kind, listing, v);
    s := PanicsOn(env, types, repo, s0, v);
    LeadsOn(env, types, START_UP, s0, s);
  }

  lemma PanicsOn(env: Env, types: RepoTypes, repo: Repo, s0: Sys, v: Version) returns (s: Sys)
    requires Recorded(repo, s0, v) && v.sha != "" && v.extra == map[] && ReleaseRepo in types(RepoString(repo))
    ensures Leads(env, types, s0, s) && Shape(s)
    ensures !NoPanic(s.queues[QName(true, ReleaseRepo)])
  {
    var s1 := StartsRelease(env, types, repo, s0, v);
    s := PanicsNow(env, types, s1, QName(true, ReleaseRepo), FetchVersion(ReleaseRepo, repo, v));
    LeadsOn(env, types, s0, s1, s);
  }

  /** The version is asked for as a release, and a worker starts its runner. */
  lemma StartsRelease(env: Env, types: RepoTypes, repo: Repo, s0: Sys, v: Version) returns (s: Sys)
    requires Recorded(repo, s0, v) && v.sha != "" && ReleaseRepo in types(RepoString(repo))
    ensures Leads(env, types, s0, s) && AtZero(s) && s.store.meta == map[]
    ensures var q := s.queues[QName(true, ReleaseRepo)];
            q.workers != [] && q.workers[0] == Running(0, FetchVersion(ReleaseRepo, repo, v), 0, VCheck)
  {
    var s1 := AskForVersion(env, types, repo, s0, ReleaseRepo, v);
    s := StartLeads(env, types, s1, QName(true, ReleaseRepo), 0, FetchVersion(ReleaseRepo, repo, v));
    LeadsOn(env, types, s0, s1, s);
  }

  lemma PanicsNow(env: Env, types: RepoTypes, s0: Sys, qn: QName, t: Task) returns (s: Sys)
    requires AtZero(s0) && s0.store.meta == map[] && s0.queues[qn].workers != []
    requires s0.queues[qn].workers[0] == Running(0, t, 0, VCheck)
    requires t.FetchVersion? && t.kind == ReleaseRepo && t.version.sha != "" && t.version.extra == map[]
    ensures Leads(env, types, s0, s) && Shape(s) && !NoPanic(s.queues[qn])
  {
    var acts := EndsEarly(env, t, s0.store, None, true);
    TraceLeads(env, types, s0, qn, 0, acts, Trace(s0.store, VPanicked, []));
    s := With(s0, qn, SetRun(s0.queues[qn], 0, VPanicked));
    assert s.queues[qn].workers[0].run.VPanicked?;
  }

  /** In no run that uses repositories with their types a runner panics. */
  ghost predicate NeverPanics(env: Env, types: RepoTypes) {
    forall s, q: QName :: NewServerLeads(env, types, s) && q in s.queues ==> NoPanic(s.queues[q])
  }

  /** A state reached from an empty database by a schedule that uses repositories with their types. */
  ghost predicate NewServerLeads(env: Env, types: RepoTypes, s: Sys) {
    exists n: nat, clock: int :: Leads(env, types, Boot(EMPTY_STORE, n, clock), s)
  }

  /** No runner ever panics exactly when every repository that is used for releases is used for nothing else. */
  lemma NeverPanicsIffReleasesApart(env: Env, types: RepoTypes)
    requires ValidEnv(env)
    ensures NeverPanics(env, types) <==> ReleasesApart(types)
  {
    if ReleasesApart(types) {
      forall s, q: QName | NewServerLeads(env, types, s) && q in s.queues
        ensures NoPanic(s.queues[q])
      {
        var n: nat, clock: int :| Leads(env, types, Boot(EMPTY_STORE, n, clock), s);
        var acts: seq<SysAct> :| RunSys(env, Boot(EMPTY_STORE, n, clock), acts) == Some(s) && TypedActs(types, acts);
        ReleaseJobsWellFormed(env, types, n, clock, acts);
      }
    } else {
      var r: Repo :| !Apart(types, RepoString(r));
      var repo := Canonised(r);
      var kind :| kind in types(RepoString(repo)) && kind != ReleaseRepo;
      var s := RunnerCanPanic(env, types, repo, kind);
      assert NewServerLeads(env, types, s);
    }
  }

  /** The repository that a job string for `r` stands for. */
  lemma Canonised(r: Repo) returns (repo: Repo)
    ensures RepoString(repo) == RepoString(r) && '/' !in repo.owner
  {
    RepoStringRoundTrip(r);
    repo := ParseRepo(RepoString(r)).value;
    assert repo.owner + ['/'] + repo.repo == repo.owner + "/" + repo.repo;
  }

  // ---------------------------------------------------------------- a published answer that changes

  /** Two workers have both found the version missing and are about to download it. */
  ghost predicate Racing(repo: Repo, s: Sys, kind: RepoType, v: Version) {
    && AtZero(s) && s.store.meta == map[] && s.store.data == map[]
    && var t := FetchVersion(kind, repo, v);
       s.queues[QName(true, kind)].workers == [Running(0, t, 0, VFetch), Running(0, t, 0, VFetch)]
  }

  /** Two requests before the first download. */
  lemma TwoJobs(env: Env, types: RepoTypes, repo: Repo, s: Sys, kind: RepoType, v: Version) returns (s': Sys)
    requires Recorded(repo, s, v) && v.sha != "" && kind in types(RepoString(repo))
    ensures Leads(env, types, s, s') && AtZero(s') && s'.store == s.store
    ensures var (q, t) := (s'.queues[QName(true, kind)], FetchVersion(kind, repo, v));
            q.pending == [Msg(0, Job(t)), Msg(0, Job(t))] && q.dedup == map[] && q.workers == [Idle, Idle]
  {
    var s1 := AskForVersion(env, types, repo, s, kind, v);
    s' := AskForVersion(env, types, repo, s1, kind, v);
    LeadsOn(env, types, s, s1, s');
  }

  lemma BothTake(env: Env, types: RepoTypes, repo: Repo, s: Sys, kind: RepoType, v: Version) returns (s': Sys)
    requires AtZero(s)
    requires var (q, t) := (s.queues[QName(true, kind)], FetchVersion(kind, repo, v));
             q.pending == [Msg(0, Job(t)), Msg(0, Job(t))] && q.dedup == map[] && q.workers == [Idle, Idle]
    ensures Leads(env, types, s, s') && AtZero(s') && s'.store == s.store
    ensures var (q, t) := (s'.queues[QName(true, kind)], FetchVersion(kind, repo, v));
            q.dedup == map[] && q.workers == [Taken(0, t, 0), Taken(0, t, 0)]
  {
    var (qn, t) := (QName(true, kind), FetchVersion(kind, repo, v));
    var s1 := TakeLeads(env, types, s, qn, 0, t);
    s' := TakeLeads(env, types, s1, qn, 1, t);
    LeadsOn(env, types, s, s1, s');
  }

  lemma BothRead(env: Env, types: RepoTypes, s: Sys, qn: QName, t: Task) returns (s': Sys)
    requires AtZero(s) && s.queues[qn].dedup == map[] && s.queues[qn].workers == [Taken(0, t, 0), Taken(0, t, 0)]
    ensures Leads(env, types, s, s') && AtZero(s') && s'.store == s.store
    ensures s'.queues[qn].workers == [Cleared(0, t, 0), Cleared(0, t, 0)]
  {
    var s1 := ReadLeads(env, types, s, qn, 0, t);
    s' := ReadLeads(env, types, s1, qn, 1, t);
    LeadsOn(env, types, s, s1, s');
  }

  lemma BothClaim(env: Env, types: RepoTypes, s: Sys, qn: QName, t: Task) returns (s': Sys)
    requires AtZero(s) && s.queues[qn].workers == [Cleared(0, t, 0), Cleared(0, t, 0)]
    ensures Leads(env, types, s, s') && AtZero(s') && s'.store == s.store
    ensures s'.queues[qn].workers == [Running(0, t, 0, StartOf(t)), Running(0, t, 0, StartOf(t))]
  {
    var s1 := ClaimLeads(env, types, s, qn, 0, t);
    s' := ClaimLeads(env, types, s1, qn, 1, t);
    LeadsOn(env, types, s, s1, s');
  }

  /** Both workers take a job and read the table before either claims the key. */
  lemma BothStart(env: Env, types: RepoTypes, repo: Repo, s: Sys, kind: RepoType, v: Version) returns (s': Sys)
    requires AtZero(s)
    requires var (q, t) := (s.queues[QName(true, kind)], FetchVersion(kind, repo, v));
             q.pending == [Msg(0, Job(t)), Msg(0, Job(t))] && q.dedup == map[] && q.workers == [Idle, Idle]
    ensures Leads(env, types, s, s') && AtZero(s') && s'.store == s.store
    ensures var t := FetchVersion(kind, repo, v);
            s'.queues[QName(true, kind)].workers == [Running(0, t, 0, VCheck), Running(0, t, 0, VCheck)]
  {
    var s1 := BothTake(env, types, repo, s, kind, v);
    var s2 := BothRead(env, types, s1, QName(true, kind), FetchVersion(kind, repo, v));
    s' := BothClaim(env, types, s2, QName(true, kind), FetchVersion(kind, repo, v));
    LeadsOn(env, types, s1, s2, s');
    LeadsOn(env, types, s, s1, s');
  }

  /** A worker's runner finds the version missing. */
  lemma CheckLeads(env: Env, types: RepoTypes, s: Sys, qn: QName, w: nat, t: Task) returns (s': Sys)
    requires AtZero(s) && w < |s.queues[qn].workers| && s.queues[qn].workers[w] == Running(0, t, 0, VCheck)
    requires t.FetchVersion? && t.version.sha != "" && t.version.sha !in s.store.meta
    ensures Leads(env, types, s, s') && AtZero(s') && s'.store == s.store
    ensures s'.queues[qn].workers == s.queues[qn].workers[w := Running(0, t, 0, VFetch)]
  {
    RunStepLeads(env, types, s, qn, w, Check(true));
    s' := With(s, qn, SetRun(s.queues[qn], w, VFetch));
  }

  lemma LeadsToRacing(env: Env, types: RepoTypes, repo: Repo, kind: RepoType, listing: Listing, v: Version)
    returns (s: Sys)
    requires kind in types(RepoString(repo)) && '/' !in repo.owner && Lists(listing, kind, repo, v) && v.sha != ""
    ensures Leads(env, types, START_UP, s) && Racing(repo, s, kind, v)
  {
    var (qn, t) := (QName(true, kind), FetchVersion(kind, repo, v));
    var s0 := LeadsToRecorded(env, types, repo, kind, listing, v);
    var s1 := TwoJobs(env, types, repo, s0, kind, v);
    var s2 := BothStart(env, types, repo, s1, kind, v);
    var s3 := CheckLeads(env, types, s2, qn, 0, t);
    s := CheckLeads(env, types, s3, qn, 1, t);
    LeadsOn(env, types, s2, s3, s);
    LeadsOn(env, types, s1, s2, s);
    LeadsOn(env, types, s0, s1, s);
    LeadsOn(env, types, START_UP, s0, s);
  }

  /** The goroutines do not look at the blobs that are there already. */
  lemma {:induction false} AnyData(env: Env, a: Archive, u: Unzipping.Unzip, data: map<string, Bytes>,
                                   data': map<string, Bytes>, acts: seq<UnzipAct>)
    requires RunFrom(env, a, Progress(u, data), acts).Some?
    ensures RunFrom(env, a, Progress(u, data'), acts).Some?
    ensures RunFrom(env, a, Progress(u, data'), acts).value.u == RunFrom(env, a, Progress(u, data), acts).value.u
    decreases acts
  {
    if acts != [] {
      var (p, p') := (StepFrom(env, a, Progress(u, data), acts[0]).value,
                      StepFrom(env, a, Progress(u, data'), acts[0]).value);
      AnyData(env, a, p.u, p.data, p'.data, acts[1..]);
    }
  }

  /** A worker downloads, unpacks along the given schedule and publishes. */
  lemma PublishLeads(env: Env, types: RepoTypes, s: Sys, qn: QName, w: nat, t: Task, schedule: seq<UnzipAct>,
                     files: Pages) returns (s': Sys)
    requires AtZero(s) && w < |s.queues[qn].workers| && s.queues[qn].workers[w] == Running(0, t, 0, VFetch)
    requires t.FetchVersion? && Downloadable(env, t) && Returns(env, env.archives(t.version.sha), schedule, files)
    ensures Leads(env, types, s, s') && AtZero(s') && s'.store.meta == s.store.meta[t.version.sha := files]
    ensures s'.queues[qn].workers == s.queues[qn].workers[w := Running(0, t, 0, Done(true))]
  {
    var a := env.archives(t.version.sha);
    var zip := Some(a.entries);
    AnyData(env, a, UNZIP_INIT, map[], s.store.data, schedule);
    var acts := UnpacksFromFetch(env, t, s.store, zip, schedule, true);
    var last := RunAll(env, t, s.store, VFetch, acts).value;
    TraceLeads(env, types, s, qn, w, acts, last);
    s' := With(s.(store := last.store), qn, SetRun(s.queues[qn], w, last.run));
  }

  /** The version's archive is what its kind of repository unpacks, the digest check accepts it if there is one, and
      the ids are there if they are needed. */
  ghost predicate Downloadable(env: Env, t: Task)
    requires t.FetchVersion?
  {
    var a := env.archives(t.version.sha);
    && a.strip == StripOf(t.kind)
    && (t.kind == PackageRepo ==> env.zipHash(a.entries) == t.version.sha)
    && (t.kind == ReleaseRepo ==> ReadIds(t.version).Ids?)
  }

  /** A listing with one version of a given SHA. */
  lemma OneVersion(kind: RepoType, repo: Repo, sha: string) returns (listing: Listing, v: Version)
    requires PagesSHA256FromString(sha) == sha
    ensures Lists(listing, kind, repo, v) && v.sha == sha
    ensures if kind == ReleaseRepo then ReadIds(v).Ids? else v.extra == map[]
  {
    match kind
    case BranchRepo =>
      var branch := Branch(PAGES_BRANCH, sha, 0);
      v := Version("latest", 0, sha, map[]);
      Paging.OneItem(branch, BranchItems(0), v);
      listing := Branches([branch], 0);
    case PackageRepo =>
      var file := PackageFile(DOCS, sha);
      var package := Package("generic", repo.repo, "1", 0, Some([file]));
      v := Version("1", 0, sha, map[]);
      Paging.OneItem(file, DocsFile, file);
      Paging.OneItem(package, PackageItems(repo.repo), v);
      listing := Packages([package]);
    case ReleaseRepo =>
      var attachment := Attachment(1, DOCS, sha);
      var release := Release("1", 0, false, false, 1, Some([attachment]));
      v := Version("1", 0, sha, map[RELEASE_ID := FormatInt(1), RELEASE_ATTACHMENT_ID := FormatInt(1)]);
      IdRoundTrip(1);
      Paging.OneItem(attachment, DocsAttachment, attachment);
      Paging.OneItem(release, ReleaseItem, v);
      listing := Releases([release]);
  }

  /** Some schedule leads from `s` to `s'`. */
  ghost predicate Later(env: Env, s: Sys, s': Sys) {
    exists acts: seq<SysAct> :: RunSys(env, s, acts) == Some(s')
  }

  lemma LeadsLater(env: Env, types: RepoTypes, s: Sys, s': Sys)
    requires Leads(env, types, s, s')
    ensures Later(env, s, s') && (Reachable(env, s) ==> Reachable(env, s'))
  {
    var acts: seq<SysAct> :| RunSys(env, s, acts) == Some(s') && TypedActs(types, acts);
    if Reachable(env, s) {
      ReachableLater(env, s, acts);
    }
  }

  /** The answers for a version, once it is published, are the same in every later state of every run. */
  ghost predicate Stable(env: Env, sha: string) {
    forall s, s', name :: Reachable(env, s) && sha in s.store.meta && Later(env, s, s') ==> SameAnswer(s, s', sha, name)
  }

  predicate SameAnswer(s: Sys, s': Sys, sha: string, name: string)
    requires sha in s.store.meta
  {
    sha in s'.store.meta && FindFile(s'.store.meta[sha], name) == FindFile(s.store.meta[sha], name)
  }

  function AnyType(): RepoTypes {
    _ => {BranchRepo, ReleaseRepo, PackageRepo}
  }

  /** Two schedules that disagree about a name are taken by two workers one after the other. */
  lemma Republished(env: Env, kind: RepoType, sha: string, name: string, one: seq<UnzipAct>, files: Pages,
                    other: seq<UnzipAct>, files': Pages)
    requires sha != "" && PagesSHA256FromString(sha) == sha && env.archives(sha).strip == StripOf(kind)
    requires kind == PackageRepo ==> env.zipHash(env.archives(sha).entries) == sha
    requires Returns(env, env.archives(sha), one, files) && Returns(env, env.archives(sha), other, files')
    requires FindFile(files, name) != FindFile(files', name)
    ensures !Stable(env, sha)
  {
    var repo := Repo("owner", "repo");
    var listing, v := OneVersion(kind, repo, sha);
    var s := LeadsToRacing(env, AnyType(), repo, kind, listing, v);
    assert RunSys(env, START_UP, []) == Some(START_UP);
    LeadsLater(env, AnyType(), START_UP, s);
    BothPublish(env, s, QName(true, kind), FetchVersion(kind, repo, v), name, one, files, other, files');
  }

  lemma BothPublish(env: Env, s: Sys, qn: QName, t: Task, name: string, one: seq<UnzipAct>, files: Pages,
                    other: seq<UnzipAct>, files': Pages)
    requires Reachable(env, s) && AtZero(s)
             && s.queues[qn].workers == [Running(0, t, 0, VFetch), Running(0, t, 0, VFetch)]
    requires t.FetchVersion? && Downloadable(env, t)
    requires var a := env.archives(t.version.sha); Returns(env, a, one, files) && Returns(env, a, other, files')
    requires FindFile(files, name) != FindFile(files', name)
    ensures !Stable(env, t.version.sha)
  {
    var s1 := PublishLeads(env, AnyType(), s, qn, 0, t, one, files);
    LeadsLater(env, AnyType(), s, s1);
    var s2 := PublishLeads(env, AnyType(), s1, qn, 1, t, other, files');
    LeadsLater(env, AnyType(), s1, s2);
    assert !SameAnswer(s1, s2, t.version.sha, name);
  }

  /** The exact condition for published answers to be stable: that the first five entries saved under each name agree.
      `sha` is one as the server stores it, and its archive one that some kind of repository has. */
  lemma StableIffFirstFiveAgree(env: Env, sha: string)
    requires ValidEnv(env) && sha != "" && PagesSHA256FromString(sha) == sha && env.archives(sha).strip <= 1
    ensures Stable(env, sha) <==> Agree(env.archives(sha))
  {
    var a := env.archives(sha);
    if Agree(a) {
      forall s, s', name | Reachable(env, s) && sha in s.store.meta && Later(env, s, s')
        ensures SameAnswer(s, s', sha, name)
      {
        var acts: seq<SysAct> :| RunSys(env, s, acts) == Some(s');
        PublishedVersionsStable(env, s, acts, sha, name);
      }
    } else {
      var one, files, other, files', name := Disagree(env, a);
      Republished(env, KindOf(env, sha), sha, name, one, files, other, files');
    }
  }

  /** The kind of repository whose versions have this SHA: the SHA of a package is the digest of its zip. */
  ghost function KindOf(env: Env, sha: string): RepoType {
    var a := env.archives(sha);
    if a.strip == 1 then BranchRepo else if env.zipHash(a.entries) == sha then PackageRepo else ReleaseRepo
  }
}
