/** The whole server: the stores, six deduplicating queues whose workers interleave runner steps and goroutines,
    concurrent requests, hooks, and crashes that keep only the stores. */
module System {
  import opened Types
  import opened Archives
  import opened Unzip
  import opened Listings
  import opened Tasks
  import opened ReadPath
  import opened Runners
  import opened DedupQueue

  /** `unlisted` is there for the specification: the keys of repositories of which a run has found an empty listing
      since the start. */
  datatype Sys = Sys(store: Store, queues: map<QName, Queue<Run>>, requests: seq<Req>, unlisted: set<string>)

  /** `Respond` is one step of a request, `Consume` one step of a queue worker around its runner, `Work` one step of
      a runner. `when` is the time of the step, with the time that a job it enqueues is stamped with. */
  datatype SysAct =
    | Hook(repo: Repo, when: When)
    | Ask(r: RepoFileAtVersion, rt: RepoType)
    | Respond(i: nat, f: Faults, when: When)
    | Consume(q: QName, a: Action<Run>)
    | Work(q: QName, w: nat, act: RunAct, when: When)
    | Crash(n: nat, clock: int)

  ghost predicate Shape(s: Sys) {
    forall q: QName :: q in s.queues && s.queues[q].name == q
  }

  function FreshQueues(n: nat, clock: int): map<QName, Queue<Run>> {
    map q | q in ALL_QUEUES :: InitialQueue(q, n, clock)
  }

  function Boot(store: Store, n: nat, clock: int): Sys {
    Sys(store, FreshQueues(n, clock), [], {})
  }

  const EMPTY_STORE: Store := Store(map[], map[], map[], {})

  ghost predicate NotBefore(s: Sys, when: When) {
    when.read <= when.at && forall q: QName :: q in s.queues ==> when.at >= s.queues[q].clock
  }

  /** The queue's own steps: a worker starts a runner from its beginning and ends it with the runner's result. */
  ghost predicate ConsumeEnabled(q: Queue<Run>, a: Action<Run>) {
    && Enabled(q, a)
    && match a
       case Take(_, _, _) => true
       case Read(_, _) => true
       case Claim(w, _, _, start) => start == StartOf(q.workers[w].task)
       case Succeed(w, _, _) => q.workers[w].run == Done(true)
       case Fail(w, _) => q.workers[w].run == Done(false)
       case _ => false
  }

  ghost predicate SysEnabled(env: Env, s: Sys, act: SysAct)
    requires Shape(s)
  {
    match act
    case Hook(_, when) => NotBefore(s, when)
    case Ask(_, _) => true
    case Respond(i, _, when) => i < |s.requests| && !s.requests[i].Answered? && NotBefore(s, when)
    case Consume(q, a) => ConsumeEnabled(s.queues[q], a)
    case Work(q, w, ra, when) =>
      && w < |s.queues[q].workers| && s.queues[q].workers[w].Running? && NotBefore(s, when)
      && RunEnabled(env, s.queues[q].workers[w].task, s.queues[q].workers[w].run, ra)
    case Crash(_, _) => true
  }

  function PostTo(s: Sys, post: Option<Task>, when: When): (s': Sys)
    requires post.Some? ==>
               QueueOf(post.value) in s.queues && Enabled(s.queues[QueueOf(post.value)], Action.Post(post.value, when))
    ensures s'.store == s.store && s'.requests == s.requests
  {
    match post
    case None => s
    case Some(t) => s.(queues := s.queues[QueueOf(t) := Next(s.queues[QueueOf(t)], Action.Post(t, when))])
  }

  /** The listing step that ends a run with success is the one that brings nothing. */
  function FoundUnlisted(worker: Worker<Run>, run: Run): set<string>
    requires worker.Running?
  {
    if worker.run.RList? && run == Done(true) then {RepoString(worker.task.repo)} else {}
  }

  /** The state after a runner's step, before what it enqueues. */
  ghost function AfterRunner(s: Sys, q: QName, w: nat, r: RunResult): Sys
    requires Shape(s) && Enabled(s.queues[q], Action.Work(w, r.run))
  {
    Sys(r.store, s.queues[q := Next(s.queues[q], Action.Work(w, r.run))], s.requests,
        s.unlisted + FoundUnlisted(s.queues[q].workers[w], r.run))
  }

  ghost function SysNext(env: Env, s: Sys, act: SysAct): Sys
    requires Shape(s) && SysEnabled(env, s, act)
  {
    match act
    case Hook(repo, when) => PostTo(s, Some(FetchRepo(PackageRepo, repo)), when)
    case Ask(r, rt) => s.(requests := s.requests + [Asked(r, rt)])
    case Respond(i, f, when) => (
      var result := ReqStep(s.store, s.requests[i], f);
      PostTo(s.(requests := s.requests[i := result.req]), result.post, when))
    case Consume(q, a) => s.(queues := s.queues[q := Next(s.queues[q], a)])
    case Work(q, w, ra, when) => (
      var worker := s.queues[q].workers[w];
      var result := RunStep(env, worker.task, s.store, worker.run, ra);
      PostTo(AfterRunner(s, q, w, result), result.post, when))
    case Crash(n, clock) => Boot(s.store, n, clock)
  }

  // ---------------------------------------------------------------- the invariant

  ghost predicate RunsInv(env: Env, s: Store, q: Queue<Run>) {
    forall w :: 0 <= w < |q.workers| && q.workers[w].Running? ==> RunInv(env, q.workers[w].task, s, q.workers[w].run)
  }

  /** Every success of a version queue has left its metadata behind. */
  ghost predicate SuccessesPublished(s: Store, q: Queue<Run>) {
    forall i :: 0 <= i < |q.log| && q.log[i].Succeeded? && q.log[i].task.FetchVersion? ==>
      q.log[i].task.version.sha in s.meta
  }

  ghost predicate QueueOk(env: Env, s: Store, q: Queue<Run>) {
    QueueInv(q) && RunsInv(env, s, q) && SuccessesPublished(s, q)
  }

  ghost predicate RequestsOk(env: Env, s: Store, requests: seq<Req>) {
    forall i :: 0 <= i < |requests| ==> ReqInv(env, s, requests[i])
  }

  ghost predicate SysInv(env: Env, s: Sys) {
    && Shape(s) && StoreInv(env, s.store) && RequestsOk(env, s.store, s.requests)
    && forall q: QName :: q in s.queues ==> QueueOk(env, s.store, s.queues[q])
  }

  lemma BootInv(env: Env, store: Store, n: nat, clock: int)
    requires StoreInv(env, store)
    ensures SysInv(env, Boot(store, n, clock))
  {
    var s := Boot(store, n, clock);
    forall q: QName
      ensures q in s.queues && s.queues[q].name == q && QueueOk(env, s.store, s.queues[q])
    {
      AllQueuesAreAll(q);
      InitialQueueInv<Run>(q, n, clock);
    }
  }

  /** Growth of the store disturbs nobody. */
  lemma QueueOkStable(env: Env, s: Store, s': Store, q: Queue<Run>)
    requires QueueOk(env, s, q) && StoreGrows(s, s')
    ensures QueueOk(env, s', q)
  {
    forall w | 0 <= w < |q.workers| && q.workers[w].Running?
      ensures RunInv(env, q.workers[w].task, s', q.workers[w].run)
    {
      RunInvStable(env, q.workers[w].task, s, s', q.workers[w].run);
    }
  }

  lemma PostOk(env: Env, s: Store, q: Queue<Run>, t: Task, when: When)
    requires QueueOk(env, s, q) && Enabled(q, Action.Post(t, when))
    ensures QueueOk(env, s, Next(q, Action.Post(t, when)))
  {
    QueueStep(q, Action.Post(t, when));
  }

  lemma PostToInv(env: Env, s: Sys, post: Option<Task>, when: When)
    requires SysInv(env, s)
    requires post.Some? ==> Enabled(s.queues[QueueOf(post.value)], Action.Post(post.value, when))
    ensures SysInv(env, PostTo(s, post, when))
  {
    if post.Some? {
      PostOk(env, s.store, s.queues[QueueOf(post.value)], post.value, when);
    }
  }

  lemma ConsumeOk(env: Env, s: Store, q: Queue<Run>, a: Action<Run>)
    requires QueueOk(env, s, q) && ConsumeEnabled(q, a)
    ensures QueueOk(env, s, Next(q, a))
  {
    QueueStep(q, a);
    var q' := Next(q, a);
    forall w | 0 <= w < |q'.workers| && q'.workers[w].Running?
      ensures RunInv(env, q'.workers[w].task, s, q'.workers[w].run)
    {
      assert w < |q.workers|;
      if q.workers[w].Running? {
        assert q'.workers[w] == q.workers[w];
      }
    }
  }

  lemma WorkOk(env: Env, s: Sys, q: QName, w: nat, run: Run)
    requires SysInv(env, s) && Enabled(s.queues[q], Action.Work(w, run))
             && RunInv(env, s.queues[q].workers[w].task, s.store, run)
    ensures SysInv(env, s.(queues := s.queues[q := Next(s.queues[q], Action.Work(w, run))]))
  {
    QueueStep(s.queues[q], Action.Work(w, run));
  }

  lemma GrowInv(env: Env, s: Sys, store: Store)
    requires SysInv(env, s) && StoreInv(env, store) && StoreGrows(s.store, store)
    ensures SysInv(env, s.(store := store))
  {
    forall p: QName | p in s.queues
      ensures QueueOk(env, store, s.queues[p])
    {
      QueueOkStable(env, s.store, store, s.queues[p]);
    }
    forall i | 0 <= i < |s.requests|
      ensures ReqInv(env, store, s.requests[i])
    {
      ReqInvStable(env, s.store, store, s.requests[i]);
    }
  }

  lemma RequestInv(env: Env, s: Sys, i: nat, f: Faults)
    requires ValidEnv(env) && SysInv(env, s) && i < |s.requests|
    ensures SysInv(env, s.(requests := s.requests[i := ReqStep(s.store, s.requests[i], f).req]))
  {
    ReqStepInv(env, s.store, s.requests[i], f);
  }

  lemma RunnerKnows(env: Env, s: Sys, q: QName, w: nat)
    requires SysInv(env, s) && w < |s.queues[q].workers| && s.queues[q].workers[w].Running?
    ensures var worker := s.queues[q].workers[w];
            QueueOf(worker.task) == q && RunInv(env, worker.task, s.store, worker.run)
  {
    assert QueueOk(env, s.store, s.queues[q]);
  }

  lemma AfterRunnerInv(env: Env, s: Sys, q: QName, w: nat, r: RunResult)
    requires SysInv(env, s) && Enabled(s.queues[q], Action.Work(w, r.run))
    requires StoreInv(env, r.store) && StoreGrows(s.store, r.store)
             && RunInv(env, s.queues[q].workers[w].task, r.store, r.run)
    ensures SysInv(env, AfterRunner(s, q, w, r))
  {
    GrowInv(env, s, r.store);
    WorkOk(env, s.(store := r.store), q, w, r.run);
  }

  lemma WorkInv(env: Env, s: Sys, q: QName, w: nat, ra: RunAct, when: When)
    requires ValidEnv(env) && SysInv(env, s) && SysEnabled(env, s, SysAct.Work(q, w, ra, when))
    ensures SysInv(env, SysNext(env, s, SysAct.Work(q, w, ra, when)))
    ensures StoreGrows(s.store, SysNext(env, s, SysAct.Work(q, w, ra, when)).store)
  {
    var worker := s.queues[q].workers[w];
    RunnerKnows(env, s, q, w);
    RunStepInv(env, worker.task, s.store, worker.run, ra);
    var result := RunStep(env, worker.task, s.store, worker.run, ra);
    AfterRunnerInv(env, s, q, w, result);
    PostToInv(env, AfterRunner(s, q, w, result), result.post, when);
  }

  lemma RespondInv(env: Env, s: Sys, i: nat, f: Faults, when: When)
    requires ValidEnv(env) && SysInv(env, s) && SysEnabled(env, s, SysAct.Respond(i, f, when))
    ensures SysInv(env, SysNext(env, s, SysAct.Respond(i, f, when)))
    ensures SysNext(env, s, SysAct.Respond(i, f, when)).store == s.store
  {
    var r := ReqStep(s.store, s.requests[i], f);
    RequestInv(env, s, i, f);
    PostToInv(env, s.(requests := s.requests[i := r.req]), r.post, when);
  }

  /** Every step of the whole server keeps the invariant, and no step ever takes anything out of the store. */
  lemma SysStep(env: Env, s: Sys, act: SysAct)
    requires ValidEnv(env) && SysInv(env, s) && SysEnabled(env, s, act)
    ensures SysInv(env, SysNext(env, s, act)) && StoreGrows(s.store, SysNext(env, s, act).store)
  {
    match act
    case Hook(repo, when) => PostToInv(env, s, Some(FetchRepo(PackageRepo, repo)), when);
    case Ask(r, rt) =>
    case Respond(i, f, when) => RespondInv(env, s, i, f, when);
    case Consume(q, a) => ConsumeOk(env, s.store, s.queues[q], a);
    case Work(q, w, ra, when) => WorkInv(env, s, q, w, ra, when);
    case Crash(n, clock) => BootInv(env, s.store, n, clock);
  }

  // ---------------------------------------------------------------- runs

  /** Follow a schedule of the server; None if some step was not possible. */
  ghost function RunSys(env: Env, s: Sys, acts: seq<SysAct>): Option<Sys>
    decreases acts
  {
    if acts == [] then Some(s)
    else if Shape(s) && SysEnabled(env, s, acts[0]) then RunSys(env, SysNext(env, s, acts[0]), acts[1..])
    else None
  }

  lemma {:induction false} SysRun(env: Env, s: Sys, acts: seq<SysAct>)
    requires ValidEnv(env) && SysInv(env, s) && RunSys(env, s, acts).Some?
    ensures SysInv(env, RunSys(env, s, acts).value) && StoreGrows(s.store, RunSys(env, s, acts).value.store)
    decreases acts
  {
    if acts != [] {
      SysStep(env, s, acts[0]);
      SysRun(env, SysNext(env, s, acts[0]), acts[1..]);
    }
  }

  /** A state reached from an empty database by any schedule whatsoever. */
  ghost predicate Reachable(env: Env, s: Sys) {
    exists n: nat, clock: int, acts: seq<SysAct> :: RunSys(env, Boot(EMPTY_STORE, n, clock), acts) == Some(s)
  }

  lemma ReachableInv(env: Env, s: Sys)
    requires ValidEnv(env) && Reachable(env, s)
    ensures SysInv(env, s)
  {
    var n: nat, clock: int, acts: seq<SysAct> :| RunSys(env, Boot(EMPTY_STORE, n, clock), acts) == Some(s);
    BootInv(env, EMPTY_STORE, n, clock);
    SysRun(env, Boot(EMPTY_STORE, n, clock), acts);
  }

  // ---------------------------------------------------------------- theorems over all runs

  /** No dangling references: in every reachable state every file of every published version has its blob, and every
      blob sits under its own hash. */
  lemma NoDanglingReferences(env: Env, s: Sys)
    requires ValidEnv(env) && Reachable(env, s)
    ensures forall sha, k :: sha in s.store.meta && 0 <= k < |s.store.meta[sha]| ==>
              s.store.meta[sha][k].sha in s.store.data
    ensures forall h :: h in s.store.data ==> env.hash(s.store.data[h]) == h
  {
    ReachableInv(env, s);
    forall sha, k | sha in s.store.meta && 0 <= k < |s.store.meta[sha]|
      ensures s.store.meta[sha][k].sha in s.store.data
    {
      NoDanglingFiles(env, s.store, sha, k);
    }
  }

  /** End to end: when a request is answered with bytes, they are the content of an archive entry of the selected
      version saved under the normalised name, and the archive's own answer for it when names do not clash; the
      version was selected in a record that the server has stored for the repository, and is a newest one of that
      record when the request names none. */
  lemma ServedBytesAreArchiveBytes(env: Env, s: Sys, i: nat)
    requires ValidEnv(env) && Reachable(env, s) && i < |s.requests|
    requires s.requests[i].Answered? && s.requests[i].answer.Data?
    ensures s.requests[i].selected.Some?
    ensures var (r, v, bytes) := (s.requests[i].r, s.requests[i].selected.value, s.requests[i].answer.bytes);
            && FromArchive(env.archives(v.sha), Normalise(r.file), bytes)
            && (Agree(env.archives(v.sha)) ==> Serve(env.archives(v.sha), Normalise(r.file)) == Some(bytes))
            && SelectedFromHistory(s.store, r, v)
  {
    ReachableInv(env, s);
    assert ReqInv(env, s.store, s.requests[i]);
    var (r, v, bytes) := (s.requests[i].r, s.requests[i].selected.value, s.requests[i].answer.bytes);
    if Agree(env.archives(v.sha)) {
      ServedIsFirst(env.archives(v.sha), Normalise(r.file), bytes);
    }
    InHistory(env, s.store, r, v);
  }

  /** `v` is what the request selects in a record that the server has stored for its repository: the version it names,
      or a newest one. */
  ghost predicate SelectedFromHistory(s: Store, r: RepoFileAtVersion, v: Version) {
    exists info :: SelectedFrom(s, r, info, v) && v in info.versions &&
      if r.version == "" then forall w :: w in info.versions ==> w.createdAt <= v.createdAt else v.version == r.version
  }

  lemma InHistory(env: Env, s: Store, r: RepoFileAtVersion, v: Version)
    requires StoreInv(env, s) && exists info :: SelectedFrom(s, r, info, v)
    ensures SelectedFromHistory(s, r, v)
  {
    var info :| SelectedFrom(s, r, info, v);
    var listing :| Record(info, listing) in s.records;
    assert StoredFrom(Record(info, listing).info, listing);
    LatestIsNewest(info);
  }

  /** The name that is looked up: bytes are those of an entry saved under the requested name, or under the name with
      `index.html` behind it when that names no file, and a missing file is missing under that name. */
  lemma AnsweredUnderOwnName(env: Env, s: Sys, i: nat)
    requires ValidEnv(env) && Reachable(env, s) && i < |s.requests| && s.requests[i].Answered?
    ensures var (r, v, answer) := (s.requests[i].r, s.requests[i].selected, s.requests[i].answer);
            var name := if Ordinary(r.file) then r.file else r.file + "index.html";
            && (answer.Data? ==> v.Some? && FromArchive(env.archives(v.value.sha), name, answer.bytes))
            && (answer == FileNotFound ==> v.Some? && Serve(env.archives(v.value.sha), name) == None)
  {
    NormalisedName(s.requests[i].r.file);
    if s.requests[i].answer.Data? {
      ServedBytesAreArchiveBytes(env, s, i);
    } else {
      MissingIsMissing(env, s, i);
    }
  }

  /** Negative answers are right as well: a file reported missing is not in the archive of the selected version, and a
      version reported missing is in some record that the server has stored for the repository not listed. */
  lemma MissingIsMissing(env: Env, s: Sys, i: nat)
    requires ValidEnv(env) && Reachable(env, s) && i < |s.requests| && s.requests[i].Answered?
    ensures var (r, v) := (s.requests[i].r, s.requests[i].selected);
            && (s.requests[i].answer == FileNotFound ==>
                  v.Some? && Serve(env.archives(v.value.sha), Normalise(r.file)) == None
                  && SelectedFromHistory(s.store, r, v.value))
            && (s.requests[i].answer == VersionNotFound ==>
                  exists info :: && RecordOf(s.store, r, info)
                                 && forall w :: w in info.versions ==> w.version != r.version)
  {
    ReachableInv(env, s);
    var (r, v) := (s.requests[i].r, s.requests[i].selected);
    assert ReqInv(env, s.store, s.requests[i]);
    if s.requests[i].answer == FileNotFound {
      InHistory(env, s.store, r, v.value);
    } else if s.requests[i].answer == VersionNotFound {
      var info :| RecordOf(s.store, r, info) && SelectVersion(info, r.version) == None;
      assert RecordOf(s.store, r, info);
    }
  }

  lemma ServedIsFirst(a: Archive, name: string, bytes: Bytes)
    requires FromArchive(a, name, bytes) && Agree(a)
    ensures Serve(a, name) == Some(bytes)
  {
    var j: nat :| EntryServes(a, name, bytes, j);
    assert Serve(a, name).Some?;
  }

  /** Once a request has found its file, reading the blob cannot miss, whatever happens in between. */
  lemma BlobLookupNeverMisses(env: Env, s: Sys, i: nat, f: Faults)
    requires ValidEnv(env) && Reachable(env, s) && i < |s.requests| && s.requests[i].Located? && f.dataOk
    ensures ReqStep(s.store, s.requests[i], f).req.answer.Data?
  {
    ReachableInv(env, s);
    ReqStepInv(env, s.store, s.requests[i], f);
  }

  /** Published versions are stable: however often and by however many workers a version is published again, its
      answers never change for the rest of the run, crashes included. */
  lemma PublishedVersionsStable(env: Env, s: Sys, acts: seq<SysAct>, sha: string, name: string)
    requires ValidEnv(env) && Reachable(env, s) && RunSys(env, s, acts).Some?
    requires sha in s.store.meta && Agree(env.archives(sha))
    ensures var s' := RunSys(env, s, acts).value;
            && sha in s'.store.meta && FindFile(s'.store.meta[sha], name) == FindFile(s.store.meta[sha], name)
            && (FindFile(s.store.meta[sha], name) != "" ==>
                  var h := FindFile(s.store.meta[sha], name);
                  h in s.store.data && h in s'.store.data && s'.store.data[h] == s.store.data[h])
  {
    ReachableInv(env, s);
    SysRun(env, s, acts);
    var s' := RunSys(env, s, acts).value;
    var a := env.archives(sha);
    LookupIsServe(env, a, s.store.data, s.store.meta[sha], name);
    LookupIsServe(env, a, s'.store.data, s'.store.meta[sha], name);
  }

  /** The request has been answered with bytes or told that there is no such file. */
  predicate Conclusive(req: Req) {
    req.Answered? && (req.answer.Data? || req.answer.FileNotFound?)
  }

  lemma ConclusiveAnswer(env: Env, s: Sys, i: nat)
    requires ValidEnv(env) && Reachable(env, s) && i < |s.requests| && Conclusive(s.requests[i])
    ensures s.requests[i].selected.Some?
    ensures var a := env.archives(s.requests[i].selected.value.sha);
            Agree(a) ==> s.requests[i].answer == FromServe(Serve(a, Normalise(s.requests[i].r.file)))
  {
    if s.requests[i].answer.Data? {
      ServedBytesAreArchiveBytes(env, s, i);
    } else {
      MissingIsMissing(env, s, i);
    }
  }

  lemma {:induction false} RunSysConcat(env: Env, s: Sys, acts: seq<SysAct>, more: seq<SysAct>)
    requires RunSys(env, s, acts).Some?
    ensures RunSys(env, s, acts + more) == RunSys(env, RunSys(env, s, acts).value, more)
    decreases acts
  {
    if acts == [] {
      assert acts + more == more;
    } else {
      assert (acts + more)[1..] == acts[1..] + more;
      RunSysConcat(env, SysNext(env, s, acts[0]), acts[1..], more);
    }
  }

  lemma ReachableLater(env: Env, s: Sys, acts: seq<SysAct>)
    requires Reachable(env, s) && RunSys(env, s, acts).Some?
    ensures Reachable(env, RunSys(env, s, acts).value)
  {
    var n: nat, clock: int, past: seq<SysAct> :| RunSys(env, Boot(EMPTY_STORE, n, clock), past) == Some(s);
    RunSysConcat(env, Boot(EMPTY_STORE, n, clock), past, acts);
  }

  /** Versions with one SHA are answered alike: two requests for one file, answered at any two moments of a run through
      whatever repositories, records and version names, get the same answer. */
  lemma SameSHASameAnswer(env: Env, s: Sys, i: nat, acts: seq<SysAct>, j: nat)
    requires ValidEnv(env) && Reachable(env, s) && RunSys(env, s, acts).Some?
    requires i < |s.requests| && Conclusive(s.requests[i])
    requires j < |RunSys(env, s, acts).value.requests| && Conclusive(RunSys(env, s, acts).value.requests[j])
    ensures var (one, other) := (s.requests[i], RunSys(env, s, acts).value.requests[j]);
            && one.selected.Some? && other.selected.Some?
            && var (v, w) := (one.selected.value, other.selected.value);
               v.sha == w.sha && Normalise(one.r.file) == Normalise(other.r.file) && Agree(env.archives(v.sha)) ==>
                 one.answer == other.answer
  {
    ReachableLater(env, s, acts);
    ConclusiveAnswer(env, s, i);
    ConclusiveAnswer(env, RunSys(env, s, acts).value, j);
  }

  /** Deduping version jobs by SHA alone loses nothing: whichever repository and version a job is for, if it is
      skipped while no run of its key is in progress then its own version is already published. */
  lemma SkippedVersionIsPublished(env: Env, s: Sys, kind: RepoType, w: nat, at: int)
    requires ValidEnv(env) && Reachable(env, s) && QName(true, kind) in s.queues
    requires SkipsWithoutRun(s.queues[QName(true, kind)], w, at)
    ensures var t := s.queues[QName(true, kind)].workers[w].task;
            t.FetchVersion? && t.version.sha in s.store.meta
  {
    ReachableInv(env, s);
    var q := s.queues[QName(true, kind)];
    assert QueueOk(env, s.store, q);
    SkippedIsPublished(env, s.store, q, w, at);
  }

  /** The worker is about to skip its job although no run of its key is in progress. */
  ghost predicate SkipsWithoutRun(q: Queue<Run>, w: nat, at: int) {
    Enabled(q, Action.Read(w, at)) && Skips(q.dedup, q.workers[w].task, q.workers[w].posted)
    && !Busy(q, Key(q.workers[w]))
  }

  lemma SkippedIsPublished(env: Env, s: Store, q: Queue<Run>, w: nat, at: int)
    requires QueueOk(env, s, q) && q.name.version && SkipsWithoutRun(q, w, at)
    ensures q.workers[w].task.FetchVersion? && q.workers[w].task.version.sha in s.meta
  {
    var t, k := q.workers[w].task, Key(q.workers[w]);
    SkipCovered(q, t, q.workers[w].posted);
    var finish :| finish > q.workers[w].posted && SucceededAt(q.log, k, finish);
    var i :| 0 <= i < |q.log| && q.log[i].Succeeded? && DedupingKey(q.log[i].task) == k && q.log[i].finish == finish;
    SameKey(t, q.log[i].task);
  }

  /** What the skipped job was for is not lost: from then on, in whatever run, no request that selects a version with
      its SHA misses, and all that look up one file find the same. */
  lemma SkippedJobLosesNothing(env: Env, s: Sys, kind: RepoType, w: nat, at: int, acts: seq<SysAct>, j: nat, f: Faults)
    requires ValidEnv(env) && Reachable(env, s) && QName(true, kind) in s.queues && RunSys(env, s, acts).Some?
    requires SkipsWithoutRun(s.queues[QName(true, kind)], w, at)
    requires var s' := RunSys(env, s, acts).value;
             && j < |s'.requests| && s'.requests[j].Chosen? && f.metaOk
             && s.queues[QName(true, kind)].workers[w].task.FetchVersion?
             && s'.requests[j].version.sha == s.queues[QName(true, kind)].workers[w].task.version.sha
    ensures var s' := RunSys(env, s, acts).value;
            var (sha, name) := (s'.requests[j].version.sha, Normalise(s'.requests[j].r.file));
            var r := ReqStep(s'.store, s'.requests[j], f);
            && r.post == None && (r.req.Located? || (r.req.Answered? && r.req.answer == FileNotFound))
            && (Agree(env.archives(sha)) ==>
                  && sha in s.store.meta && FindFile(s'.store.meta[sha], name) == FindFile(s.store.meta[sha], name)
                  && (r.req.Located? <==> Serve(env.archives(sha), name).Some?))
  {
    SkippedVersionIsPublished(env, s, kind, w, at);
    ReachableInv(env, s);
    SysRun(env, s, acts);
    var s' := RunSys(env, s, acts).value;
    var (sha, name) := (s'.requests[j].version.sha, Normalise(s'.requests[j].r.file));
    if Agree(env.archives(sha)) {
      PublishedVersionsStable(env, s, acts, sha, name);
      LookupIsServe(env, env.archives(sha), s'.store.data, s'.store.meta[sha], name);
    }
  }

  // ---------------------------------------------------------------- no key gets stuck

  /** A worker of the queue reads the table for key `k`. */
  predicate Looks(s: Sys, act: SysAct, qn: QName, k: string) {
    act.Consume? && act.q == qn && qn in s.queues && Touches(s.queues[qn], act.a, k)
  }

  /** A schedule without a crash in which nobody reads the queue's table for key `k`. */
  ghost predicate Unread(env: Env, s: Sys, acts: seq<SysAct>, qn: QName, k: string)
    decreases acts
  {
    acts == [] || (&& Shape(s) && SysEnabled(env, s, acts[0]) && !acts[0].Crash? && !Looks(s, acts[0], qn, k)
                   && Unread(env, SysNext(env, s, acts[0]), acts[1..], qn, k))
  }

  /** A job of key `k` stamped with `t` is waiting in the queue or has been taken and not looked at. */
  ghost predicate Unseen(q: Queue<Run>, k: string, t: int) {
    || (exists i :: 0 <= i < |q.pending| && UnseenMsg(q, q.pending[i], k, t))
    || (exists w :: 0 <= w < |q.workers| && UnseenBy(q.workers[w], k, t))
  }

  predicate UnseenMsg(q: Queue<Run>, msg: Msg, k: string, t: int) {
    msg.posted == t && var task := ParseJob(q.name, msg.job); task.Some? && DedupingKey(task.value) == k
  }

  predicate UnseenBy(worker: Worker<Run>, k: string, t: int) {
    worker.Taken? && worker.posted == t && Key(worker) == k
  }

  lemma UnseenMsgStep(q: Queue<Run>, a: Action<Run>, k: string, t: int, i: nat)
    requires i < |q.pending| && UnseenMsg(q, q.pending[i], k, t) && Enabled(q, a)
    ensures Unseen(Next(q, a), k, t)
  {
    var q' := Next(q, a);
    if a.Take? && a.i == i {
      assert UnseenBy(q'.workers[a.w], k, t);
    } else {
      assert q'.pending[if a.Take? && a.i < i then i - 1 else i] == q.pending[i];
    }
  }

  lemma UnseenStep(q: Queue<Run>, a: Action<Run>, k: string, t: int)
    requires Unseen(q, k, t) && Enabled(q, a) && !Touches(q, a, k)
    ensures Unseen(Next(q, a), k, t)
  {
    var q' := Next(q, a);
    if i: nat :| i < |q.pending| && UnseenMsg(q, q.pending[i], k, t) {
      UnseenMsgStep(q, a, k, t, i);
    } else {
      var w :| 0 <= w < |q.workers| && UnseenBy(q.workers[w], k, t);
      assert q'.workers[w] == q.workers[w];
    }
  }

  /** What holds of a queue in which a job of the key is still to be looked at. */
  ghost predicate Awaiting(q: Queue<Run>, k: string, t: int, mark: Option<DedupValue>) {
    Fresh(q, k, mark) && Unseen(q, k, t)
  }

  lemma AwaitingStep(q: Queue<Run>, a: Action<Run>, k: string, t: int, mark: Option<DedupValue>)
    requires Awaiting(q, k, t, mark) && Enabled(q, a) && !Touches(q, a, k)
    ensures Awaiting(Next(q, a), k, t, mark)
  {
    FreshStep(q, a, k, mark);
    UnseenStep(q, a, k, t);
  }

  lemma AwaitingPost(s: Sys, post: Option<Task>, when: When, qn: QName, k: string, t: int, mark: Option<DedupValue>)
    requires qn in s.queues && Awaiting(s.queues[qn], k, t, mark)
    requires post.Some? ==>
               QueueOf(post.value) in s.queues && Enabled(s.queues[QueueOf(post.value)], Action.Post(post.value, when))
    ensures qn in PostTo(s, post, when).queues && Awaiting(PostTo(s, post, when).queues[qn], k, t, mark)
  {
    if post.Some? && QueueOf(post.value) == qn {
      AwaitingStep(s.queues[qn], Action.Post(post.value, when), k, t, mark);
    }
  }

  /** Nothing but a crash or a look at the table for the key changes that. */
  lemma AwaitingSys(env: Env, s: Sys, act: SysAct, qn: QName, k: string, t: int, mark: Option<DedupValue>)
    requires Shape(s) && SysEnabled(env, s, act) && !act.Crash? && !Looks(s, act, qn, k)
    requires Awaiting(s.queues[qn], k, t, mark)
    ensures qn in SysNext(env, s, act).queues && Awaiting(SysNext(env, s, act).queues[qn], k, t, mark)
  {
    match act
    case Hook(repo, when) => AwaitingPost(s, Some(FetchRepo(PackageRepo, repo)), when, qn, k, t, mark);
    case Ask(_, _) =>
    case Respond(i, f, when) =>
      var r := ReqStep(s.store, s.requests[i], f);
      AwaitingPost(s.(requests := s.requests[i := r.req]), r.post, when, qn, k, t, mark);
    case Consume(q, a) =>
      if q == qn {
        AwaitingStep(s.queues[qn], a, k, t, mark);
      }
    case Work(q, w, ra, when) => AwaitingWork(env, s, q, w, ra, when, qn, k, t, mark);
  }

  lemma AwaitingWork(env: Env, s: Sys, q: QName, w: nat, ra: RunAct, when: When, qn: QName, k: string, t: int,
                     mark: Option<DedupValue>)
    requires Shape(s) && SysEnabled(env, s, SysAct.Work(q, w, ra, when)) && Awaiting(s.queues[qn], k, t, mark)
    ensures var s' := SysNext(env, s, SysAct.Work(q, w, ra, when));
            qn in s'.queues && Awaiting(s'.queues[qn], k, t, mark)
  {
    var worker := s.queues[q].workers[w];
    var r := RunStep(env, worker.task, s.store, worker.run, ra);
    if q == qn {
      AwaitingStep(s.queues[qn], Action.Work(w, r.run), k, t, mark);
    }
    AwaitingPost(AfterRunner(s, q, w, r), r.post, when, qn, k, t, mark);
  }

  lemma {:induction false} AwaitingRun(env: Env, s: Sys, acts: seq<SysAct>, qn: QName, k: string, t: int,
                                       mark: Option<DedupValue>)
    requires qn in s.queues && Awaiting(s.queues[qn], k, t, mark) && Unread(env, s, acts, qn, k)
    ensures RunSys(env, s, acts).Some? && qn in RunSys(env, s, acts).value.queues
    ensures Awaiting(RunSys(env, s, acts).value.queues[qn], k, t, mark)
    decreases acts
  {
    if acts != [] {
      AwaitingSys(env, s, acts[0], qn, k, t, mark);
      AwaitingRun(env, SysNext(env, s, acts[0]), acts[1..], qn, k, t, mark);
    }
  }

  /** The worker's next read of the table lets its job through exactly when the table at that earlier moment held no
      later success, and so if the job was stamped since then. */
  ghost predicate RunsUnlessOlder(earlier: Queue<Run>, q: Queue<Run>, w: nat, at: int) {
    Enabled(q, Action.Read(w, at)) ==>
      var (k, read) := (Key(q.workers[w]), Next(q, Action.Read(w, at)).workers[w]);
      && (read.Cleared? <==> k !in earlier.dedup || earlier.dedup[k].posted <= q.workers[w].posted)
      && (q.workers[w].posted >= earlier.clock ==> read.Cleared?)
  }

  /** The schedule can be followed, at its end a job of key `k` stamped with `t` is still to be looked at, and whoever
      looks first runs its job unless that is older. */
  ghost predicate KeyGoesOn(env: Env, s: Sys, since: seq<SysAct>, qn: QName, k: string, t: int, earlier: Queue<Run>) {
    match RunSys(env, s, since)
    case None => false
    case Some(last) =>
      && qn in last.queues && Unseen(last.queues[qn], k, t)
      && forall w: nat, at :: w < |last.queues[qn].workers| && !last.queues[qn].workers[w].Idle?
                              && Key(last.queues[qn].workers[w]) == k ==>
                                RunsUnlessOlder(earlier, last.queues[qn], w, at)
  }

  lemma AwaitingGoesOn(env: Env, s: Sys, since: seq<SysAct>, qn: QName, k: string, t: int, earlier: Queue<Run>)
    requires qn in s.queues && Awaiting(s.queues[qn], k, t, Mark(earlier, k)) && Unread(env, s, since, qn, k)
    requires k in earlier.dedup ==> earlier.dedup[k].posted <= earlier.clock
    ensures KeyGoesOn(env, s, since, qn, k, t, earlier)
  {
    AwaitingRun(env, s, since, qn, k, t, Mark(earlier, k));
  }

  /** No key gets stuck: whatever happened to its key before, when a queue is at rest and a request that has missed
      enqueues its job there, then until somebody looks the key up the job stays, whatever the server does, and the
      first worker to look runs its job unless that was stamped before the last success of the key; so a job stamped
      since the queue was at rest is always run. */
  lemma MissIsRun(env: Env, s: Sys, i: nat, f: Faults, when: When, t: Task, since: seq<SysAct>)
    requires ValidEnv(env) && Reachable(env, s) && Shape(s) && SysEnabled(env, s, SysAct.Respond(i, f, when))
    requires s.requests[i].Missed? && f.enqueueOk
    requires t == MissTask(s.requests[i].r, s.requests[i].rt, s.requests[i].selected) && Quiescent(s.queues[QueueOf(t)])
    requires Unread(env, SysNext(env, s, SysAct.Respond(i, f, when)), since, QueueOf(t), DedupingKey(t))
    ensures KeyGoesOn(env, SysNext(env, s, SysAct.Respond(i, f, when)), since, QueueOf(t), DedupingKey(t), when.read,
                      s.queues[QueueOf(t)])
  {
    ReachableInv(env, s);
    var quiet := s.queues[QueueOf(t)];
    assert QueueOk(env, s.store, quiet);
    QuiescentFresh(quiet, DedupingKey(t));
    PostedAwaits(quiet, t, when);
    AwaitingGoesOn(env, SysNext(env, s, SysAct.Respond(i, f, when)), since, QueueOf(t), DedupingKey(t), when.read,
                   quiet);
  }

  lemma PostedAwaits(q: Queue<Run>, t: Task, when: When)
    requires Enabled(q, Action.Post(t, when)) && Fresh(q, DedupingKey(t), Mark(q, DedupingKey(t)))
    ensures Awaiting(Next(q, Action.Post(t, when)), DedupingKey(t), when.read, Mark(q, DedupingKey(t)))
  {
    var q' := Next(q, Action.Post(t, when));
    FreshStep(q, Action.Post(t, when), DedupingKey(t), Mark(q, DedupingKey(t)));
    JobRoundTrip(t);
    assert q'.pending[|q.pending|] == Msg(when.read, Job(t));
    assert UnseenMsg(q', q'.pending[|q.pending|], DedupingKey(t), when.read);
  }
}
