/** Release jobs are well formed, and no runner panics, in every run in which a repository that is used for releases is
    used for nothing else. */
module ReleaseJobs {
  import opened Types
  import opened Archives
  import opened Paging
  import opened Listings
  import opened ReleaseIds
  import opened Tasks
  import opened ReadPath
  import opened Runners
  import opened DedupQueue
  import opened System

  /** The types a repository is used with, by its key. */
  type RepoTypes = string -> set<RepoType>

  /** A repository that is used for releases is used for nothing else. */
  ghost predicate ReleasesApart(types: RepoTypes) {
    forall r: Repo :: Apart(types, RepoString(r))
  }

  predicate Apart(types: RepoTypes, key: string) {
    ReleaseRepo in types(key) ==> types(key) == {ReleaseRepo}
  }

  /** Requests and the packages hook use a repository with its types, and the ids the server lists are 64-bit
      integers. */
  ghost predicate TypedAct(types: RepoTypes, act: SysAct) {
    match act
    case Hook(repo, _) => PackageRepo in types(RepoString(repo))
    case Ask(r, rt) => rt in types(RepoString(r.repo))
    case Work(_, _, ra, _) => RealIds(ra)
    case _ => true
  }

  ghost predicate RealIds(ra: RunAct) {
    ra.List? && ra.listing.Some? && ra.listing.value.Releases? ==> Int64Ids(ra.listing.value.releases)
  }

  ghost predicate TypedActs(types: RepoTypes, acts: seq<SysAct>) {
    forall k :: 0 <= k < |acts| ==> TypedAct(types, acts[k])
  }

  ghost predicate TypedVersions(kind: RepoType, versions: seq<Version>) {
    kind == ReleaseRepo ==> forall v :: v in versions ==> CarriesIds(v)
  }

  ghost predicate TypedTask(types: RepoTypes, t: Task) {
    && t.kind in types(RepoString(t.repo))
    && (t.FetchVersion? ==> TypedVersions(t.kind, [t.version]))
  }

  ghost predicate TypedStore(types: RepoTypes, s: Store) {
    forall key :: key in s.repos && ReleaseRepo in types(key) ==> TypedVersions(ReleaseRepo, s.repos[key].versions)
  }

  ghost predicate TypedRun(t: Task, run: Run) {
    match run
    case VPanicked => false
    case RStore(info, _) => TypedVersions(t.kind, info.versions)
    case REnqueue(rest) => TypedVersions(t.kind, rest)
    case _ => true
  }

  ghost predicate TypedReq(types: RepoTypes, req: Req) {
    match req
    case Asked(r, rt) => rt in types(RepoString(r.repo))
    case Missed(r, rt, selected) => rt in types(RepoString(r.repo))
                                    && (selected.Some? ==> TypedVersions(rt, [selected.value]))
    case Chosen(r, rt, _, v) => rt in types(RepoString(r.repo)) && TypedVersions(rt, [v])
    case _ => true
  }

  ghost predicate TypedQueue(types: RepoTypes, q: Queue<Run>) {
    && (forall i :: 0 <= i < |q.pending| ==>
                      var t := ParseJob(q.name, q.pending[i].job); t.Some? ==> TypedTask(types, t.value))
    && (forall w :: 0 <= w < |q.workers| && !q.workers[w].Idle? ==> TypedTask(types, q.workers[w].task))
    && (forall w :: 0 <= w < |q.workers| && q.workers[w].Running? ==> TypedRun(q.workers[w].task, q.workers[w].run))
  }

  ghost predicate TypedSys(types: RepoTypes, s: Sys) {
    && TypedStore(types, s.store) && (forall q: QName :: q in s.queues ==> TypedQueue(types, s.queues[q]))
    && (forall i :: 0 <= i < |s.requests| ==> TypedReq(types, s.requests[i]))
  }

  /** The release ids of `v` parse to 64-bit integers, and formatting those gives the strings it carries. */
  predicate WellFormedIds(v: Version) {
    var ids := ReadIds(v);
    ids.Ids? && Int64(ids.release) && Int64(ids.attachment) && HasIds(v, ids.release, ids.attachment)
  }

  /** A version that carries ids is read back without panic or error, to the ids it was made from. */
  lemma CarriedIdsAreRead(v: Version)
    requires CarriesIds(v)
    ensures WellFormedIds(v)
    ensures forall id, attachment :: Int64(id) && Int64(attachment) && HasIds(v, id, attachment) ==>
              ReadIds(v) == Ids(id, attachment)
  {
    var id, attachment :| Int64(id) && Int64(attachment) && HasIds(v, id, attachment);
    IdRoundTrip(id);
    IdRoundTrip(attachment);
    forall i, a | Int64(i) && Int64(a) && HasIds(v, i, a)
      ensures ReadIds(v) == Ids(i, a)
    {
      IdRoundTrip(i);
      IdRoundTrip(a);
    }
  }

  lemma ListedTyped(t: Task, listing: Listing, sorted: seq<Version>)
    requires t.FetchRepo? && ListingKind(listing) == t.kind && VersionsOf(listing, t.repo.repo).Some?
    requires SortOf(sorted, VersionsOf(listing, t.repo.repo).value)
             && (listing.Releases? ==> Int64Ids(listing.releases))
    ensures TypedVersions(t.kind, sorted)
  {
    SortOfMembers(sorted, VersionsOf(listing, t.repo.repo).value);
    if t.kind == ReleaseRepo {
      forall v | v in sorted
        ensures CarriesIds(v)
      {
        ReleaseVersionsCarryIds(listing.releases, v);
      }
    }
  }

  lemma TypedRunStep(env: Env, types: RepoTypes, t: Task, s: Store, run: Run, act: RunAct)
    requires RunEnabled(env, t, run, act) && TypedTask(types, t) && TypedRun(t, run) && TypedStore(types, s)
    requires RealIds(act) && Apart(types, RepoString(t.repo))
    ensures var r := RunStep(env, t, s, run, act);
            && TypedRun(t, r.run) && TypedStore(types, r.store) && (r.post.Some? ==> TypedTask(types, r.post.value))
  {
    match act
    case Fetch(_) =>
      if t.kind == ReleaseRepo {
        assert t.version in [t.version];
        CarriedIdsAreRead(t.version);
      }
    case List(listing, sorted) =>
      if listing.Some? && VersionsOf(listing.value, t.repo.repo).Some? {
        ListedTyped(t, listing.value, sorted);
      }
    case EnqueueNext(_) =>
      if run.rest != [] {
        assert run.rest[0] in run.rest;
      }
    case _ =>
  }

  lemma TypedReqStep(types: RepoTypes, s: Store, req: Req, f: Faults)
    requires TypedStore(types, s) && TypedReq(types, req)
    requires forall key :: key in s.repos ==> Canonical(s.repos[key])
    ensures var r := ReqStep(s, req, f); TypedReq(types, r.req) && (r.post.Some? ==> TypedTask(types, r.post.value))
  {
    if req.Asked? && RepoString(req.r.repo) in s.repos {
      var info := s.repos[RepoString(req.r.repo)];
      assert info.latest in info.versions;
    }
  }

  /** Jobs put in a queue come out with the same key, so with the same type. */
  lemma TypedPost(types: RepoTypes, q: Queue<Run>, t: Task, when: When)
    requires TypedQueue(types, q) && TypedTask(types, t) && Enabled(q, Action.Post(t, when))
    ensures TypedQueue(types, Next(q, Action.Post(t, when)))
  {
    JobRoundTrip(t);
    if t.FetchRepo? {
      var s := RepoString(t.repo);
      var (owner, repo) := Cut(s, '/').value;
      assert owner + ['/'] + repo == owner + "/" + repo;
    }
  }

  lemma TypedTake(types: RepoTypes, q: Queue<Run>, w: nat, i: nat, at: int)
    requires TypedQueue(types, q) && ConsumeEnabled(q, Action.Take(w, i, at))
    ensures TypedQueue(types, Next(q, Action.Take(w, i, at)))
  {
    var q' := Next(q, Action.Take(w, i, at));
    assert forall k :: 0 <= k < |q'.pending| ==> q'.pending[k] == q.pending[if k < i then k else k + 1];
  }

  lemma TypedConsume(types: RepoTypes, q: Queue<Run>, a: Action<Run>)
    requires TypedQueue(types, q) && ConsumeEnabled(q, a)
    ensures TypedQueue(types, Next(q, a))
  {
    if a.Take? {
      TypedTake(types, q, a.w, a.i, a.at);
    } else {
      assert Next(q, a).pending == q.pending;
    }
  }

  lemma TypedPostTo(types: RepoTypes, s: Sys, post: Option<Task>, when: When)
    requires Shape(s) && TypedSys(types, s) && (post.Some? ==> TypedTask(types, post.value))
    requires post.Some? ==> Enabled(s.queues[QueueOf(post.value)], Action.Post(post.value, when))
    ensures TypedSys(types, PostTo(s, post, when))
  {
    if post.Some? {
      TypedPost(types, s.queues[QueueOf(post.value)], post.value, when);
    }
  }

  lemma TypedWork(env: Env, types: RepoTypes, s: Sys, q: QName, w: nat, ra: RunAct, when: When)
    requires Shape(s) && TypedSys(types, s) && ReleasesApart(types)
    requires SysEnabled(env, s, SysAct.Work(q, w, ra, when)) && TypedAct(types, SysAct.Work(q, w, ra, when))
    ensures TypedSys(types, SysNext(env, s, SysAct.Work(q, w, ra, when)))
  {
    var worker := s.queues[q].workers[w];
    assert Apart(types, RepoString(worker.task.repo));
    TypedRunStep(env, types, worker.task, s.store, worker.run, ra);
    var r := RunStep(env, worker.task, s.store, worker.run, ra);
    var q' := Next(s.queues[q], Action.Work(w, r.run));
    assert TypedQueue(types, q');
    TypedPostTo(types, AfterRunner(s, q, w, r), r.post, when);
  }

  lemma TypedRespond(env: Env, types: RepoTypes, s: Sys, i: nat, f: Faults, when: When)
    requires SysInv(env, s) && TypedSys(types, s) && SysEnabled(env, s, SysAct.Respond(i, f, when))
    ensures TypedSys(types, SysNext(env, s, SysAct.Respond(i, f, when)))
  {
    var r := ReqStep(s.store, s.requests[i], f);
    TypedReqStep(types, s.store, s.requests[i], f);
    TypedPostTo(types, s.(requests := s.requests[i := r.req]), r.post, when);
  }

  lemma TypedBoot(types: RepoTypes, store: Store, n: nat, clock: int)
    requires TypedStore(types, store)
    ensures TypedSys(types, Boot(store, n, clock))
  {
  }

  lemma TypedStep(env: Env, types: RepoTypes, s: Sys, act: SysAct)
    requires SysInv(env, s) && TypedSys(types, s) && SysEnabled(env, s, act) && TypedAct(types, act)
             && ReleasesApart(types)
    ensures TypedSys(types, SysNext(env, s, act))
  {
    match act
    case Hook(repo, when) => TypedPostTo(types, s, Some(FetchRepo(PackageRepo, repo)), when);
    case Respond(i, f, when) => TypedRespond(env, types, s, i, f, when);
    case Consume(q, a) => TypedConsume(types, s.queues[q], a);
    case Work(q, w, ra, when) => TypedWork(env, types, s, q, w, ra, when);
    case Ask(_, _) =>
    case Crash(n, clock) => TypedBoot(types, s.store, n, clock);
  }

  lemma {:induction false} TypedRunSys(env: Env, types: RepoTypes, s: Sys, acts: seq<SysAct>)
    requires ValidEnv(env) && SysInv(env, s) && TypedSys(types, s) && RunSys(env, s, acts).Some?
    requires ReleasesApart(types) && TypedActs(types, acts)
    ensures SysInv(env, RunSys(env, s, acts).value) && TypedSys(types, RunSys(env, s, acts).value)
    decreases acts
  {
    if acts != [] {
      SysStep(env, s, acts[0]);
      TypedStep(env, types, s, acts[0]);
      TypedRunSys(env, types, SysNext(env, s, acts[0]), acts[1..]);
    }
  }

  lemma TypedReach(env: Env, types: RepoTypes, n: nat, clock: int, acts: seq<SysAct>, s: Sys)
    requires ValidEnv(env) && RunSys(env, Boot(EMPTY_STORE, n, clock), acts) == Some(s)
    requires ReleasesApart(types) && TypedActs(types, acts)
    ensures SysInv(env, s) && TypedSys(types, s)
  {
    BootInv(env, EMPTY_STORE, n, clock);
    TypedBoot(types, EMPTY_STORE, n, clock);
    TypedRunSys(env, types, Boot(EMPTY_STORE, n, clock), acts);
  }

  /** Every queued release job, as the consumer will parse it, is well formed. */
  predicate WellFormedJobs(q: Queue<Run>) {
    forall i :: 0 <= i < |q.pending| ==>
                  var t := ParseJob(q.name, q.pending[i].job);
                  t.Some? && t.value.FetchVersion? && t.value.kind == ReleaseRepo ==> WellFormedIds(t.value.version)
  }

  predicate NoPanic(q: Queue<Run>) {
    forall w :: 0 <= w < |q.workers| && q.workers[w].Running? ==> !q.workers[w].run.VPanicked?
  }

  lemma TypedQueueWellFormed(types: RepoTypes, q: Queue<Run>)
    requires TypedQueue(types, q)
    ensures WellFormedJobs(q) && NoPanic(q)
  {
    forall i | 0 <= i < |q.pending|
      ensures var t := ParseJob(q.name, q.pending[i].job);
              t.Some? && t.value.FetchVersion? && t.value.kind == ReleaseRepo ==> WellFormedIds(t.value.version)
    {
      var t := ParseJob(q.name, q.pending[i].job);
      if t.Some? && t.value.FetchVersion? && t.value.kind == ReleaseRepo {
        assert t.value.version in [t.value.version];
        CarriedIdsAreRead(t.value.version);
      }
    }
  }

  /** In every run in which a repository used for releases is used for nothing else, every queued release job carries
      two ids that parse back to the 64-bit integers they were made from, and no runner ever fails its type
      assertion. */
  lemma ReleaseJobsWellFormed(env: Env, types: RepoTypes, n: nat, clock: int, acts: seq<SysAct>)
    requires ValidEnv(env) && RunSys(env, Boot(EMPTY_STORE, n, clock), acts).Some?
    requires ReleasesApart(types) && TypedActs(types, acts)
    ensures var s := RunSys(env, Boot(EMPTY_STORE, n, clock), acts).value;
            forall q: QName :: q in s.queues && WellFormedJobs(s.queues[q]) && NoPanic(s.queues[q])
  {
    var s := RunSys(env, Boot(EMPTY_STORE, n, clock), acts).value;
    TypedReach(env, types, n, clock, acts, s);
    forall q: QName
      ensures q in s.queues && WellFormedJobs(s.queues[q]) && NoPanic(s.queues[q])
    {
      TypedQueueWellFormed(types, s.queues[q]);
    }
  }

  /** A version listed from packages makes a release runner panic. */
  lemma PackageVersionPanicsReleaseRunner(env: Env, packages: seq<Package>, repo: Repo, v: Version,
          zip: Option<seq<Entry>>)
    requires VersionsOf(Packages(packages), repo.repo).Some? && v in VersionsOf(Packages(packages), repo.repo).value
    ensures AfterFetch(env, FetchVersion(ReleaseRepo, repo, v), zip) == VPanicked
  {
    PackageVersionsLackIds(packages, repo.repo, v);
  }

  lemma {:induction false} PackageVersionsLackIds(packages: seq<Package>, repo: string, v: Version)
    requires FilterMap(packages, PackageItems(repo)).Some? && v in FilterMap(packages, PackageItems(repo)).value
    ensures v.extra == map[]
  {
    if v !in PackageItem(packages[0], repo).value {
      PackageVersionsLackIds(packages[1..], repo, v);
    }
  }
}
