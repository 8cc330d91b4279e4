/** Where stored records and answers come from: the listing that a step of the run has brought, and the record that a
    step of the request has read. */
module Provenance {
  import opened Types
  import opened Archives
  import opened Listings
  import opened Tasks
  import opened ReadPath
  import opened Runners
  import opened DedupQueue
  import opened System

  // ---------------------------------------------------------------- records come from listings

  /** Step `k` of the run is a fetch of the repository in which `listing` was brought and sorted into the record. */
  ghost predicate ListedAt(env: Env, boot: Sys, acts: seq<SysAct>, k: nat, info: RepoInfo, listing: Listing) {
    && k < |acts| && acts[k].Work? && acts[k].act == List(Some(listing), info.versions)
    && RunSys(env, boot, acts[..k]).Some?
    && var (s, q, w) := (RunSys(env, boot, acts[..k]).value, acts[k].q, acts[k].w);
       && q in s.queues && w < |s.queues[q].workers| && s.queues[q].workers[w].Running?
       && s.queues[q].workers[w].task == FetchRepo(ListingKind(listing), info.repo)
  }

  ghost predicate Listed(env: Env, boot: Sys, acts: seq<SysAct>, info: RepoInfo, listing: Listing) {
    exists k: nat :: ListedAt(env, boot, acts, k, info, listing)
  }

  ghost predicate RunListed(env: Env, boot: Sys, acts: seq<SysAct>, w: Worker<Run>) {
    w.Running? && w.run.RStore? ==> Listed(env, boot, acts, w.run.info, w.run.source)
  }

  ghost predicate RecordsListed(env: Env, boot: Sys, acts: seq<SysAct>, s: Store) {
    forall record :: record in s.records ==> Listed(env, boot, acts, record.info, record.listing)
  }

  ghost predicate QueueListed(env: Env, boot: Sys, acts: seq<SysAct>, q: Queue<Run>) {
    forall w :: 0 <= w < |q.workers| ==> RunListed(env, boot, acts, q.workers[w])
  }

  ghost predicate AllListed(env: Env, boot: Sys, acts: seq<SysAct>, s: Sys) {
    && RecordsListed(env, boot, acts, s.store)
    && forall q: QName :: q in s.queues ==> QueueListed(env, boot, acts, s.queues[q])
  }

  lemma ListedLater(env: Env, boot: Sys, acts: seq<SysAct>, a: SysAct, info: RepoInfo, listing: Listing)
    requires Listed(env, boot, acts, info, listing)
    ensures Listed(env, boot, acts + [a], info, listing)
  {
    var k: nat :| ListedAt(env, boot, acts, k, info, listing);
    assert (acts + [a])[..k] == acts[..k];
    assert ListedAt(env, boot, acts + [a], k, info, listing);
  }

  lemma AllListedLater(env: Env, boot: Sys, acts: seq<SysAct>, a: SysAct, s: Sys)
    requires AllListed(env, boot, acts, s)
    ensures AllListed(env, boot, acts + [a], s)
  {
    forall info, listing | Listed(env, boot, acts, info, listing)
      ensures Listed(env, boot, acts + [a], info, listing)
    {
      ListedLater(env, boot, acts, a, info, listing);
    }
  }

  lemma PostListed(env: Env, boot: Sys, acts: seq<SysAct>, s: Sys, post: Option<Task>, when: When)
    requires AllListed(env, boot, acts, s)
    requires post.Some? ==>
               QueueOf(post.value) in s.queues && Enabled(s.queues[QueueOf(post.value)], Action.Post(post.value, when))
    ensures AllListed(env, boot, acts, PostTo(s, post, when))
  {
    if post.Some? {
      assert QueueListed(env, boot, acts, s.queues[QueueOf(post.value)]);
    }
  }

  /** The runner's step: a listing that it has just brought was brought by this step, and a record that it has just
      stored was made from a listing brought before. */
  lemma RunStepListed(env: Env, boot: Sys, acts: seq<SysAct>, s: Sys, q: QName, w: nat, ra: RunAct, when: When)
    requires Shape(s) && AllListed(env, boot, acts, s) && RunSys(env, boot, acts) == Some(s)
    requires SysEnabled(env, s, SysAct.Work(q, w, ra, when))
    ensures var (worker, acts') := (s.queues[q].workers[w], acts + [SysAct.Work(q, w, ra, when)]);
            var r := RunStep(env, worker.task, s.store, worker.run, ra);
            RecordsListed(env, boot, acts', r.store) && RunListed(env, boot, acts', worker.(run := r.run))
  {
    var act := SysAct.Work(q, w, ra, when);
    var worker := s.queues[q].workers[w];
    var r := RunStep(env, worker.task, s.store, worker.run, ra);
    AllListedLater(env, boot, acts, act, s);
    assert QueueListed(env, boot, acts + [act], s.queues[q]);
    StoredListed(env, boot, acts + [act], s.store, worker, ra);
    if r.run.RStore? {
      ListsNow(env, boot, acts, s, q, w, ra, when);
    }
  }

  lemma StoredListed(env: Env, boot: Sys, acts: seq<SysAct>, s: Store, worker: Worker<Run>, ra: RunAct)
    requires worker.Running? && RunEnabled(env, worker.task, worker.run, ra)
    requires RecordsListed(env, boot, acts, s) && RunListed(env, boot, acts, worker)
    ensures RecordsListed(env, boot, acts, RunStep(env, worker.task, s, worker.run, ra).store)
  {
  }

  lemma ListsNow(env: Env, boot: Sys, acts: seq<SysAct>, s: Sys, q: QName, w: nat, ra: RunAct, when: When)
    requires Shape(s) && RunSys(env, boot, acts) == Some(s) && SysEnabled(env, s, SysAct.Work(q, w, ra, when))
    requires var worker := s.queues[q].workers[w]; RunStep(env, worker.task, s.store, worker.run, ra).run.RStore?
    ensures var worker := s.queues[q].workers[w];
            var run := RunStep(env, worker.task, s.store, worker.run, ra).run;
            Listed(env, boot, acts + [SysAct.Work(q, w, ra, when)], run.info, run.source)
  {
    var worker := s.queues[q].workers[w];
    var run := RunStep(env, worker.task, s.store, worker.run, ra).run;
    var acts' := acts + [SysAct.Work(q, w, ra, when)];
    assert acts'[..|acts|] == acts;
    assert ListedAt(env, boot, acts', |acts|, run.info, run.source);
  }

  lemma WorkListed(env: Env, boot: Sys, acts: seq<SysAct>, s: Sys, q: QName, w: nat, ra: RunAct, when: When)
    requires Shape(s) && AllListed(env, boot, acts, s) && RunSys(env, boot, acts) == Some(s)
    requires SysEnabled(env, s, SysAct.Work(q, w, ra, when))
    ensures AllListed(env, boot, acts + [SysAct.Work(q, w, ra, when)], SysNext(env, s, SysAct.Work(q, w, ra, when)))
  {
    var act := SysAct.Work(q, w, ra, when);
    RunStepListed(env, boot, acts, s, q, w, ra, when);
    AllListedLater(env, boot, acts, act, s);
    var worker := s.queues[q].workers[w];
    var r := RunStep(env, worker.task, s.store, worker.run, ra);
    var q' := Next(s.queues[q], Action.Work(w, r.run));
    assert QueueListed(env, boot, acts + [act], s.queues[q]);
    assert QueueListed(env, boot, acts + [act], q');
    PostListed(env, boot, acts + [act], AfterRunner(s, q, w, r), r.post, when);
  }

  lemma ConsumeListed(env: Env, boot: Sys, acts: seq<SysAct>, q: Queue<Run>, a: Action<Run>)
    requires QueueListed(env, boot, acts, q) && ConsumeEnabled(q, a)
    ensures QueueListed(env, boot, acts, Next(q, a))
  {
    var q' := Next(q, a);
    forall w | 0 <= w < |q'.workers|
      ensures RunListed(env, boot, acts, q'.workers[w])
    {
      assert RunListed(env, boot, acts, q.workers[w]);
    }
  }

  lemma StepListed(env: Env, boot: Sys, acts: seq<SysAct>, s: Sys, act: SysAct)
    requires Shape(s) && AllListed(env, boot, acts, s) && RunSys(env, boot, acts) == Some(s) && SysEnabled(env, s, act)
    ensures AllListed(env, boot, acts + [act], SysNext(env, s, act))
  {
    AllListedLater(env, boot, acts, act, s);
    match act
    case Hook(repo, when) => PostListed(env, boot, acts + [act], s, Some(FetchRepo(PackageRepo, repo)), when);
    case Ask(_, _) =>
    case Respond(i, f, when) =>
      var r := ReqStep(s.store, s.requests[i], f);
      PostListed(env, boot, acts + [act], s.(requests := s.requests[i := r.req]), r.post, when);
    case Consume(q, a) => ConsumeListed(env, boot, acts + [act], s.queues[q], a);
    case Work(q, w, ra, when) => WorkListed(env, boot, acts, s, q, w, ra, when);
    case Crash(_, _) =>
  }

  // ---------------------------------------------------------------- answers come from records that were read

  /** Step `k` of the run is the first step of request `i`, it found the record, and no crash has come since. */
  ghost predicate ReadAt(env: Env, boot: Sys, acts: seq<SysAct>, k: nat, i: nat, r: RepoFileAtVersion, rt: RepoType,
                         info: RepoInfo)
  {
    && k < |acts| && acts[k].Respond? && acts[k].i == i && RunSys(env, boot, acts[..k]).Some?
    && (forall m :: k <= m < |acts| ==> !acts[m].Crash?)
    && var s := RunSys(env, boot, acts[..k]).value;
       && i < |s.requests| && s.requests[i] == Asked(r, rt)
       && RepoString(r.repo) in s.store.repos && s.store.repos[RepoString(r.repo)] == info
  }

  ghost predicate HasRead(env: Env, boot: Sys, acts: seq<SysAct>, i: nat, r: RepoFileAtVersion, rt: RepoType,
                          info: RepoInfo) {
    exists k: nat :: ReadAt(env, boot, acts, k, i, r, rt, info)
  }

  /** What the request selected, it selected in a record that it has read. */
  ghost predicate HasSelected(env: Env, boot: Sys, acts: seq<SysAct>, i: nat, r: RepoFileAtVersion, rt: RepoType,
                              selected: Option<Version>)
  {
    exists info :: HasRead(env, boot, acts, i, r, rt, info) && SelectVersion(info, r.version) == selected
  }

  ghost predicate RequestRead(env: Env, boot: Sys, acts: seq<SysAct>, i: nat, req: Req) {
    match req
    case Asked(_, _) => true
    case Chosen(r, rt, info, v) => HasSelected(env, boot, acts, i, r, rt, Some(v))
    case Located(r, rt, info, v, _) => HasSelected(env, boot, acts, i, r, rt, Some(v))
    case Missed(r, rt, selected) => selected.Some? ==> HasSelected(env, boot, acts, i, r, rt, selected)
    case Answered(r, rt, selected, answer) =>
      selected.Some? || answer == VersionNotFound ==> HasSelected(env, boot, acts, i, r, rt, selected)
  }

  ghost predicate AllRead(env: Env, boot: Sys, acts: seq<SysAct>, s: Sys) {
    forall i: nat :: i < |s.requests| ==> RequestRead(env, boot, acts, i, s.requests[i])
  }

  lemma ReadLater(env: Env, boot: Sys, acts: seq<SysAct>, a: SysAct, i: nat, req: Req)
    requires RequestRead(env, boot, acts, i, req) && !a.Crash?
    ensures RequestRead(env, boot, acts + [a], i, req)
  {
    forall r, rt, info | HasRead(env, boot, acts, i, r, rt, info)
      ensures HasRead(env, boot, acts + [a], i, r, rt, info)
    {
      var k: nat :| ReadAt(env, boot, acts, k, i, r, rt, info);
      assert (acts + [a])[..k] == acts[..k];
      assert ReadAt(env, boot, acts + [a], k, i, r, rt, info);
    }
  }

  /** The first step of a request reads the record. */
  lemma FirstRead(env: Env, boot: Sys, acts: seq<SysAct>, s: Sys, i: nat, f: Faults, when: When)
    requires RunSys(env, boot, acts) == Some(s) && i < |s.requests| && s.requests[i].Asked?
    requires RepoString(s.requests[i].r.repo) in s.store.repos
    ensures var (r, rt) := (s.requests[i].r, s.requests[i].rt);
            HasRead(env, boot, acts + [SysAct.Respond(i, f, when)], i, r, rt, s.store.repos[RepoString(r.repo)])
  {
    var act := SysAct.Respond(i, f, when);
    var (r, rt) := (s.requests[i].r, s.requests[i].rt);
    assert (acts + [act])[..|acts|] == acts;
    assert ReadAt(env, boot, acts + [act], |acts|, i, r, rt, s.store.repos[RepoString(r.repo)]);
  }

  /** Later steps of a request keep to what it has selected. */
  lemma SelectionKept(env: Env, boot: Sys, acts: seq<SysAct>, s: Store, i: nat, req: Req, f: Faults)
    requires RequestRead(env, boot, acts, i, req) && !req.Asked?
    ensures RequestRead(env, boot, acts, i, ReqStep(s, req, f).req)
  {
  }

  lemma FirstSelection(env: Env, boot: Sys, acts: seq<SysAct>, s: Store, i: nat, req: Req, f: Faults)
    requires req.Asked?
    requires RepoString(req.r.repo) in s.repos ==>
               HasRead(env, boot, acts, i, req.r, req.rt, s.repos[RepoString(req.r.repo)])
    ensures RequestRead(env, boot, acts, i, ReqStep(s, req, f).req)
  {
    if RepoString(req.r.repo) in s.repos {
      var info := s.repos[RepoString(req.r.repo)];
      assert HasSelected(env, boot, acts, i, req.r, req.rt, SelectVersion(info, req.r.version));
    }
  }

  lemma RespondRead(env: Env, boot: Sys, acts: seq<SysAct>, s: Sys, i: nat, f: Faults, when: When)
    requires Shape(s) && AllRead(env, boot, acts, s) && RunSys(env, boot, acts) == Some(s)
    requires SysEnabled(env, s, SysAct.Respond(i, f, when))
    ensures RequestRead(env, boot, acts + [SysAct.Respond(i, f, when)], i, ReqStep(s.store, s.requests[i], f).req)
  {
    var act := SysAct.Respond(i, f, when);
    if s.requests[i].Asked? {
      if RepoString(s.requests[i].r.repo) in s.store.repos {
        FirstRead(env, boot, acts, s, i, f, when);
      }
      FirstSelection(env, boot, acts + [act], s.store, i, s.requests[i], f);
    } else {
      ReadLater(env, boot, acts, act, i, s.requests[i]);
      SelectionKept(env, boot, acts + [act], s.store, i, s.requests[i], f);
    }
  }

  lemma StepRead(env: Env, boot: Sys, acts: seq<SysAct>, s: Sys, act: SysAct)
    requires Shape(s) && AllRead(env, boot, acts, s) && RunSys(env, boot, acts) == Some(s) && SysEnabled(env, s, act)
    ensures AllRead(env, boot, acts + [act], SysNext(env, s, act))
  {
    if !act.Crash? {
      forall i: nat | i < |SysNext(env, s, act).requests|
        ensures RequestRead(env, boot, acts + [act], i, SysNext(env, s, act).requests[i])
      {
        if act.Respond? && i == act.i {
          RespondRead(env, boot, acts, s, i, act.f, act.when);
        } else if i < |s.requests| {
          ReadLater(env, boot, acts, act, i, s.requests[i]);
        }
      }
    }
  }

  // ---------------------------------------------------------------- over all runs

  lemma {:induction false} RunProvenance(env: Env, boot: Sys, done: seq<SysAct>, s: Sys, acts: seq<SysAct>)
    requires RunSys(env, boot, done) == Some(s) && RunSys(env, s, acts).Some?
    requires AllListed(env, boot, done, s) && AllRead(env, boot, done, s)
    ensures AllListed(env, boot, done + acts, RunSys(env, s, acts).value)
    ensures AllRead(env, boot, done + acts, RunSys(env, s, acts).value)
    decreases acts
  {
    if acts == [] {
      assert done + acts == done;
    } else {
      var act := acts[0];
      StepListed(env, boot, done, s, act);
      StepRead(env, boot, done, s, act);
      RunSysConcat(env, boot, done, [act]);
      assert [act][1..] == [];
      assert done + acts == (done + [act]) + acts[1..];
      RunProvenance(env, boot, done + [act], SysNext(env, s, act), acts[1..]);
    }
  }

  lemma BootProvenance(env: Env, n: nat, clock: int, acts: seq<SysAct>)
    requires RunSys(env, Boot(EMPTY_STORE, n, clock), acts).Some?
    ensures AllListed(env, Boot(EMPTY_STORE, n, clock), acts, RunSys(env, Boot(EMPTY_STORE, n, clock), acts).value)
    ensures AllRead(env, Boot(EMPTY_STORE, n, clock), acts, RunSys(env, Boot(EMPTY_STORE, n, clock), acts).value)
  {
    var boot := Boot(EMPTY_STORE, n, clock);
    RunProvenance(env, boot, [], boot, acts);
    assert [] + acts == acts;
  }

  /** Every stored repository record is canonical: it is under its own key, its versions are a non-empty newest-first
      permutation of the filtered listing that a step of this run has brought for this repository, and its latest
      version is a newest one. */
  lemma RecordsCanonical(env: Env, n: nat, clock: int, acts: seq<SysAct>, key: string)
    requires ValidEnv(env) && RunSys(env, Boot(EMPTY_STORE, n, clock), acts).Some?
    requires key in RunSys(env, Boot(EMPTY_STORE, n, clock), acts).value.store.repos
    ensures var info := RunSys(env, Boot(EMPTY_STORE, n, clock), acts).value.store.repos[key];
            && key == RepoString(info.repo) && info.versions != [] && NewestFirst(info.versions)
            && SelectVersion(info, "") == Some(info.versions[0])
            && (forall v :: v in info.versions ==> v.createdAt <= info.latest.createdAt)
            && exists k: nat, listing ::
                 && ListedAt(env, Boot(EMPTY_STORE, n, clock), acts, k, info, listing)
                 && VersionsOf(listing, info.repo.repo).Some?
                 && SortOf(info.versions, VersionsOf(listing, info.repo.repo).value)
  {
    var boot := Boot(EMPTY_STORE, n, clock);
    var s := RunSys(env, boot, acts).value;
    assert Reachable(env, s);
    ReachableInv(env, s);
    BootProvenance(env, n, clock, acts);
    var info := s.store.repos[key];
    var listing :| Record(info, listing) in s.store.records;
    var record := Record(info, listing);
    assert StoredFrom(record.info, record.listing) && Listed(env, boot, acts, record.info, record.listing);
    var k: nat :| ListedAt(env, boot, acts, k, info, listing);
  }

  /** Every answer about a version is about the one that the request selected in the record that was stored for its
      repository at the moment when the request read it, whatever has been stored since. */
  lemma AnsweredFromRecordRead(env: Env, n: nat, clock: int, acts: seq<SysAct>, i: nat)
    requires RunSys(env, Boot(EMPTY_STORE, n, clock), acts).Some?
    requires var s := RunSys(env, Boot(EMPTY_STORE, n, clock), acts).value;
             && i < |s.requests| && s.requests[i].Answered?
             && (s.requests[i].selected.Some? || s.requests[i].answer == VersionNotFound)
    ensures var req := RunSys(env, Boot(EMPTY_STORE, n, clock), acts).value.requests[i];
            exists k: nat, info :: ReadAt(env, Boot(EMPTY_STORE, n, clock), acts, k, i, req.r, req.rt, info)
                                   && SelectVersion(info, req.r.version) == req.selected
  {
    BootProvenance(env, n, clock, acts);
    var boot := Boot(EMPTY_STORE, n, clock);
    var req := RunSys(env, boot, acts).value.requests[i];
    assert RequestRead(env, boot, acts, i, req);
    var info :| HasRead(env, boot, acts, i, req.r, req.rt, info) && SelectVersion(info, req.r.version) == req.selected;
    var k: nat :| ReadAt(env, boot, acts, k, i, req.r, req.rt, info);
  }
}
