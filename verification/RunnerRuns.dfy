/** Uninterrupted runners as runs of the step machine of `Runners`. */
module RunnerRuns {
  import opened Types
  import opened Archives
  import opened Unzipping = Unzip
  import opened UnzipSchedules
  import opened Listings
  import opened Tasks
  import opened ReadPath
  import opened Runners

  /** Where a runner's steps lead: the store, the runner's own state and the jobs enqueued on the way. */
  datatype Trace = Trace(store: Store, run: Run, posts: seq<Task>)

  function PostsOf(post: Option<Task>): seq<Task> {
    match post case None => [] case Some(t) => [t]
  }

  /** Follow a runner's steps; None if one of them was not possible. */
  ghost function RunAll(env: Env, t: Task, s: Store, run: Run, acts: seq<RunAct>): Option<Trace>
    decreases acts
  {
    if acts == [] then Some(Trace(s, run, []))
    else if RunEnabled(env, t, run, acts[0]) then
      var r := RunStep(env, t, s, run, acts[0]);
      match RunAll(env, t, r.store, r.run, acts[1..])
      case None => None
      case Some(rest) => Some(rest.(posts := PostsOf(r.post) + rest.posts))
    else None
  }

  lemma RunAllFirst(env: Env, t: Task, s: Store, run: Run, act: RunAct, rest: seq<RunAct>, last: Trace)
    requires RunEnabled(env, t, run, act)
    requires var r := RunStep(env, t, s, run, act); RunAll(env, t, r.store, r.run, rest) == Some(last)
    ensures RunAll(env, t, s, run, [act] + rest) ==
            Some(last.(posts := PostsOf(RunStep(env, t, s, run, act).post) + last.posts))
  {
    assert ([act] + rest)[1..] == rest;
  }

  /** A first step that enqueues nothing. */
  lemma QuietFirst(env: Env, t: Task, s: Store, run: Run, act: RunAct, rest: seq<RunAct>, last: Trace)
    requires RunEnabled(env, t, run, act) && RunStep(env, t, s, run, act).post == None
    requires var r := RunStep(env, t, s, run, act); RunAll(env, t, r.store, r.run, rest) == Some(last)
    ensures RunAll(env, t, s, run, [act] + rest) == Some(last)
  {
    RunAllFirst(env, t, s, run, act, rest, last);
    assert [] + last.posts == last.posts;
  }

  function UnzipActs(acts: seq<UnzipAct>): seq<RunAct> {
    if acts == [] then [] else [UnzipDo(acts[0])] + UnzipActs(acts[1..])
  }

  lemma UnzipActsFirst(acts: seq<UnzipAct>, rest: seq<RunAct>)
    requires acts != []
    ensures UnzipActs(acts) + rest == [UnzipDo(acts[0])] + (UnzipActs(acts[1..]) + rest)
  {
  }

  /** A schedule of the goroutines is a run of the version runner that is unpacking. */
  lemma {:induction false} UnzipRuns(env: Env, t: Task, s: Store, a: Archive, u: Unzipping.Unzip, acts: seq<UnzipAct>,
                                     rest: seq<RunAct>, last: Trace)
    requires t.FetchVersion? && RunFrom(env, a, Progress(u, s.data), acts).Some?
    requires var p := RunFrom(env, a, Progress(u, s.data), acts).value;
             RunAll(env, t, s.(data := p.data), VUnzip(a, p.u), rest) == Some(last)
    ensures RunAll(env, t, s, VUnzip(a, u), UnzipActs(acts) + rest) == Some(last)
    decreases acts
  {
    if acts == [] {
      assert UnzipActs(acts) + rest == rest;
      assert s.(data := s.data) == s;
    } else {
      var p := StepFrom(env, a, Progress(u, s.data), acts[0]).value;
      UnzipRuns(env, t, s.(data := p.data), a, p.u, acts[1..], rest, last);
      QuietFirst(env, t, s, VUnzip(a, u), UnzipDo(acts[0]), UnzipActs(acts[1..]) + rest, last);
      UnzipActsFirst(acts, rest);
    }
  }

  /** The end of a version run, when all goroutines have returned. */
  lemma WaitAndPublish(env: Env, t: Task, s: Store, a: Archive, u: Unzipping.Unzip,
                       publishOk: bool) returns (acts: seq<RunAct>)
    requires t.FetchVersion? && UnzipFinished(a, u)
    ensures RunAll(env, t, s, VUnzip(a, u), acts) ==
            Some(if u.failed || !publishOk then Trace(s, Done(false), [])
                 else Trace(s.(meta := s.meta[t.version.sha := u.files]), Done(true), []))
  {
    if u.failed {
      acts := [Wait];
      assert RunAll(env, t, s, Done(false), []) == Some(Trace(s, Done(false), []));
      QuietFirst(env, t, s, VUnzip(a, u), Wait, [], Trace(s, Done(false), []));
    } else {
      var published := RunStep(env, t, s, VPublish(u.files), Publish(publishOk));
      QuietFirst(env, t, s, VPublish(u.files), Publish(publishOk), [], Trace(published.store, published.run, []));
      QuietFirst(env, t, s, VUnzip(a, u), Wait, [Publish(publishOk)], Trace(published.store, published.run, []));
      acts := [Wait] + [Publish(publishOk)];
    }
  }

  /** A version run that ends before unpacking. */
  lemma EndsEarly(env: Env, t: Task, s: Store, zip: Option<seq<Entry>>, checkOk: bool) returns (acts: seq<RunAct>)
    requires t.FetchVersion? && Faithful(env, t.kind, t.version.sha, zip)
    requires !checkOk || t.version.sha == "" || t.version.sha in s.meta || !AfterFetch(env, t, zip).VUnzip?
    ensures RunAll(env, t, s, VCheck, acts) ==
            Some(Trace(s, if !checkOk || t.version.sha == "" then Done(false)
                          else if t.version.sha in s.meta then Done(true) else AfterFetch(env, t, zip), []))
  {
    var checked := RunStep(env, t, s, VCheck, Check(checkOk)).run;
    if checked.Done? {
      acts := [Check(checkOk)];
      QuietFirst(env, t, s, VCheck, Check(checkOk), [], Trace(s, checked, []));
    } else {
      var stop := AfterFetch(env, t, zip);
      QuietFirst(env, t, s, VFetch, Fetch(zip), [], Trace(s, stop, []));
      QuietFirst(env, t, s, VCheck, Check(checkOk), [Fetch(zip)], Trace(s, stop, []));
      acts := [Check(checkOk)] + [Fetch(zip)];
    }
  }

  /** The rest of a version run after its check, along any schedule of its goroutines. */
  lemma UnpacksFromFetch(env: Env, t: Task, s: Store, zip: Option<seq<Entry>>, trace: seq<UnzipAct>, publishOk: bool)
    returns (acts: seq<RunAct>)
    requires t.FetchVersion? && Faithful(env, t.kind, t.version.sha, zip) && AfterFetch(env, t, zip).VUnzip?
    requires var run := RunFrom(env, AfterFetch(env, t, zip).a, Progress(UNZIP_INIT, s.data), trace);
             run.Some? && UnzipFinished(AfterFetch(env, t, zip).a, run.value.u)
    ensures var p := RunFrom(env, AfterFetch(env, t, zip).a, Progress(UNZIP_INIT, s.data), trace).value;
            var s' := s.(data := p.data);
            RunAll(env, t, s, VFetch, acts) ==
            Some(if p.u.failed || !publishOk then Trace(s', Done(false), [])
                 else Trace(s'.(meta := s'.meta[t.version.sha := p.u.files]), Done(true), []))
  {
    var a := AfterFetch(env, t, zip).a;
    var p := RunFrom(env, a, Progress(UNZIP_INIT, s.data), trace).value;
    acts := WaitAndPublish(env, t, s.(data := p.data), a, p.u, publishOk);
    var last := RunAll(env, t, s.(data := p.data), VUnzip(a, p.u), acts).value;
    UnzipRuns(env, t, s, a, UNZIP_INIT, trace, acts, last);
    acts := UnzipActs(trace) + acts;
    QuietFirst(env, t, s, VFetch, Fetch(zip), acts, last);
    acts := [Fetch(zip)] + acts;
  }

  /** A version run that unpacks. */
  lemma Unpacks(env: Env, t: Task, s: Store, zip: Option<seq<Entry>>, trace: seq<UnzipAct>, publishOk: bool)
    returns (acts: seq<RunAct>)
    requires t.FetchVersion? && Faithful(env, t.kind, t.version.sha, zip)
    requires t.version.sha != "" && t.version.sha !in s.meta && AfterFetch(env, t, zip).VUnzip?
    requires var run := RunFrom(env, AfterFetch(env, t, zip).a, Progress(UNZIP_INIT, s.data), trace);
             run.Some? && UnzipFinished(AfterFetch(env, t, zip).a, run.value.u)
    ensures var p := RunFrom(env, AfterFetch(env, t, zip).a, Progress(UNZIP_INIT, s.data), trace).value;
            var s' := s.(data := p.data);
            RunAll(env, t, s, VCheck, acts) ==
            Some(if p.u.failed || !publishOk then Trace(s', Done(false), [])
                 else Trace(s'.(meta := s'.meta[t.version.sha := p.u.files]), Done(true), []))
  {
    acts := UnpacksFromFetch(env, t, s, zip, trace, publishOk);
    QuietFirst(env, t, s, VCheck, Check(true), acts, RunAll(env, t, s, VFetch, acts).value);
    acts := [Check(true)] + acts;
  }

  // ---------------------------------------------------------------- repository runs

  function VersionTasks(t: Task, versions: seq<Version>): seq<Task> {
    seq(|versions|, i requires 0 <= i < |versions| => FetchVersion(t.kind, t.repo, versions[i]))
  }

  /** What is enqueued when the first `accepted` jobs are not refused. */
  function Accepted(versions: seq<Version>, accepted: nat): seq<Version> {
    if accepted >= |versions| then versions else versions[..accepted]
  }

  function EnqueueActs(n: nat, accepted: nat): seq<RunAct> {
    if n == 0 then [EnqueueNext(true)]
    else if accepted == 0 then [EnqueueNext(false)]
    else [EnqueueNext(true)] + EnqueueActs(n - 1, accepted - 1)
  }

  lemma OneMoreTask(t: Task, v: Version, versions: seq<Version>)
    ensures VersionTasks(t, [v] + versions) == [FetchVersion(t.kind, t.repo, v)] + VersionTasks(t, versions)
  {
  }

  lemma {:induction false} EnqueueRuns(env: Env, t: Task, s: Store, rest: seq<Version>, accepted: nat)
    requires t.FetchRepo?
    ensures RunAll(env, t, s, REnqueue(rest), EnqueueActs(|rest|, accepted)) ==
            Some(Trace(s, Done(accepted >= |rest|), VersionTasks(t, Accepted(rest, accepted))))
    decreases rest
  {
    if rest == [] || accepted == 0 {
      assert VersionTasks(t, Accepted(rest, accepted)) == [];
      QuietFirst(env, t, s, REnqueue(rest), EnqueueNext(rest == []), [], Trace(s, Done(rest == []), []));
      assert [EnqueueNext(rest == [])] + [] == [EnqueueNext(rest == [])];
    } else {
      EnqueueRuns(env, t, s, rest[1..], accepted - 1);
      var more := VersionTasks(t, Accepted(rest[1..], accepted - 1));
      RunAllFirst(env, t, s, REnqueue(rest), EnqueueNext(true), EnqueueActs(|rest| - 1, accepted - 1),
                  Trace(s, Done(accepted >= |rest|), more));
      assert Accepted(rest, accepted) == [rest[0]] + Accepted(rest[1..], accepted - 1);
      OneMoreTask(t, rest[0], Accepted(rest[1..], accepted - 1));
    }
  }

  /** A repository run that stores its record. */
  lemma StoresAndEnqueues(env: Env, t: Task, s: Store, listing: Listing, sorted: seq<Version>,
                          accepted: nat) returns (acts: seq<RunAct>)
    requires RunEnabled(env, t, RList, List(Some(listing), sorted))
    requires VersionsOf(listing, t.repo.repo).Some? && VersionsOf(listing, t.repo.repo).value != [] && sorted != []
    ensures var key := RepoString(t.repo);
            var info := RepoInfo(t.repo, sorted[0], sorted);
            var s' := s.(repos := s.repos[key := info], records := s.records + {Record(info, listing)});
            RunAll(env, t, s, RList, acts) ==
            Some(Trace(s', Done(accepted >= |sorted|), VersionTasks(t, Accepted(sorted, accepted))))
  {
    var key, info := RepoString(t.repo), RepoInfo(t.repo, sorted[0], sorted);
    var s' := s.(repos := s.repos[key := info], records := s.records + {Record(info, listing)});
    var last := Trace(s', Done(accepted >= |sorted|), VersionTasks(t, Accepted(sorted, accepted)));
    EnqueueRuns(env, t, s', sorted, accepted);
    acts := EnqueueActs(|sorted|, accepted);
    QuietFirst(env, t, s, RStore(info, listing), StoreRepo(true), acts, last);
    acts := [StoreRepo(true)] + acts;
    QuietFirst(env, t, s, RList, List(Some(listing), sorted), acts, last);
    acts := [List(Some(listing), sorted)] + acts;
  }

  /** A repository run that ends before its record is stored. */
  lemma StoresNothing(env: Env, t: Task, s: Store, listing: Option<Listing>, sorted: seq<Version>,
                      storeOk: bool) returns (acts: seq<RunAct>)
    requires RunEnabled(env, t, RList, List(listing, sorted))
    requires var versions := if listing == None then None else VersionsOf(listing.value, t.repo.repo);
             versions == None || versions.value == [] || !storeOk
    ensures var versions := if listing == None then None else VersionsOf(listing.value, t.repo.repo);
            RunAll(env, t, s, RList, acts) == Some(Trace(s, Done(versions == Some([])), []))
  {
    var listed := RunStep(env, t, s, RList, List(listing, sorted)).run;
    if listed.Done? {
      QuietFirst(env, t, s, RList, List(listing, sorted), [], Trace(s, listed, []));
      acts := [List(listing, sorted)] + [];
    } else {
      QuietFirst(env, t, s, listed, StoreRepo(false), [], Trace(s, Done(false), []));
      QuietFirst(env, t, s, RList, List(listing, sorted), [StoreRepo(false)], Trace(s, Done(false), []));
      acts := [List(listing, sorted)] + [StoreRepo(false)];
    }
  }
}
