/** The read path and the task runners as the program runs them, over stores and queues that are changed in place
    (tasks.go, taskFetch.go, taskFetchVersion.go, taskFetchRepoFrom*.go). */
module Server {
  import opened Types
  import opened Strip
  import opened Archives
  import opened Unzipping = Unzip
  import opened UnzipSchedules
  import opened Listings
  import opened Tasks
  import opened ReadPath
  import opened ReleaseIds
  import opened Runners
  import opened RunnerRuns
  import opened DedupQueue
  import opened JobQueues

  /** The buckets; `records` is there for the specification. */
  class Database {
    var repos: map<string, RepoInfo>
    var meta: map<string, Pages>
    var data: map<string, Bytes>
    ghost var records: set<Record>

    ghost function View(): Store
      reads this
    {
      Store(repos, meta, data, records)
    }
  }

  class PageRequest {
    const repo: Repo
    const version: string
    var file: string

    ghost function View(): RepoFileAtVersion
      reads this
    {
      RepoFileAtVersion(repo, version, file)
    }
  }

  /** Nobody has seen a later time than that of the hand-over. */
  ghost predicate Current(q: Queues<Run>, when: When)
    requires q.Valid()
    reads q, q.queues.Values
  {
    when.read <= when.at && forall p: QName :: q.View()[p].clock <= when.at
  }

  /** The queues after what a step enqueued, if anything. */
  ghost function Posting(queues: map<QName, Queue<Run>>, post: Option<Task>, when: When): map<QName, Queue<Run>>
    requires post.Some? ==>
               QueueOf(post.value) in queues && Enabled(queues[QueueOf(post.value)], Action.Post(post.value, when))
  {
    match post
    case None => queues
    case Some(t) => queues[QueueOf(t) := Next(queues[QueueOf(t)], Action.Post(t, when))]
  }

  method EnqueueFetchRepo(r: Repo, rt: RepoType, q: Queues<Run>, ok: bool, when: When) returns (err: bool)
    requires q.Valid() && Current(q, when)
    modifies q.queues.Values
    ensures q.Valid() && err == !ok
    ensures q.View() == Posting(old(q.View()), if ok then Some(FetchRepo(rt, r)) else None, when)
  {
    var fetchRequest: Task;
    match rt {
      case BranchRepo => fetchRequest := FetchRepo(BranchRepo, r);
      case PackageRepo => fetchRequest := FetchRepo(PackageRepo, r);
      case ReleaseRepo => fetchRequest := FetchRepo(ReleaseRepo, r);
    }
    err := q.Enqueue(fetchRequest, ok, when);
  }

  method EnqueueFetchVersion(r: Repo, v: Version, rt: RepoType, q: Queues<Run>, ok: bool,
                            when: When) returns (err: bool)
    requires q.Valid() && Current(q, when)
    modifies q.queues.Values
    ensures q.Valid() && err == !ok
    ensures q.View() == Posting(old(q.View()), if ok then Some(FetchVersion(rt, r, v)) else None, when)
  {
    var fetchRequest: Task;
    match rt {
      case BranchRepo => fetchRequest := FetchVersion(BranchRepo, r, v);
      case PackageRepo => fetchRequest := FetchVersion(PackageRepo, r, v);
      case ReleaseRepo => fetchRequest := FetchVersion(ReleaseRepo, r, v);
    }
    err := q.Enqueue(fetchRequest, ok, when);
  }

  /** The version asked for: the latest one, or the first that the search loop finds. */
  method ChosenVersion(repoInfo: RepoInfo, name: string) returns (version: Option<Version>)
    ensures version == SelectVersion(repoInfo, name)
  {
    if name == "" {
      return Some(repoInfo.latest);
    }
    var versions := repoInfo.versions;
    for i := 0 to |versions|
      invariant SelectFrom(versions, name) == SelectFrom(versions[i..], name)
    {
      if versions[i].version == name {
        return Some(versions[i]);
      }
      assert versions[i..][1..] == versions[i + 1..];
    }
    return None;
  }

  /** The file search loop. */
  method FindHash(pages: Pages, name: string) returns (hash: string)
    ensures hash == FindFile(pages, name)
  {
    for i := 0 to |pages|
      invariant FindFile(pages, name) == FindFile(pages[i..], name)
    {
      if pages[i].name == name {
        return pages[i].sha;
      }
      assert pages[i..][1..] == pages[i + 1..];
    }
    return "";
  }

  /** What a request with metadata in hand is answered. */
  lemma RespondChosen(s: Store, r: RepoFileAtVersion, rt: RepoType, info: RepoInfo, v: Version, f: Faults)
    requires f.metaOk && v.sha in s.meta
    ensures var result := Respond(s, Chosen(r, rt, info, v), f);
            var name := if Ordinary(r.file) then r.file else r.file + "index.html";
            result.post == None && result.req.answer == FileAnswer(s, s.meta[v.sha], name, f.dataOk)
  {
    NormalisedName(r.file);
    var hash := FindFile(s.meta[v.sha], Normalise(r.file));
    var located := Located(r, rt, info, v, hash);
    assert Respond(s, located, f) == ReqStep(s, located, f);
  }

  /** A request that has found its record goes on with the version, if that has one. */
  lemma RespondAsked(s: Store, r: RepoFileAtVersion, rt: RepoType, f: Faults)
    requires f.repoOk && RepoString(r.repo) in s.repos
    ensures var info := s.repos[RepoString(r.repo)];
            Respond(s, Asked(r, rt), f) ==
            match SelectVersion(info, r.version)
            case None => ReqResult(Answered(r, rt, None, VersionNotFound), None)
            case Some(v) =>
              if v.sha == "" then ReqResult(Answered(r, rt, Some(v), NotReady), None)
              else Respond(s, Chosen(r, rt, info, v), f)
  {
  }

  /** What a request that has missed is answered. */
  lemma RespondMissed(s: Store, req: Req, f: Faults)
    requires ReqStep(s, req, f).req.Missed? && !req.Answered? && !req.Missed?
    ensures Respond(s, req, f) == ReqStep(s, ReqStep(s, req, f).req, f)
  {
    var missed := ReqStep(s, req, f).req;
    assert Respond(s, missed, f) == ReqStep(s, missed, f);
  }

  function FileAnswer(s: Store, pages: Pages, name: string, dataOk: bool): Answer {
    var hash := FindFile(pages, name);
    if hash == "" then FileNotFound
    else if !dataOk then Failed
    else if hash in s.data then Data(s.data[hash])
    else NotReady
  }

  /** The end of the read path: normalise the name in place, search it, read the blob. */
  method ServeFile(r: PageRequest, pages: Pages, db: Database, dataOk: bool) returns (answer: Answer)
    modifies r
    ensures r.file == if Ordinary(old(r.file)) then old(r.file) else old(r.file) + "index.html"
    ensures answer == FileAnswer(db.View(), pages, r.file, dataOk)
  {
    if r.file == "" {
      r.file := "index.html";
    }
    if EndsWith(r.file, '/') {
      r.file := r.file + "index.html";
    }
    var fileSha := FindHash(pages, r.file);
    if fileSha == "" {
      return FileNotFound;
    }
    if !dataOk {
      return Failed;
    }
    if fileSha in db.data {
      return Data(db.data[fileSha]);
    }
    return NotReady;
  }

  /** No record: enqueue the fetch of the repository, and do not look at what that returns. */
  method RepoMissed(r: PageRequest, rt: RepoType, db: Database, q: Queues<Run>, f: Faults, when: When)
    returns (answer: Answer)
    requires q.Valid() && Current(q, when) && f.repoOk && RepoString(r.repo) !in db.repos
    modifies q.queues.Values
    ensures q.Valid() && answer == NotReady
    ensures var result := Respond(db.View(), Asked(r.View(), rt), f);
            answer == result.req.answer && q.View() == Posting(old(q.View()), result.post, when)
  {
    RespondMissed(db.View(), Asked(r.View(), rt), f);
    var _ := EnqueueFetchRepo(r.repo, rt, q, f.enqueueOk, when);
    return NotReady;
  }

  /** The beginning of the read path: the repository's record, or the answer that ends the request. */
  method FindRecord(r: PageRequest, rt: RepoType, db: Database, q: Queues<Run>, f: Faults, when: When)
    returns (info: Option<RepoInfo>, answer: Answer)
    requires q.Valid() && Current(q, when)
    modifies q.queues.Values
    ensures q.Valid()
    ensures if info == None then
              var result := Respond(db.View(), Asked(r.View(), rt), f);
              answer == result.req.answer && answer in {Failed, NotReady}
              && q.View() == Posting(old(q.View()), result.post, when)
            else
              && f.repoOk && RepoString(r.repo) in db.repos && info == Some(db.repos[RepoString(r.repo)])
              && q.View() == old(q.View())
  {
    if !f.repoOk {
      return None, Failed;
    }
    var key := RepoString(r.repo);
    if key !in db.repos {
      answer := RepoMissed(r, rt, db, q, f, when);
      return None, answer;
    }
    return Some(db.repos[key]), NotReady;
  }

  /** The version that the record gives the request, or the answer that ends it. */
  method ChooseVersion(repoInfo: RepoInfo, name: string) returns (version: Option<Version>, answer: Answer)
    ensures match SelectVersion(repoInfo, name)
            case None => version == None && answer == VersionNotFound
            case Some(v) => if v.sha == "" then version == None && answer == NotReady else version == Some(v)
  {
    version := ChosenVersion(repoInfo, name);
    if version == None {
      return None, VersionNotFound;
    }
    if version.value.sha == "" {
      return None, NotReady;
    }
    answer := NotReady;
  }

  /** No metadata: enqueue the fetch of the version. */
  method VersionMissed(r: PageRequest, rt: RepoType, ghost info: RepoInfo, version: Version, db: Database,
                       q: Queues<Run>, f: Faults, when: When)
    returns (answer: Answer)
    requires q.Valid() && Current(q, when) && f.metaOk && version.sha !in db.meta
    modifies q.queues.Values
    ensures q.Valid() && answer in {Failed, NotReady}
    ensures var result := Respond(db.View(), Chosen(r.View(), rt, info, version), f);
            answer == result.req.answer && q.View() == Posting(old(q.View()), result.post, when)
  {
    RespondMissed(db.View(), Chosen(r.View(), rt, info, version), f);
    var err := EnqueueFetchVersion(r.repo, version, rt, q, f.enqueueOk, when);
    return if err then Failed else NotReady;
  }

  /** The rest of it: metadata, file, blob. */
  method ServeVersion(r: PageRequest, rt: RepoType, ghost info: RepoInfo, version: Version, db: Database,
                      q: Queues<Run>, f: Faults, when: When)
    returns (answer: Answer)
    requires q.Valid() && Current(q, when)
    modifies r, q.queues.Values
    ensures q.Valid()
    ensures var result := Respond(db.View(), Chosen(old(r.View()), rt, info, version), f);
            answer == result.req.answer && q.View() == Posting(old(q.View()), result.post, when)
    ensures r.file == old(r.file) || (!Ordinary(old(r.file)) && r.file == old(r.file) + "index.html")
    ensures answer.Data? || answer == FileNotFound ==> Ordinary(r.file)
  {
    if !f.metaOk {
      return Failed;
    }
    if version.sha !in db.meta {
      answer := VersionMissed(r, rt, info, version, db, q, f, when);
      return;
    }
    RespondChosen(db.View(), r.View(), rt, info, version, f);
    answer := ServeFile(r, db.meta[version.sha], db, f.dataOk);
  }

  /** The read path once the record is found. */
  method ServeRecord(r: PageRequest, rt: RepoType, info: RepoInfo, db: Database, q: Queues<Run>, f: Faults, when: When)
    returns (answer: Answer)
    requires q.Valid() && Current(q, when)
    requires f.repoOk && RepoString(r.repo) in db.repos && info == db.repos[RepoString(r.repo)]
    modifies r, q.queues.Values
    ensures q.Valid()
    ensures var result := Respond(db.View(), Asked(old(r.View()), rt), f);
            answer == result.req.answer && q.View() == Posting(old(q.View()), result.post, when)
    ensures r.file == old(r.file) || (!Ordinary(old(r.file)) && r.file == old(r.file) + "index.html")
    ensures answer.Data? || answer == FileNotFound ==> Ordinary(r.file)
  {
    RespondAsked(db.View(), r.View(), rt, f);
    var version, none := ChooseVersion(info, r.version);
    if version == None {
      return none;
    }
    answer := ServeVersion(r, rt, info, version.value, db, q, f, when);
  }

  /** The whole read path, uninterrupted: it answers and enqueues what the request's steps do. */
  method RequestPageData(r: PageRequest, rt: RepoType, db: Database, q: Queues<Run>, f: Faults, when: When)
    returns (answer: Answer)
    requires q.Valid() && Current(q, when)
    modifies r, q.queues.Values
    ensures q.Valid()
    ensures var result := Respond(db.View(), Asked(old(r.View()), rt), f);
            answer == result.req.answer && q.View() == Posting(old(q.View()), result.post, when)
    ensures r.file == old(r.file) || (!Ordinary(old(r.file)) && r.file == old(r.file) + "index.html")
    ensures answer.Data? || answer == FileNotFound ==> Ordinary(r.file)
  {
    var info, early := FindRecord(r, rt, db, q, f, when);
    if info == None {
      return early;
    }
    answer := ServeRecord(r, rt, info.value, db, q, f, when);
  }

  // ---------------------------------------------------------------- unpacking

  /** What the goroutines of one `unzipDocs` share: the launching loop, the slots, the list under the mutex and the
      group's error. `order` is there for the specification. */
  class Group {
    var next: nat
    var reading: set<nat>
    var stored: set<nat>
    var files: Pages
    var failed: bool
    ghost var order: seq<nat>

    ghost function View(): Unzipping.Unzip
      reads this
    {
      Unzipping.Unzip(next, reading, stored, order, files, failed)
    }

    constructor ()
      ensures View() == UNZIP_INIT
    {
      next, reading, stored, files, failed, order := 0, {}, {}, [], false, [];
    }

    method Go(env: Env, a: Archive)
      requires UnzipEnabled(a, View(), Launch)
      modifies this
      ensures View() == UnzipNext(env, a, old(View()), Launch)
    {
      reading := reading + {next};
      next := next + 1;
    }

    /** A goroutine up to the mutex: read the entry, hash it, store the blob. */
    method Store(env: Env, a: Archive, i: nat, fails: bool, db: Database)
      requires UnzipEnabled(a, View(), StoreBlob(i))
      modifies this, db`data
      ensures View() == UnzipNext(env, a, old(View()), if fails then FailEntry(i) else StoreBlob(i))
      ensures db.data == UnzipData(env, a, old(db.data), old(View()), if fails then FailEntry(i) else StoreBlob(i))
    {
      reading := reading - {i};
      if fails {
        failed := true;
        return;
      }
      var content := a.entries[i].content;
      db.data := db.data[env.hash(content) := content];
      stored := stored + {i};
    }

    /** A goroutine inside the mutex: strip the name and append to the list, unless nothing is left of it. */
    method AppendFile(env: Env, a: Archive, i: nat)
      requires UnzipEnabled(a, View(), Append(i))
      modifies this
      ensures View() == UnzipNext(env, a, old(View()), Append(i))
    {
      var saveName := SaveName(a.entries[i].name, a.strip);
      stored := stored - {i};
      order := order + [i];
      if saveName == None {
        assert files + [] == files;
        return;
      }
      files := files + [PageFile(saveName.value, env.hash(a.entries[i].content))];
    }

    /** Some running goroutine reads and stores its entry, or fails. */
    method StoreSome(env: Env, a: Archive, fails: set<nat>, db: Database) returns (ghost act: UnzipAct)
      requires reading != {} && forall i :: i in reading ==> i < |a.entries|
      modifies this, db`data
      ensures Possible(a, fails, old(View()), act)
      ensures View() == UnzipNext(env, a, old(View()), act)
              && db.data == UnzipData(env, a, old(db.data), old(View()), act)
    {
      var i :| i in reading;
      act := if i in fails then FailEntry(i) else StoreBlob(i);
      Store(env, a, i, i in fails, db);
    }

    /** Some goroutine that has stored its blob goes through the mutex. */
    method AppendSome(env: Env, a: Archive) returns (ghost act: UnzipAct)
      requires stored != {} && forall i :: i in stored ==> i < |a.entries|
      modifies this
      ensures UnzipEnabled(a, old(View()), act) && act.Append? && View() == UnzipNext(env, a, old(View()), act)
    {
      var i :| i in stored;
      act := Append(i);
      AppendFile(env, a, i);
    }

    /** Whoever is scheduled next takes its step. */
    method Schedule(env: Env, a: Archive, fails: set<nat>, db: Database) returns (ghost act: UnzipAct)
      requires next < |a.entries| || reading != {} || stored != {}
      requires (forall i :: i in reading ==> i < |a.entries|) && forall i :: i in stored ==> i < |a.entries|
      modifies this, db`data
      ensures Possible(a, fails, old(View()), act)
      ensures View() == UnzipNext(env, a, old(View()), act)
              && db.data == UnzipData(env, a, old(db.data), old(View()), act)
    {
      if {
        case next < |a.entries| && |reading + stored| < LIMIT =>
          act := Launch;
          Go(env, a);
        case reading != {} => act := StoreSome(env, a, fails, db);
        case stored != {} => act := AppendSome(env, a);
      }
    }
  }

  /** A step of this unzip, failing on the entries of `fails` only. */
  ghost predicate Possible(a: Archive, fails: set<nat>, u: Unzipping.Unzip, act: UnzipAct) {
    UnzipEnabled(a, u, act) && (act.StoreBlob? ==> act.i !in fails) && (act.FailEntry? ==> act.i in fails)
  }

  ghost predicate InProgress(env: Env, a: Archive, before: map<string, Bytes>, data: map<string, Bytes>,
          u: Unzipping.Unzip) {
    UnzipInv(env, a, data, u) && ContentAddressed(env, data) && DataGrows(before, data)
  }

  /** The group has failed only if some entry fails, and otherwise no failing entry is past reading. */
  ghost predicate FailsExactly(a: Archive, fails: set<nat>, u: Unzipping.Unzip) {
    if u.failed then exists i :: i in fails && i < |a.entries|
    else forall i :: i in fails && i < u.next ==> i in u.reading
  }

  lemma InProgressStep(env: Env, a: Archive, before: map<string, Bytes>, data: map<string, Bytes>,
          u: Unzipping.Unzip, act: UnzipAct)
    requires ValidEnv(env) && InProgress(env, a, before, data, u) && UnzipEnabled(a, u, act)
    ensures InProgress(env, a, before, UnzipData(env, a, data, u, act), UnzipNext(env, a, u, act))
    ensures UnzipWork(a, UnzipNext(env, a, u, act)) < UnzipWork(a, u)
  {
    UnzipDataGrows(env, a, data, u, act);
    UnzipStepInv(env, a, data, u, act);
    UnzipWorkDecreases(env, a, u, act);
  }

  lemma FailsExactlyStep(env: Env, a: Archive, fails: set<nat>, u: Unzipping.Unzip, act: UnzipAct)
    requires Slots(a, u) && FailsExactly(a, fails, u) && Possible(a, fails, u, act)
    ensures FailsExactly(a, fails, UnzipNext(env, a, u, act))
  {
  }

  lemma GroupReturns(env: Env, a: Archive, before: map<string, Bytes>, data: map<string, Bytes>, fails: set<nat>,
          u: Unzipping.Unzip)
    requires InProgress(env, a, before, data, u) && FailsExactly(a, fails, u) && UnzipFinished(a, u)
    ensures u.failed <==> exists i :: i in fails && i < |a.entries|
    ensures !u.failed ==>
              Published(env, a, data, u.files) && multiset(u.files) == multiset(SequentialList(env, a, |a.entries|))
  {
    if !u.failed {
      UnzipRefinesSequential(env, a, data, u);
      assert PublishedAs(env, a, data, u.files, u.order);
    }
  }

  /** The goroutines have followed `schedule` until all had returned, with this result. */
  ghost predicate Follows(env: Env, a: Archive, before: map<string, Bytes>, schedule: seq<UnzipAct>,
                          after: map<string, Bytes>, files: Option<Pages>)
  {
    var p := RunFrom(env, a, Progress(UNZIP_INIT, before), schedule);
    && p.Some? && UnzipFinished(a, p.value.u) && after == p.value.data
    && files == if p.value.u.failed then None else Some(p.value.u.files)
  }

  /** `unzipDocs` with its goroutines scheduled in any order; `fails` are the entries that cannot be read or stored.
      It follows a schedule of the state machine, fails exactly when some entry does, and otherwise returns a list that
      may be published. */
  method UnzipDocs(env: Env, a: Archive, fails: set<nat>, db: Database)
    returns (files: Option<Pages>, ghost schedule: seq<UnzipAct>)
    requires ValidEnv(env) && ContentAddressed(env, db.data)
    modifies db`data
    ensures ContentAddressed(env, db.data) && DataGrows(old(db.data), db.data)
    ensures files == None <==> exists i :: i in fails && i < |a.entries|
    ensures files.Some? ==> Published(env, a, db.data, files.value)
    ensures files.Some? ==> multiset(files.value) == multiset(SequentialList(env, a, |a.entries|))
    ensures Follows(env, a, old(db.data), schedule, db.data, files)
  {
    var g := new Group();
    schedule := [];
    UnzipInitInv(env, a, db.data);
    while g.next < |a.entries| || g.reading != {} || g.stored != {}
      invariant fresh(g) && InProgress(env, a, old(db.data), db.data, g.View()) && FailsExactly(a, fails, g.View())
      invariant RunFrom(env, a, Progress(UNZIP_INIT, old(db.data)), schedule) == Some(Progress(g.View(), db.data))
      decreases UnzipWork(a, g.View())
    {
      ghost var u, data := g.View(), db.data;
      ghost var act := g.Schedule(env, a, fails, db);
      InProgressStep(env, a, old(db.data), data, u, act);
      FailsExactlyStep(env, a, fails, u, act);
      RunSnoc(env, a, Progress(UNZIP_INIT, old(db.data)), schedule, act);
      schedule := schedule + [act];
    }
    GroupReturns(env, a, old(db.data), db.data, fails, g.View());
    files := if g.failed then None else Some(g.files);
  }

  // ---------------------------------------------------------------- the task runners

  /** What goes wrong during a version run: the lookup, the final store access, entries. */
  datatype VersionFaults = VersionFaults(checkOk: bool, publishOk: bool, entries: set<nat>)

  /** How a version run ends. */
  function VersionOutcome(env: Env, t: Task, s: Store, zip: Option<seq<Entry>>, f: VersionFaults): Run
    requires t.FetchVersion?
  {
    if !f.checkOk || t.version.sha == "" then Done(false)
    else if t.version.sha in s.meta then Done(true)
    else
      match AfterFetch(env, t, zip)
      case VUnzip(a, _) => Done(f.publishOk && forall i :: i in f.entries ==> i >= |a.entries|)
      case stop => stop
  }

  /** What a download becomes: the archive to unpack, or the end of the run. */
  method Download(env: Env, t: Task, zip: Option<seq<Entry>>) returns (a: Option<Archive>, stop: Run)
    requires t.FetchVersion?
    ensures AfterFetch(env, t, zip) == match a case Some(a) => VUnzip(a, UNZIP_INIT) case None => stop
    ensures a == None ==> stop in {Done(false), VPanicked}
    ensures a.Some? ==> SavesZip(a.value, t.kind, zip)
  {
    stop := Done(false);
    a := None;
    if t.kind == ReleaseRepo {
      if RELEASE_ID !in t.version.extra {
        return None, VPanicked;
      }
      var releaseID := ParseInt(t.version.extra[RELEASE_ID]);
      if releaseID == None {
        return;
      }
      if RELEASE_ATTACHMENT_ID !in t.version.extra {
        return None, VPanicked;
      }
      var attachmentID := ParseInt(t.version.extra[RELEASE_ATTACHMENT_ID]);
      if attachmentID == None {
        return;
      }
    }
    if zip == None {
      return;
    }
    if t.kind == PackageRepo {
      var hash := env.zipHash(zip.value);
      if hash != t.version.sha {
        return;
      }
    }
    a := Some(Archive(zip.value, if t.kind == BranchRepo then 1 else 0));
    DownloadNames(env, t, zip);
  }

  method PublishFiles(env: Env, t: Task, files: Pages, db: Database)
    requires ValidEnv(env) && t.FetchVersion? && t.version.sha != "" && StoreInv(env, db.View())
             && Published(env, env.archives(t.version.sha), db.data, files)
    modifies db`meta
    ensures db.meta == old(db.meta)[t.version.sha := files]
    ensures StoreInv(env, db.View()) && StoreGrows(old(db.View()), db.View())
  {
    PublishRunStep(env, t, db.View(), VPublish(files), true);
    db.meta := db.meta[t.version.sha := files];
  }

  /** The second half of a version run. */
  method UnpackAndPublish(env: Env, t: Task, ghost zip: Option<seq<Entry>>, a: Archive, f: VersionFaults, db: Database)
    returns (result: Run, ghost acts: seq<RunAct>)
    requires ValidEnv(env) && t.FetchVersion? && StoreInv(env, db.View()) && Faithful(env, t.kind, t.version.sha, zip)
    requires t.version.sha != "" && t.version.sha !in db.meta && AfterFetch(env, t, zip) == VUnzip(a, UNZIP_INIT)
    modifies db`data, db`meta
    ensures result == Done(f.publishOk && forall i :: i in f.entries ==> i >= |a.entries|)
    ensures StoreInv(env, db.View()) && StoreGrows(old(db.View()), db.View())
    ensures if result == Done(true)
            then t.version.sha in db.meta && db.meta == old(db.meta)[t.version.sha := db.meta[t.version.sha]]
            else db.meta == old(db.meta)
    ensures result == Done(true) ==> zip.Some? && ListsZip(env, t.kind, zip.value, db.meta[t.version.sha])
    ensures RunAll(env, t, old(db.View()), VCheck, acts) == Some(Trace(db.View(), result, []))
  {
    FetchedArchive(env, t, zip);
    ghost var s := db.View();
    ghost var schedule;
    var files;
    files, schedule := UnzipDocs(env, a, f.entries, db);
    BlobsAdded(env, s, db.data);
    acts := Unpacks(env, t, s, zip, schedule, f.publishOk);
    if files == None || !f.publishOk {
      return Done(false), acts;
    }
    PublishedZip(env, t, s, zip, db.data, files.value);
    PublishFiles(env, t, files.value, db);
    return Done(true), acts;
  }

  /** Both ids are there and are integers. */
  predicate IdsParse(v: Version) {
    && RELEASE_ID in v.extra && ParseInt(v.extra[RELEASE_ID]).Some?
    && RELEASE_ATTACHMENT_ID in v.extra && ParseInt(v.extra[RELEASE_ATTACHMENT_ID]).Some?
  }

  /** An id is missing when it is needed: the second one only once the first has been read. */
  predicate IdMissing(v: Version) {
    || RELEASE_ID !in v.extra
    || (ParseInt(v.extra[RELEASE_ID]).Some? && RELEASE_ATTACHMENT_ID !in v.extra)
  }

  /** When a version run succeeds, panics or fails: what it needs of the version, the download and the stores. */
  lemma VersionOutcomeIff(env: Env, t: Task, s: Store, zip: Option<seq<Entry>>, f: VersionFaults)
    requires t.FetchVersion?
    ensures var (run, sha) := (VersionOutcome(env, t, s, zip, f), t.version.sha);
            && (run == Done(true) <==>
                  && f.checkOk && sha != ""
                  && (|| sha in s.meta
                      || (&& (t.kind == ReleaseRepo ==> IdsParse(t.version)) && zip.Some?
                          && (t.kind == PackageRepo ==> env.zipHash(zip.value) == sha)
                          && f.publishOk && forall i :: i in f.entries ==> i >= |zip.value|)))
            && (run == VPanicked <==>
                  f.checkOk && sha != "" && sha !in s.meta && t.kind == ReleaseRepo && IdMissing(t.version))
            && run in {Done(true), Done(false), VPanicked}
  {
  }

  /** A version runner from beginning to end, while its goroutines run in any order. Nothing is taken out of the
      store; metadata is added, under the version's own SHA, exactly when the run succeeds and it was missing, and then
      it lists exactly the entries of the download. It is the run `acts` of the step machine. */
  method FetchVersionRunner(env: Env, t: Task, zip: Option<seq<Entry>>, f: VersionFaults, db: Database)
    returns (result: Run, ghost acts: seq<RunAct>)
    requires ValidEnv(env) && t.FetchVersion? && StoreInv(env, db.View()) && Faithful(env, t.kind, t.version.sha, zip)
    modifies db`data, db`meta
    ensures result == VersionOutcome(env, t, old(db.View()), zip, f)
    ensures StoreInv(env, db.View()) && StoreGrows(old(db.View()), db.View())
    ensures if result == Done(true) && t.version.sha !in old(db.meta)
            then t.version.sha in db.meta && db.meta == old(db.meta)[t.version.sha := db.meta[t.version.sha]]
            else db.meta == old(db.meta)
    ensures result == Done(true) && t.version.sha !in old(db.meta) ==>
              zip.Some? && ListsZip(env, t.kind, zip.value, db.meta[t.version.sha])
    ensures RunAll(env, t, old(db.View()), VCheck, acts) == Some(Trace(db.View(), result, []))
  {
    var sha := t.version.sha;
    if !f.checkOk || sha == "" {
      acts := EndsEarly(env, t, db.View(), zip, f.checkOk);
      return Done(false), acts;
    }
    if sha in db.meta {
      acts := EndsEarly(env, t, db.View(), zip, true);
      return Done(true), acts;
    }
    var archive, stop := Download(env, t, zip);
    if archive == None {
      acts := EndsEarly(env, t, db.View(), zip, true);
      return stop, acts;
    }
    result, acts := UnpackAndPublish(env, t, zip, archive.value, f, db);
  }

  /** Jobs as they wait in the queue; the `i`-th is stamped and handed over at the `i`-th times. */
  function Messages(tasks: seq<Task>, times: nat -> When): seq<Msg> {
    seq(|tasks|, i requires 0 <= i < |tasks| => Msg(times(i).read, Job(tasks[i])))
  }

  lemma OneMoreJob(t: Task, versions: seq<Version>, i: nat, times: nat -> When)
    requires i < |versions|
    ensures Messages(VersionTasks(t, versions[..i + 1]), times) ==
            Messages(VersionTasks(t, versions[..i]), times) +
            [Msg(times(i).read, Job(FetchVersion(t.kind, t.repo, versions[i])))]
  {
  }

  ghost predicate Passing(times: nat -> When) {
    forall i: nat :: Passes(times, i)
  }

  predicate Passes(times: nat -> When, i: nat) {
    times(i).read <= times(i).at <= times(i + 1).at
  }

  /** Enqueue a job per version until one is refused; `accepted` are the first that are not. */
  method EnqueueVersions(t: Task, versions: seq<Version>, accepted: nat, q: Queues<Run>, times: nat -> When)
    returns (ok: bool)
    requires t.FetchRepo? && q.Valid() && Current(q, times(0)) && Passing(times)
    modifies q.queues[QueueName(QName(true, t.kind))]
    ensures q.Valid() && ok == (accepted >= |versions|)
    ensures var qs := q.queues[QueueName(QName(true, t.kind))];
            && qs.pending == old(qs.pending) + Messages(VersionTasks(t, Accepted(versions, accepted)), times)
            && qs.dedup == old(qs.dedup) && qs.workers == old(qs.workers)
    ensures var qs := q.queues[QueueName(QName(true, t.kind))];
            var n := |old(q.queues[QueueName(QName(true, t.kind))].pending)|;
            && |qs.pending| == n + (if ok then |versions| else accepted)
            && forall i :: 0 <= i < |qs.pending| - n ==>
                             qs.pending[n + i] == Msg(times(i).read, Json(t.repo, versions[i]))
  {
    var qs := q.queues[QueueName(QName(true, t.kind))];
    assert qs.View() == q.View()[QName(true, t.kind)];
    for i := 0 to |versions|
      invariant i <= accepted && qs.clock <= times(i).at
      invariant qs.pending == old(qs.pending) + Messages(VersionTasks(t, versions[..i]), times)
      invariant qs.dedup == old(qs.dedup) && qs.workers == old(qs.workers)
    {
      assert Passes(times, i);
      var err := qs.Enqueue(FetchVersion(t.kind, t.repo, versions[i]), i < accepted, times(i));
      if err {
        return false;
      }
      OneMoreJob(t, versions, i, times);
    }
    assert versions[..|versions|] == versions;
    return true;
  }

  /** What goes wrong during a repository run: storing the record, enqueueing. */
  datatype RepoFaults = RepoFaults(storeOk: bool, accepted: nat)

  /** Put the record under the repository's key. */
  method StoreRecord(env: Env, t: Task, listing: Listing, sorted: seq<Version>, db: Database)
    requires t.FetchRepo? && StoreInv(env, db.View()) && ListingKind(listing) == t.kind
    requires VersionsOf(listing, t.repo.repo).Some? && VersionsOf(listing, t.repo.repo).value != []
    requires SortOf(sorted, VersionsOf(listing, t.repo.repo).value)
    modifies db`repos, db`records
    ensures StoreInv(env, db.View()) && StoreGrows(old(db.View()), db.View())
    ensures sorted != [] && db.repos == old(db.repos)[RepoString(t.repo) := RepoInfo(t.repo, sorted[0], sorted)]
    ensures db.records == old(db.records) + {Record(RepoInfo(t.repo, sorted[0], sorted), listing)}
  {
    CanonicalRecord(t.repo, sorted, VersionsOf(listing, t.repo.repo).value);
    var repoInfo := RepoInfo(t.repo, sorted[0], sorted);
    StoreRepoRunStep(env, t, db.View(), RStore(repoInfo, listing), true);
    db.repos := db.repos[RepoString(t.repo) := repoInfo];
    db.records := db.records + {Record(repoInfo, listing)};
  }

  /** The uninterrupted steps `acts` of the repository job `t` lead from `before` to `after` and the result `ok`, and
      what they post is what the queue has got. */
  ghost predicate RepoRun(env: Env, t: Task, before: Store, acts: seq<RunAct>, after: Store, ok: bool,
                          pending: seq<Msg>, pending': seq<Msg>, times: nat -> When)
  {
    var trace := RunAll(env, t, before, RList, acts);
    && trace.Some? && trace.value.store == after && trace.value.run == Done(ok)
    && pending' == pending + Messages(trace.value.posts, times)
  }

  /** The second half of a repository run: store the record and enqueue a job per version. */
  method StoreAndEnqueue(env: Env, t: Task, listing: Listing, sorted: seq<Version>, accepted: nat, db: Database,
                         q: Queues<Run>, times: nat -> When)
    returns (ok: bool, ghost acts: seq<RunAct>)
    requires t.FetchRepo? && StoreInv(env, db.View()) && ListingKind(listing) == t.kind
    requires VersionsOf(listing, t.repo.repo).Some? && VersionsOf(listing, t.repo.repo).value != []
    requires SortOf(sorted, VersionsOf(listing, t.repo.repo).value)
    requires q.Valid() && Current(q, times(0)) && Passing(times)
    modifies db`repos, db`records, q.queues[QueueName(QName(true, t.kind))]
    ensures q.Valid() && StoreInv(env, db.View()) && StoreGrows(old(db.View()), db.View())
    ensures sorted != [] && ok == (accepted >= |sorted|)
    ensures db.repos == old(db.repos)[RepoString(t.repo) := RepoInfo(t.repo, sorted[0], sorted)]
    ensures var qs := q.queues[QueueName(QName(true, t.kind))];
            && qs.pending == old(qs.pending) + Messages(VersionTasks(t, Accepted(sorted, accepted)), times)
            && RepoRun(env, t, old(db.View()), acts, db.View(), ok, old(qs.pending), qs.pending, times)
  {
    ghost var s := db.View();
    StoreRecord(env, t, listing, sorted, db);
    acts := StoresAndEnqueues(env, t, s, listing, sorted, accepted);
    ok := EnqueueVersions(t, sorted, accepted, q, times);
  }

  /** A repository runner from beginning to end: page through the listing, and unless it fails or nothing is left,
      store the record, newest version first, and enqueue a job per version. It is the run `acts` of the step machine,
      and what that posts is what is enqueued. */
  method FetchRepoRunner(env: Env, t: Task, listing: Option<Listing>, size: nat, claims: Claims, f: RepoFaults,
                         db: Database, q: Queues<Run>, times: nat -> When)
    returns (ok: bool, sorted: seq<Version>, ghost acts: seq<RunAct>)
    requires t.FetchRepo? && StoreInv(env, db.View()) && size > 0 && HonestClaims(claims)
    requires listing.Some? ==> ListingKind(listing.value) == t.kind
    requires q.Valid() && Current(q, times(0)) && Passing(times)
    modifies db`repos, db`records, q.queues[QueueName(QName(true, t.kind))]
    ensures q.Valid() && StoreInv(env, db.View()) && StoreGrows(old(db.View()), db.View())
    ensures var qs := q.queues[QueueName(QName(true, t.kind))];
            var versions := if listing == None then None else VersionsOf(listing.value, t.repo.repo);
            if versions == None || versions.value == [] || !f.storeOk then
              ok == (versions == Some([])) && db.repos == old(db.repos) && qs.pending == old(qs.pending)
            else
              && SortOf(sorted, versions.value) && sorted != [] && ok == (f.accepted >= |sorted|)
              && db.repos == old(db.repos)[RepoString(t.repo) := RepoInfo(t.repo, sorted[0], sorted)]
              && qs.pending == old(qs.pending) + Messages(VersionTasks(t, Accepted(sorted, f.accepted)), times)
    ensures var qs := q.queues[QueueName(QName(true, t.kind))];
            RepoRun(env, t, old(db.View()), acts, db.View(), ok, old(qs.pending), qs.pending, times)
  {
    sorted := [];
    if listing == None {
      acts := StoresNothing(env, t, db.View(), listing, sorted, f.storeOk);
      return false, sorted, acts;
    }
    var versions := ListVersions(listing.value, t.repo.repo, size, claims);
    if versions == None {
      acts := StoresNothing(env, t, db.View(), listing, sorted, f.storeOk);
      return false, sorted, acts;
    }
    if |versions.value| == 0 {
      acts := StoresNothing(env, t, db.View(), listing, sorted, f.storeOk);
      return true, sorted, acts;
    }
    sorted := SortNewestFirst(versions.value);
    if !f.storeOk {
      acts := StoresNothing(env, t, db.View(), listing, sorted, false);
      return false, sorted, acts;
    }
    ok, acts := StoreAndEnqueue(env, t, listing.value, sorted, f.accepted, db, q, times);
  }
}
