/** The six task runners as steps over the shared store: one store access, download or enqueue at a time. */
module Runners {
  import opened Types
  import opened Strip
  import opened Archives
  import opened Unzip
  import opened Listings
  import opened ReleaseIds
  import opened Tasks
  import opened ReadPath

  /** Where a running job is. `VPanicked` is a failed type assertion: the runner never returns. */
  datatype Run =
    | VCheck
    | VFetch
    | VUnzip(a: Archive, u: Unzip)
    | VPublish(files: Pages)
    | VPanicked
    | RList
    | RStore(info: RepoInfo, source: Listing)
    | REnqueue(rest: seq<Version>)
    | Done(ok: bool)

  /** What the environment decides at each step: whether store accesses and enqueues succeed, what a download or a
      listing brings (None when it fails), how ties are sorted, and which goroutine runs next. */
  datatype RunAct =
    | Check(dbOk: bool)
    | Fetch(zip: Option<seq<Entry>>)
    | UnzipDo(act: UnzipAct)
    | Wait
    | Publish(dbOk: bool)
    | List(listing: Option<Listing>, sorted: seq<Version>)
    | StoreRepo(dbOk: bool)
    | EnqueueNext(enqueueOk: bool)

  datatype RunResult = RunResult(store: Store, run: Run, post: Option<Task>)

  function StartOf(t: Task): Run {
    if t.FetchVersion? then VCheck else RList
  }

  /** Branch archives hold one top directory that is stripped. */
  function StripOf(kind: RepoType): nat {
    if kind == BranchRepo then 1 else 0
  }

  /** A missing id fails the type assertion; a malformed one is an ordinary error. */
  datatype Ids = Missing | Malformed | Ids(release: int, attachment: int)

  function ReadIds(v: Version): Ids {
    if RELEASE_ID !in v.extra then Missing
    else if ParseInt(v.extra[RELEASE_ID]) == None then Malformed
    else if RELEASE_ATTACHMENT_ID !in v.extra then Missing
    else if ParseInt(v.extra[RELEASE_ATTACHMENT_ID]) == None then Malformed
    else Ids(ParseInt(v.extra[RELEASE_ID]).value, ParseInt(v.extra[RELEASE_ATTACHMENT_ID]).value)
  }

  function ListingKind(listing: Listing): RepoType {
    match listing
    case Branches(_, _) => BranchRepo
    case Packages(_) => PackageRepo
    case Releases(_) => ReleaseRepo
  }

  /** Downloads are faithful: what a release or branch download brings is the archive of that version. A package
      download can bring anything; the runner checks its digest. */
  ghost predicate Faithful(env: Env, kind: RepoType, sha: string, zip: Option<seq<Entry>>) {
    kind != PackageRepo && zip.Some? ==> env.archives(sha) == Archive(zip.value, StripOf(kind))
  }

  ghost predicate RunEnabled(env: Env, t: Task, run: Run, act: RunAct) {
    match (run, act)
    case (VCheck, Check(_)) => t.FetchVersion?
    case (VFetch, Fetch(zip)) => t.FetchVersion? && Faithful(env, t.kind, t.version.sha, zip)
    case (VUnzip(a, u), UnzipDo(ua)) => t.FetchVersion? && UnzipEnabled(a, u, ua)
    case (VUnzip(a, u), Wait) => t.FetchVersion? && UnzipFinished(a, u)
    case (VPublish(_), Publish(_)) => t.FetchVersion?
    case (RList, List(listing, sorted)) =>
      t.FetchRepo? &&
      (listing.Some? ==>
         && ListingKind(listing.value) == t.kind
         && (var versions := VersionsOf(listing.value, t.repo.repo); versions.Some? ==> SortOf(sorted, versions.value)))
    case (RStore(_, _), StoreRepo(_)) => t.FetchRepo?
    case (REnqueue(_), EnqueueNext(_)) => t.FetchRepo?
    case _ => false
  }

  function AfterFetch(env: Env, t: Task, zip: Option<seq<Entry>>): Run
    requires t.FetchVersion?
  {
    var ids := ReadIds(t.version);
    if t.kind == ReleaseRepo && ids.Missing? then VPanicked
    else if t.kind == ReleaseRepo && ids.Malformed? then Done(false)
    else if zip == None then Done(false)
    else if t.kind == PackageRepo && env.zipHash(zip.value) != t.version.sha then Done(false)
    else VUnzip(Archive(zip.value, StripOf(t.kind)), UNZIP_INIT)
  }

  ghost function RunStep(env: Env, t: Task, s: Store, run: Run, act: RunAct): RunResult
    requires RunEnabled(env, t, run, act)
  {
    match act
    case Check(dbOk) => (
      if !dbOk || t.version.sha == "" then RunResult(s, Done(false), None)
      else if t.version.sha in s.meta then RunResult(s, Done(true), None)
      else RunResult(s, VFetch, None))
    case Fetch(zip) => RunResult(s, AfterFetch(env, t, zip), None)
    case UnzipDo(ua) =>
      RunResult(s.(data := UnzipData(env, run.a, s.data, run.u, ua)), VUnzip(run.a, UnzipNext(env, run.a, run.u, ua)),
                None)
    case Wait => RunResult(s, if run.u.failed then Done(false) else VPublish(run.u.files), None)
    case Publish(dbOk) =>
      if dbOk then RunResult(s.(meta := s.meta[t.version.sha := run.files]), Done(true), None)
      else RunResult(s, Done(false), None)
    case List(listing, sorted) => (
      if listing == None || VersionsOf(listing.value, t.repo.repo) == None then RunResult(s, Done(false), None)
      else if VersionsOf(listing.value, t.repo.repo).value == [] then RunResult(s, Done(true), None)
      else
        SortOfMembers(sorted, VersionsOf(listing.value, t.repo.repo).value);
        RunResult(s, RStore(RepoInfo(t.repo, sorted[0], sorted), listing.value), None))
    case StoreRepo(dbOk) => (
      var key := RepoString(t.repo);
      if dbOk then
        var s' := s.(repos := s.repos[key := run.info], records := s.records + {Record(run.info, run.source)});
        RunResult(s', REnqueue(run.info.versions), None)
      else RunResult(s, Done(false), None))
    case EnqueueNext(enqueueOk) => (
      if run.rest == [] then RunResult(s, Done(true), None)
      else if enqueueOk then RunResult(s, REnqueue(run.rest[1..]), Some(FetchVersion(t.kind, t.repo, run.rest[0])))
      else RunResult(s, Done(false), None))
  }

  /** What a running job relies on, stable under everything the others may do. */
  ghost predicate RunInv(env: Env, t: Task, s: Store, run: Run) {
    match run
    case VCheck => t.FetchVersion?
    case VFetch => t.FetchVersion? && t.version.sha != ""
    case VPanicked => t.FetchVersion?
    case VUnzip(a, u) =>
      && t.FetchVersion? && t.version.sha != "" && a == env.archives(t.version.sha) && UnzipInv(env, a, s.data, u)
    case VPublish(files) =>
      t.FetchVersion? && t.version.sha != "" && Published(env, env.archives(t.version.sha), s.data, files)
    case RList => t.FetchRepo?
    case RStore(info, source) =>
      t.FetchRepo? && info.repo == t.repo && ListingKind(source) == t.kind && StoredFrom(info, source)
    case REnqueue(_) => t.FetchRepo?
    case Done(ok) => ok && t.FetchVersion? ==> t.version.sha in s.meta
  }

  lemma RunInvStable(env: Env, t: Task, s: Store, s': Store, run: Run)
    requires RunInv(env, t, s, run) && StoreGrows(s, s')
    ensures RunInv(env, t, s', run)
  {
    match run
    case VUnzip(a, u) => UnzipInvStable(env, a, s.data, s'.data, u);
    case VPublish(files) => PublishedStable(env, env.archives(t.version.sha), s.data, s'.data, files);
    case _ =>
  }

  /** Adding blobs keeps the store invariant. */
  lemma BlobsAdded(env: Env, s: Store, data: map<string, Bytes>)
    requires StoreInv(env, s) && ContentAddressed(env, data) && DataGrows(s.data, data)
    ensures StoreInv(env, s.(data := data)) && StoreGrows(s, s.(data := data))
  {
    forall sha | sha in s.meta
      ensures Published(env, env.archives(sha), data, s.meta[sha])
    {
      PublishedStable(env, env.archives(sha), s.data, data, s.meta[sha]);
    }
  }

  lemma UnzipRunStep(env: Env, t: Task, s: Store, run: Run, ua: UnzipAct)
    requires ValidEnv(env) && StoreInv(env, s) && RunInv(env, t, s, run) && RunEnabled(env, t, run, UnzipDo(ua))
    ensures var r := RunStep(env, t, s, run, UnzipDo(ua));
            StoreInv(env, r.store) && StoreGrows(s, r.store) && RunInv(env, t, r.store, r.run)
  {
    UnzipDataGrows(env, run.a, s.data, run.u, ua);
    UnzipStepInv(env, run.a, s.data, run.u, ua);
    BlobsAdded(env, s, UnzipData(env, run.a, s.data, run.u, ua));
  }

  /** The names under which a run saves an entry: a branch entry loses its first directory, if it has one, and is left
      out when nothing remains; release and package entries keep their names. */
  ghost predicate SavesAs(kind: RepoType, name: string, saved: string) {
    if kind == BranchRepo
    then saved != "" && (('/' !in name && saved == name) || exists dir: string :: LosesDirectory(name, dir, saved))
    else saved == name
  }

  /** The list has exactly the entries of the zip file, each under the name it is saved as and with its hash. */
  ghost predicate ListsZip(env: Env, kind: RepoType, zip: seq<Entry>, files: Pages) {
    forall file: PageFile :: file in files <==>
      exists e :: e in zip && SavesAs(kind, e.name, file.name) && env.hash(e.content) == file.sha
  }

  /** The archive to unpack has the entries of the download, and saves them under these names. */
  ghost predicate SavesZip(a: Archive, kind: RepoType, zip: Option<seq<Entry>>) {
    && zip == Some(a.entries)
    && forall i: nat, saved :: i < |a.entries| ==>
                          (SaveNameOf(a, i) == Some(saved) <==> SavesAs(kind, a.entries[i].name, saved))
  }

  lemma DownloadNames(env: Env, t: Task, zip: Option<seq<Entry>>)
    requires t.FetchVersion? && AfterFetch(env, t, zip).VUnzip?
    ensures SavesZip(AfterFetch(env, t, zip).a, t.kind, zip)
  {
    var a := AfterFetch(env, t, zip).a;
    forall i: nat, saved | i < |a.entries|
      ensures SaveNameOf(a, i) == Some(saved) <==> SavesAs(t.kind, a.entries[i].name, saved)
    {
      if t.kind == BranchRepo {
        StripOneIff(a.entries[i].name, saved);
      }
    }
  }

  /** What a download becomes when a run unpacks it. */
  lemma UnpackedNames(env: Env, t: Task, s: Store, zip: Option<seq<Entry>>)
    requires RunEnabled(env, t, VFetch, Fetch(zip)) && RunStep(env, t, s, VFetch, Fetch(zip)).run.VUnzip?
    ensures SavesZip(RunStep(env, t, s, VFetch, Fetch(zip)).run.a, t.kind, zip)
  {
    DownloadNames(env, t, zip);
  }

  /** A list published for what a run unpacks has exactly the entries of its download. */
  lemma PublishedZip(env: Env, t: Task, s: Store, zip: Option<seq<Entry>>, data: map<string, Bytes>, files: Pages)
    requires ValidEnv(env) && RunEnabled(env, t, VFetch, Fetch(zip))
             && RunStep(env, t, s, VFetch, Fetch(zip)).run.VUnzip?
    requires Published(env, env.archives(t.version.sha), data, files)
    ensures zip.Some? && ListsZip(env, t.kind, zip.value, files)
  {
    UnpackedNames(env, t, s, zip);
    FetchedArchive(env, t, zip);
    var a := env.archives(t.version.sha);
    forall file: PageFile
      ensures file in files <==>
              exists e :: e in zip.value && SavesAs(t.kind, e.name, file.name) && env.hash(e.content) == file.sha
    {
      PublishedMembers(env, a, data, files, file);
      if e :| e in zip.value && SavesAs(t.kind, e.name, file.name) && env.hash(e.content) == file.sha {
        var i :| 0 <= i < |a.entries| && a.entries[i] == e;
        assert SaveNameOf(a, i) == Some(file.name);
      }
      if i: nat :| && i < |a.entries| && SaveNameOf(a, i) == Some(file.name)
                   && env.hash(a.entries[i].content) == file.sha {
        assert a.entries[i] in zip.value;
      }
    }
  }

  /** In a branch archive whose entries all lie in one top directory, an entry is saved under what follows it. */
  lemma TopDirectoryLost(p: string, name: string, rest: string)
    requires ComponentPrefix(p, 1) && HasPrefix(name, p)
    ensures SavesAs(BranchRepo, name, rest) <==> rest != "" && name == p + rest
  {
    var follows := name[|p|..];
    assert name == p + follows;
    StripOneIff(name, rest);
    StrippedCharacterised(name, 1);
  }

  /** The digest check pins a package download to the archive of its version. */
  lemma FetchedArchive(env: Env, t: Task, zip: Option<seq<Entry>>)
    requires ValidEnv(env) && t.FetchVersion? && Faithful(env, t.kind, t.version.sha, zip)
    ensures AfterFetch(env, t, zip).VUnzip? ==>
              AfterFetch(env, t, zip) == VUnzip(env.archives(t.version.sha), UNZIP_INIT)
  {
  }

  lemma PublishRunStep(env: Env, t: Task, s: Store, run: Run, dbOk: bool)
    requires ValidEnv(env) && StoreInv(env, s) && RunInv(env, t, s, run) && RunEnabled(env, t, run, Publish(dbOk))
    ensures var r := RunStep(env, t, s, run, Publish(dbOk));
            StoreInv(env, r.store) && StoreGrows(s, r.store) && RunInv(env, t, r.store, r.run)
  {
  }

  lemma StoreRepoRunStep(env: Env, t: Task, s: Store, run: Run, dbOk: bool)
    requires StoreInv(env, s) && RunInv(env, t, s, run) && RunEnabled(env, t, run, StoreRepo(dbOk))
    ensures var r := RunStep(env, t, s, run, StoreRepo(dbOk));
            StoreInv(env, r.store) && StoreGrows(s, r.store) && RunInv(env, t, r.store, r.run)
  {
  }

  /** The steps that leave the store alone. */
  lemma QuietRunStep(env: Env, t: Task, s: Store, run: Run, act: RunAct)
    requires ValidEnv(env) && RunInv(env, t, s, run) && RunEnabled(env, t, run, act)
    requires act.Check? || act.Fetch? || act.Wait? || act.List? || act.EnqueueNext?
    ensures var r := RunStep(env, t, s, run, act); r.store == s && RunInv(env, t, s, r.run)
  {
    match act
    case Fetch(zip) =>
      FetchedArchive(env, t, zip);
      UnzipInitInv(env, env.archives(t.version.sha), s.data);
    case Wait =>
      if !run.u.failed {
        UnzipRefinesSequential(env, run.a, s.data, run.u);
        assert PublishedAs(env, run.a, s.data, run.u.files, run.u.order);
      }
    case List(listing, sorted) =>
      if listing.Some? && VersionsOf(listing.value, t.repo.repo).Some?
      && VersionsOf(listing.value, t.repo.repo).value != [] {
        CanonicalRecord(t.repo, sorted, VersionsOf(listing.value, t.repo.repo).value);
      }
    case _ =>
  }

  /** Every step of every runner keeps the store invariant, only adds to the store, and keeps what the runner knows. */
  lemma RunStepInv(env: Env, t: Task, s: Store, run: Run, act: RunAct)
    requires ValidEnv(env) && StoreInv(env, s) && RunInv(env, t, s, run) && RunEnabled(env, t, run, act)
    ensures var r := RunStep(env, t, s, run, act);
            StoreInv(env, r.store) && StoreGrows(s, r.store) && RunInv(env, t, r.store, r.run)
  {
    match act
    case UnzipDo(ua) => UnzipRunStep(env, t, s, run, ua);
    case Publish(dbOk) => PublishRunStep(env, t, s, run, dbOk);
    case StoreRepo(dbOk) => StoreRepoRunStep(env, t, s, run, dbOk);
    case _ => QuietRunStep(env, t, s, run, act);
  }
}
