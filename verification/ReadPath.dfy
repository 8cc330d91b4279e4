/** The read path (tasks.go): repository record, version, metadata, file, blob. */
module ReadPath {
  import opened Types
  import opened Strip
  import opened Archives
  import opened Unzip
  import opened Listings
  import opened Tasks

  /** A repository record and the listing it was made from. */
  datatype Record = Record(info: RepoInfo, listing: Listing)

  /** The contents of the bbolt buckets; `records` is the history of all repository records ever stored. */
  datatype Store = Store(repos: map<string, RepoInfo>, meta: map<string, Pages>, data: map<string, Bytes>,
                         records: set<Record>)

  datatype Answer = Data(bytes: Bytes) | NotReady | VersionNotFound | FileNotFound | Failed

  function SelectFrom(versions: seq<Version>, name: string): (v: Option<Version>)
    ensures v.Some? ==> v.value in versions && v.value.version == name
    ensures v.Some? ==> exists i :: 0 <= i < |versions| && FirstNamed(versions, i, name) && versions[i] == v.value
    ensures v == None <==> forall w :: w in versions ==> w.version != name
  {
    if versions == [] then None
    else if versions[0].version == name then assert FirstNamed(versions, 0, name); Some(versions[0])
    else
      var later := SelectFrom(versions[1..], name);
      assert later.Some? ==>
               forall i :: 0 <= i < |versions| - 1 && FirstNamed(versions[1..], i, name) ==>
                      FirstNamed(versions, i + 1, name) && versions[i + 1] == versions[1..][i];
      later
  }

  /** Position `i` holds the first version of that name. */
  predicate FirstNamed(versions: seq<Version>, i: nat, name: string) {
    && i < |versions| && versions[i].version == name
    && forall j :: 0 <= j < i ==> versions[j].version != name
  }

  /** No version asked for means the latest one; otherwise the first with that name. */
  function SelectVersion(info: RepoInfo, name: string): Option<Version> {
    if name == "" then Some(info.latest) else SelectFrom(info.versions, name)
  }

  function Normalise(file: string): string {
    var file := if file == "" then "index.html" else file;
    if EndsWith(file, '/') then file + "index.html" else file
  }

  /** The name of a file rather than of a directory. */
  predicate Ordinary(file: string) {
    file != "" && !EndsWith(file, '/')
  }

  /** Ordinary names are looked up as they are, all others with `index.html` behind them. */
  lemma NormalisedName(file: string)
    ensures Normalise(file) == if Ordinary(file) then file else file + "index.html"
    ensures Normalise(file) == file <==> Ordinary(file)
  {
  }

  /** Normalised names never end in a slash, so an entry that is a directory is never served. */
  lemma DirectoriesNeverServed(a: Archive, i: nat, file: string)
    requires i < |a.entries| && EndsWith(a.entries[i].name, '/')
    ensures Normalise(file) != "" && !EndsWith(Normalise(file), '/')
    ensures SaveNameOf(a, i) != Some(Normalise(file))
  {
    if SaveNameOf(a, i).Some? {
      DirectoriesKeepSlash(a.entries[i].name, a.strip);
    }
  }

  /** Which of the store accesses and the enqueue succeed during one request. */
  datatype Faults = Faults(repoOk: bool, metaOk: bool, dataOk: bool, enqueueOk: bool)

  /** A request between its store accesses. `Missed` has found no record, or no metadata for the version it selected,
      and is about to enqueue the fetch. */
  datatype Req =
    | Asked(r: RepoFileAtVersion, rt: RepoType)
    | Chosen(r: RepoFileAtVersion, rt: RepoType, info: RepoInfo, version: Version)
    | Located(r: RepoFileAtVersion, rt: RepoType, info: RepoInfo, version: Version, hash: string)
    | Missed(r: RepoFileAtVersion, rt: RepoType, selected: Option<Version>)
    | Answered(r: RepoFileAtVersion, rt: RepoType, selected: Option<Version>, answer: Answer)

  datatype ReqResult = ReqResult(req: Req, post: Option<Task>)

  /** What a request that has missed enqueues. */
  function MissTask(r: RepoFileAtVersion, rt: RepoType, selected: Option<Version>): Task {
    match selected case None => FetchRepo(rt, r.repo) case Some(v) => FetchVersion(rt, r.repo, v)
  }

  /** One atomic step: one store access or enqueue, and the code up to the next one. */
  function ReqStep(s: Store, req: Req, f: Faults): ReqResult {
    match req
    case Asked(r, rt) => (
      if !f.repoOk then ReqResult(Answered(r, rt, None, Failed), None)
      else if RepoString(r.repo) !in s.repos then ReqResult(Missed(r, rt, None), None)
      else
        var info := s.repos[RepoString(r.repo)];
        match SelectVersion(info, r.version)
        case None => ReqResult(Answered(r, rt, None, VersionNotFound), None)
        case Some(v) =>
          if v.sha == "" then ReqResult(Answered(r, rt, Some(v), NotReady), None)
          else ReqResult(Chosen(r, rt, info, v), None))
    case Chosen(r, rt, info, v) => (
      if !f.metaOk then ReqResult(Answered(r, rt, Some(v), Failed), None)
      else if v.sha !in s.meta then ReqResult(Missed(r, rt, Some(v)), None)
      else
        var hash := FindFile(s.meta[v.sha], Normalise(r.file));
        if hash == "" then ReqResult(Answered(r, rt, Some(v), FileNotFound), None)
        else ReqResult(Located(r, rt, info, v, hash), None))
    case Located(r, rt, info, v, hash) => (
      if !f.dataOk then ReqResult(Answered(r, rt, Some(v), Failed), None)
      else if hash in s.data then ReqResult(Answered(r, rt, Some(v), Data(s.data[hash])), None)
      else ReqResult(Answered(r, rt, Some(v), NotReady), None))
    case Missed(r, rt, selected) => (
      if f.enqueueOk then ReqResult(Answered(r, rt, selected, NotReady), Some(MissTask(r, rt, selected)))
      else ReqResult(Answered(r, rt, selected, if selected == None then NotReady else Failed), None))
    case Answered(_, _, _, _) => ReqResult(req, None)
  }

  /** How many steps a request has ahead of it at most. */
  function Ahead(req: Req): nat {
    match req
    case Asked(_, _) => 3
    case Chosen(_, _, _, _) => 2
    case Located(_, _, _, _, _) => 1
    case Missed(_, _, _) => 1
    case Answered(_, _, _, _) => 0
  }

  /** A request that runs without interruption: its steps until it is answered, and what it enqueued. */
  function Respond(s: Store, req: Req, f: Faults): (result: ReqResult)
    ensures result.req.Answered?
    decreases Ahead(req)
  {
    var next := ReqStep(s, req, f);
    if next.req.Answered? then next else Respond(s, next.req, f)
  }

  // ---------------------------------------------------------------- what the store may hold

  ghost predicate StoredFrom(info: RepoInfo, listing: Listing) {
    && Canonical(info) && VersionsOf(listing, info.repo.repo).Some?
    && SortOf(info.versions, VersionsOf(listing, info.repo.repo).value)
  }

  /** The record is or was in the store. */
  ghost predicate Held(s: Store, info: RepoInfo) {
    exists listing :: Record(info, listing) in s.records
  }

  /** Blobs sit under their hash; no metadata is under the empty SHA; published metadata is what an unzip of that
      version's archive may list, with every blob present; repository records are in the history and sit under their
      own key; all records are canonical. */
  ghost predicate StoreInv(env: Env, s: Store) {
    && ContentAddressed(env, s.data)
    && "" !in s.meta && (forall sha :: sha in s.meta ==> Published(env, env.archives(sha), s.data, s.meta[sha]))
    && (forall key :: key in s.repos ==> key == RepoString(s.repos[key].repo) && Held(s, s.repos[key]))
    && (forall record :: record in s.records ==> StoredFrom(record.info, record.listing))
  }

  /** What every participant guarantees to all others: blobs, metadata keys, repository keys and history only
      accumulate. */
  ghost predicate StoreGrows(s: Store, s': Store) {
    && DataGrows(s.data, s'.data) && s.meta.Keys <= s'.meta.Keys && s.repos.Keys <= s'.repos.Keys
    && s.records <= s'.records
  }

  lemma PublishedStable(env: Env, a: Archive, data: map<string, Bytes>, data': map<string, Bytes>, files: Pages)
    requires Published(env, a, data, files) && DataGrows(data, data')
    ensures Published(env, a, data', files)
  {
    var order: seq<nat> :| PublishedAs(env, a, data, files, order);
    forall i | 0 <= i < |a.entries|
      ensures HasBlob(env, a, data', i)
    {
      assert HasBlob(env, a, data, i);
    }
    assert PublishedAs(env, a, data', files, order);
  }

  /** Every file listed in published metadata has its blob. */
  lemma NoDanglingFiles(env: Env, s: Store, sha: string, k: nat)
    requires StoreInv(env, s) && sha in s.meta && k < |s.meta[sha]|
    ensures s.meta[sha][k].sha in s.data && env.hash(s.data[s.meta[sha][k].sha]) == s.meta[sha][k].sha
  {
    var a := env.archives(sha);
    var order: seq<nat> :| PublishedAs(env, a, s.data, s.meta[sha], order);
    CollectHasBlobs(env, a, s.data, order, k);
  }

  lemma {:induction false} CollectHasBlobs(env: Env, a: Archive, data: map<string, Bytes>, order: seq<nat>, k: nat)
    requires InRange(a, order) && k < |Collect(env, a, order)|
    requires forall i :: 0 <= i < |a.entries| ==> HasBlob(env, a, data, i)
    ensures Collect(env, a, order)[k].sha in data
  {
    var front, last := order[..|order| - 1], order[|order| - 1];
    if k < |Collect(env, a, front)| {
      CollectHasBlobs(env, a, data, front, k);
    } else {
      assert HasBlob(env, a, data, last);
    }
  }

  // ---------------------------------------------------------------- the answer is the archive's answer

  /** `bytes` is the content of one of the first five entries of `a` saved under `name`. */
  ghost predicate FromArchive(a: Archive, name: string, bytes: Bytes) {
    exists j: nat :: EntryServes(a, name, bytes, j)
  }

  ghost predicate EntryServes(a: Archive, name: string, bytes: Bytes, j: nat) {
    j < |a.entries| && SaveNameOf(a, j) == Some(name) && FirstFive(a, j) && a.entries[j].content == bytes
  }

  /** The record is one that the server has stored for the repository. */
  ghost predicate RecordOf(s: Store, r: RepoFileAtVersion, info: RepoInfo) {
    Held(s, info) && RepoString(info.repo) == RepoString(r.repo)
  }

  /** `v` is what the request selects in a record that the server has stored for its repository. */
  ghost predicate SelectedFrom(s: Store, r: RepoFileAtVersion, info: RepoInfo, v: Version) {
    RecordOf(s, r, info) && SelectVersion(info, r.version) == Some(v)
  }

  /** What a request in progress knows, whatever the other participants have done since it read it. */
  ghost predicate ReqInv(env: Env, s: Store, req: Req) {
    match req
    case Asked(_, _) => true
    case Chosen(r, _, info, v) => SelectedFrom(s, r, info, v) && v.sha != ""
    case Located(r, _, info, v, hash) =>
      SelectedFrom(s, r, info, v) && hash in s.data && FromArchive(env.archives(v.sha), Normalise(r.file), s.data[hash])
    case Missed(_, _, _) => true
    case Answered(r, _, v, answer) => AnswerInv(env, s, r, v, answer)
  }

  /** What an answer promises: bytes are from the archive of the selected version, a missing file is missing there, a
      missing version is missing in a record of the repository. */
  ghost predicate AnswerInv(env: Env, s: Store, r: RepoFileAtVersion, selected: Option<Version>, answer: Answer) {
    match answer
    case Data(bytes) =>
      && selected.Some? && FromArchive(env.archives(selected.value.sha), Normalise(r.file), bytes)
      && exists info :: SelectedFrom(s, r, info, selected.value)
    case FileNotFound =>
      && selected.Some? && Serve(env.archives(selected.value.sha), Normalise(r.file)) == None
      && exists info :: SelectedFrom(s, r, info, selected.value)
    case VersionNotFound => exists info :: RecordOf(s, r, info) && SelectVersion(info, r.version) == None
    case _ => true
  }

  lemma ReqInvStable(env: Env, s: Store, s': Store, req: Req)
    requires ReqInv(env, s, req) && StoreGrows(s, s')
    ensures ReqInv(env, s', req)
  {
    assert forall info :: Held(s, info) ==> Held(s', info);
    if req.Answered? {
      if req.answer.VersionNotFound? {
        var info :| RecordOf(s, req.r, info) && SelectVersion(info, req.r.version) == None;
        assert RecordOf(s', req.r, info);
      } else if req.answer.Data? || req.answer.FileNotFound? {
        var info :| SelectedFrom(s, req.r, info, req.selected.value);
        assert SelectedFrom(s', req.r, info, req.selected.value);
      }
    }
  }

  /** A request step keeps what is known, and once a file is located its blob is there. */
  lemma ReqStepInv(env: Env, s: Store, req: Req, f: Faults)
    requires ValidEnv(env) && StoreInv(env, s) && ReqInv(env, s, req)
    ensures ReqInv(env, s, ReqStep(s, req, f).req)
    ensures req.Located? && f.dataOk ==> ReqStep(s, req, f).req.answer.Data?
  {
    if req.Asked? && f.repoOk && RepoString(req.r.repo) in s.repos {
      assert RecordOf(s, req.r, s.repos[RepoString(req.r.repo)]);
    } else if req.Chosen? && f.metaOk && req.version.sha in s.meta {
      var a := env.archives(req.version.sha);
      var name := Normalise(req.r.file);
      LookupIsFirstFive(env, a, s.data, s.meta[req.version.sha], name);
      var hash := FindFile(s.meta[req.version.sha], name);
      if hash != "" {
        var j :| 0 <= j < |a.entries| && SaveNameOf(a, j) == Some(name) && FirstFive(a, j)
                 && hash == env.hash(a.entries[j].content) && hash in s.data;
        assert EntryServes(a, name, s.data[hash], j);
      }
    }
  }

  const NO_FAULTS: Faults := Faults(true, true, true, true)

  /** The answer that looking the file up in the archive gives. */
  function FromServe(served: Option<Bytes>): Answer {
    match served case None => FileNotFound case Some(bytes) => Data(bytes)
  }

  lemma ChosenResponds(env: Env, s: Store, r: RepoFileAtVersion, rt: RepoType, info: RepoInfo, v: Version)
    requires ValidEnv(env) && ContentAddressed(env, s.data) && v.sha in s.meta
    requires Published(env, env.archives(v.sha), s.data, s.meta[v.sha]) && Agree(env.archives(v.sha))
    ensures var result := Respond(s, Chosen(r, rt, info, v), NO_FAULTS);
            result.post == None && result.req.answer ==
            FromServe(Serve(env.archives(v.sha), Normalise(r.file)))
  {
    var name := Normalise(r.file);
    LookupIsServe(env, env.archives(v.sha), s.data, s.meta[v.sha], name);
    var hash := FindFile(s.meta[v.sha], name);
    var next := ReqStep(s, Chosen(r, rt, info, v), NO_FAULTS).req;
    if hash != "" {
      assert next == Located(r, rt, info, v, hash);
      assert Respond(s, next, NO_FAULTS) == ReqStep(s, next, NO_FAULTS);
    }
  }

  lemma MissedResponds(s: Store, r: RepoFileAtVersion, rt: RepoType, selected: Option<Version>)
    ensures Respond(s, Missed(r, rt, selected), NO_FAULTS) ==
            ReqResult(Answered(r, rt, selected, NotReady), Some(MissTask(r, rt, selected)))
  {
  }

  /** Reading agrees with looking the file up in the archive. With no fault, and when the first five entries under
      each name agree: bytes are served exactly when the repository and version are known, the version is published
      and the archive has the normalised name, and then they are the archive's bytes. */
  lemma RespondIsArchiveLookup(env: Env, s: Store, r: RepoFileAtVersion, rt: RepoType)
    requires ValidEnv(env) && StoreInv(env, s)
    requires forall sha :: sha in s.meta ==> Agree(env.archives(sha))
    ensures var result := Respond(s, Asked(r, rt), NO_FAULTS);
            if RepoString(r.repo) !in s.repos then
              result.req.answer == NotReady && result.post == Some(FetchRepo(rt, r.repo))
            else match SelectVersion(s.repos[RepoString(r.repo)], r.version)
              case None => result.req.answer == VersionNotFound && result.post == None
              case Some(v) =>
                if v.sha == "" then result.req.answer == NotReady && result.post == None
                else if v.sha !in s.meta then
                  result.req.answer == NotReady && result.post == Some(FetchVersion(rt, r.repo, v))
                else result.post == None && result.req.answer ==
                     FromServe(Serve(env.archives(v.sha), Normalise(r.file)))
  {
    var asked := Asked(r, rt);
    MissedResponds(s, r, rt, None);
    if RepoString(r.repo) in s.repos {
      var info := s.repos[RepoString(r.repo)];
      var v := SelectVersion(info, r.version);
      if v.Some? && v.value.sha != "" {
        var next := Chosen(r, rt, info, v.value);
        assert ReqStep(s, asked, NO_FAULTS).req == next;
        assert Respond(s, asked, NO_FAULTS) == Respond(s, next, NO_FAULTS);
        if v.value.sha in s.meta {
          ChosenResponds(env, s, r, rt, info, v.value);
        } else {
          MissedResponds(s, r, rt, v);
          assert ReqStep(s, next, NO_FAULTS).req == Missed(r, rt, v);
        }
      }
    }
  }

  /** A published version answers a request for an ordinary name like its archive answers for that very name, and any
      other like for the name with `index.html` behind it. */
  lemma AnsweredUnderName(env: Env, s: Store, r: RepoFileAtVersion, rt: RepoType, v: Version)
    requires ValidEnv(env) && StoreInv(env, s) && RepoString(r.repo) in s.repos
    requires SelectVersion(s.repos[RepoString(r.repo)], r.version) == Some(v) && v.sha in s.meta
    requires Agree(env.archives(v.sha))
    ensures var result := Respond(s, Asked(r, rt), NO_FAULTS);
            var name := if Ordinary(r.file) then r.file else r.file + "index.html";
            result.post == None && result.req.answer == FromServe(Serve(env.archives(v.sha), name))
  {
    NormalisedName(r.file);
    assert v.sha != "";
    var chosen := Chosen(r, rt, s.repos[RepoString(r.repo)], v);
    assert ReqStep(s, Asked(r, rt), NO_FAULTS).req == chosen;
    assert Respond(s, Asked(r, rt), NO_FAULTS) == Respond(s, chosen, NO_FAULTS);
    ChosenResponds(env, s, r, rt, s.repos[RepoString(r.repo)], v);
  }

  /** The file that a published version serves for the request, as it is listed: the empty hash when it is not. */
  function WantedHash(s: Store, r: RepoFileAtVersion, v: Version): string
    requires v.sha in s.meta
  {
    FindFile(s.meta[v.sha], if Ordinary(r.file) then r.file else r.file + "index.html")
  }

  /** A request with a version in hand, for every combination of faults. */
  ghost predicate Outcome(s: Store, r: RepoFileAtVersion, rt: RepoType, v: Version, f: Faults, result: ReqResult)
    requires result.req.Answered?
  {
    if !f.metaOk then result.req.answer == Failed && result.post == None
    else if v.sha !in s.meta then
      if f.enqueueOk then result.req.answer == NotReady && result.post == Some(FetchVersion(rt, r.repo, v))
      else result.req.answer == Failed && result.post == None
    else
      && result.post == None
      && (result.req.answer == FileNotFound <==> WantedHash(s, r, v) == "")
      && (result.req.answer == Failed <==> WantedHash(s, r, v) != "" && !f.dataOk)
      && (result.req.answer == NotReady <==> WantedHash(s, r, v) != "" && f.dataOk && WantedHash(s, r, v) !in s.data)
      && forall bytes :: result.req.answer == Data(bytes) <==>
                           && WantedHash(s, r, v) != "" && f.dataOk && WantedHash(s, r, v) in s.data
                           && s.data[WantedHash(s, r, v)] == bytes
  }

  lemma ChosenOutcome(s: Store, r: RepoFileAtVersion, rt: RepoType, info: RepoInfo, v: Version, f: Faults)
    ensures Outcome(s, r, rt, v, f, Respond(s, Chosen(r, rt, info, v), f))
  {
    NormalisedName(r.file);
    var next := ReqStep(s, Chosen(r, rt, info, v), f);
    if !next.req.Answered? {
      assert Respond(s, Chosen(r, rt, info, v), f) == Respond(s, next.req, f);
      assert Respond(s, next.req, f) == ReqStep(s, next.req, f);
    }
  }

  /** What a request is answered and what it enqueues, for every combination of faults. A store access that fails is
      reported when it is needed, and so is a refused version job; a refused repository job is not. */
  lemma RespondOutcome(s: Store, r: RepoFileAtVersion, rt: RepoType, f: Faults)
    ensures var result := Respond(s, Asked(r, rt), f);
            if !f.repoOk then result.req.answer == Failed && result.post == None
            else if RepoString(r.repo) !in s.repos then
              && result.req.answer == NotReady
              && result.post == if f.enqueueOk then Some(FetchRepo(rt, r.repo)) else None
            else match SelectVersion(s.repos[RepoString(r.repo)], r.version)
              case None => result.req.answer == VersionNotFound && result.post == None
              case Some(v) =>
                if v.sha == "" then result.req.answer == NotReady && result.post == None
                else Outcome(s, r, rt, v, f, result)
  {
    var next := ReqStep(s, Asked(r, rt), f);
    if !next.req.Answered? {
      assert Respond(s, Asked(r, rt), f) == Respond(s, next.req, f);
      if next.req.Missed? {
        assert Respond(s, next.req, f) == ReqStep(s, next.req, f);
      } else {
        ChosenOutcome(s, r, rt, next.req.info, next.req.version, f);
      }
    }
  }

  /** A request for no file or for a directory is answered like one for its `index.html`, whatever fails. */
  lemma DirectoriesLikeIndex(s: Store, r: RepoFileAtVersion, rt: RepoType, f: Faults)
    requires !Ordinary(r.file)
    ensures var index := r.(file := r.file + "index.html");
            && Respond(s, Asked(r, rt), f).req.answer == Respond(s, Asked(index, rt), f).req.answer
            && Respond(s, Asked(r, rt), f).post == Respond(s, Asked(index, rt), f).post
  {
    var index := r.(file := r.file + "index.html");
    assert Ordinary(index.file);
    RespondOutcome(s, r, rt, f);
    RespondOutcome(s, index, rt, f);
  }

  /** An unversioned request selects a newest version of the record. */
  lemma LatestIsNewest(info: RepoInfo)
    requires Canonical(info)
    ensures SelectVersion(info, "") == Some(info.latest) && info.latest in info.versions
    ensures forall v :: v in info.versions ==> v.createdAt <= info.latest.createdAt
  {
  }

  /** With `gh-pages` newer than every other kept branch, asking for "latest" by name and asking for no version give
      the same version, even when a branch `gh-pages-latest` also exists. */
  lemma LatestByName(branches: seq<Branch>, now: int, repo: Repo, sorted: seq<Version>, g: Branch)
    requires VersionsOf(Branches(branches, now), "").Some?
             && SortOf(sorted, VersionsOf(Branches(branches, now), "").value)
    requires g in branches && g.name == PAGES_BRANCH
    requires forall b :: b in branches && b.name == PAGES_BRANCH ==> b == g
    requires forall b :: b in branches && b.name != PAGES_BRANCH && BranchVersion(b.name).Some? ==> b.timestamp < now
    ensures sorted != [] && SelectVersion(RepoInfo(repo, sorted[0], sorted), "latest") ==
                            SelectVersion(RepoInfo(repo, sorted[0], sorted), "") != None
  {
    GhPagesIsLatest(branches, now, sorted, g);
  }
}
