/** The jobs of the server: their queues, their deduping keys and the form in which they travel. */
module Tasks {
  import opened Types

  datatype Task =
    | FetchRepo(kind: RepoType, repo: Repo)
    | FetchVersion(kind: RepoType, repo: Repo, version: Version)

  /** One queue per task kind. */
  datatype QName = QName(version: bool, kind: RepoType)

  const ALL_QUEUES: seq<QName> :=
    [QName(false, PackageRepo), QName(true, PackageRepo), QName(false, ReleaseRepo), QName(true, ReleaseRepo),
     QName(false, BranchRepo), QName(true, BranchRepo)]

  lemma AllQueuesAreAll(q: QName)
    ensures q in ALL_QUEUES
  {
    assert ALL_QUEUES[0] == QName(false, PackageRepo) && ALL_QUEUES[1] == QName(true, PackageRepo);
    assert ALL_QUEUES[2] == QName(false, ReleaseRepo) && ALL_QUEUES[3] == QName(true, ReleaseRepo);
    assert ALL_QUEUES[4] == QName(false, BranchRepo) && ALL_QUEUES[5] == QName(true, BranchRepo);
    match q.kind
    case PackageRepo => assert q == ALL_QUEUES[0] || q == ALL_QUEUES[1];
    case ReleaseRepo => assert q == ALL_QUEUES[2] || q == ALL_QUEUES[3];
    case BranchRepo => assert q == ALL_QUEUES[4] || q == ALL_QUEUES[5];
  }

  function QueueOf(t: Task): QName {
    QName(t.FetchVersion?, t.kind)
  }

  function QueueName(q: QName): string {
    match q
    case QName(false, BranchRepo) => "fetchRepoFromBranch"
    case QName(false, PackageRepo) => "fetchRepoFromPackages"
    case QName(false, ReleaseRepo) => "fetchRepoFromReleases"
    case QName(true, BranchRepo) => "fetchVersionFromBranches"
    case QName(true, PackageRepo) => "fetchVersionFromPackages"
    case QName(true, ReleaseRepo) => "fetchVersionFromReleases"
  }

  /** The text of a repository job, or the fields of a version job, whose JSON form is read back unchanged. */
  datatype Payload = Text(text: string) | Json(repo: Repo, version: Version)

  function Job(t: Task): Payload {
    match t
    case FetchRepo(_, repo) => Text(RepoString(repo))
    case FetchVersion(_, repo, version) => Json(repo, version)
  }

  function ParseJob(q: QName, job: Payload): Option<Task> {
    match job
    case Text(text) => (
      if q.version then None
      else match ParseRepo(text) case None => None case Some(repo) => Some(FetchRepo(q.kind, repo)))
    case Json(repo, version) => if q.version then Some(FetchVersion(q.kind, repo, version)) else None
  }

  function DedupingKey(t: Task): string {
    match t
    case FetchRepo(_, repo) => "fetch[" + RepoString(repo) + "]"
    case FetchVersion(_, _, version) => "fetchVersion[" + version.sha + "]"
  }

  /** A job is always parsed by its own queue, into a task with the same key; it is the same task exactly when it is
      a version job or its owner has no slash. */
  lemma JobRoundTrip(t: Task)
    ensures ParseJob(QueueOf(t), Job(t)).Some?
    ensures QueueOf(ParseJob(QueueOf(t), Job(t)).value) == QueueOf(t)
    ensures DedupingKey(ParseJob(QueueOf(t), Job(t)).value) == DedupingKey(t)
    ensures ParseJob(QueueOf(t), Job(t)) == Some(t) <==> t.FetchVersion? || '/' !in t.repo.owner
  {
    RepoStringRoundTrip(t.repo);
    if t.FetchRepo? {
      var s := RepoString(t.repo);
      var (owner, repo) := Cut(s, '/').value;
      assert owner + ['/'] + repo == owner + "/" + repo;
    }
  }

  /** Within one queue two jobs share a key exactly when they fetch the same SHA, or repositories with one key. */
  lemma SameKey(t: Task, t': Task)
    requires QueueOf(t) == QueueOf(t')
    ensures DedupingKey(t) == DedupingKey(t') <==>
            if t.FetchVersion? then t.version.sha == t'.version.sha else RepoString(t.repo) == RepoString(t'.repo)
  {
    var (k, k') := (DedupingKey(t), DedupingKey(t'));
    if t.FetchVersion? {
      assert k[13..|k| - 1] == t.version.sha && k'[13..|k'| - 1] == t'.version.sha;
    } else {
      assert k[6..|k| - 1] == RepoString(t.repo) && k'[6..|k'| - 1] == RepoString(t'.repo);
    }
  }

  /** The six queues have six names, so `NewQueue` never overwrites one. */
  lemma QueueNamesDistinct(p: QName, q: QName)
    ensures QueueName(p) == QueueName(q) <==> p == q
  {
    assert QueueName(p)[5] == 'R' <==> !p.version;
    assert QueueName(q)[5] == 'R' <==> !q.version;
    var (np, nq) := (QueueName(p), QueueName(q));
    assert p.version ==>
             np[16] == (match p.kind case BranchRepo => 'B' case PackageRepo => 'P' case ReleaseRepo => 'R');
    assert q.version ==>
             nq[16] == (match q.kind case BranchRepo => 'B' case PackageRepo => 'P' case ReleaseRepo => 'R');
    assert !p.version ==>
             np[13] == (match p.kind case BranchRepo => 'B' case PackageRepo => 'P' case ReleaseRepo => 'R');
    assert !q.version ==>
             nq[13] == (match q.kind case BranchRepo => 'B' case PackageRepo => 'P' case ReleaseRepo => 'R');
  }
}
