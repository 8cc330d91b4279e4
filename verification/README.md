# Pages server: the page cache and the pipeline that fills it

The pages server serves the documentation of Gitea repositories. A repository record lists its versions, each version
is an archive of files, and the server keeps three stores: records by repository, file lists by version SHA
(metadata), and file contents by their own hash (blobs). What is missing is fetched by jobs in six deduplicating
queues. This project models that system in Dafny and proves what holds for every schedule of its requests, workers
and goroutines, across crashes. It also models the shared bucket store below it and the style-sheet writer of
`templates/fetchJS`.

`dafny verify dfyconfig.toml` checks everything.

## How it is put together

| files | what they model |
|---|---|
| `Types`, `Tasks`, `ReleaseIds`, `Strip` | values, keys, job strings, ids, names of archive entries |
| `Unzip`, `UnzipSchedules` | unpacking by at most five goroutines, step by step, and what its schedules can produce |
| `Paging`, `Listings` | the paging loop, branches, packages and releases as versions, the stored record |
| `DedupQueue`, `Burst` | one deduplicating queue as a state machine, with table read and claim as two steps and as one |
| `ReadPath`, `Runners` | requests and the six runners as steps over the shared stores |
| `System`, `Provenance`, `ReleaseJobs`, `Answered`, `RepoJobs`, `Draining` | the whole server: six queues, concurrent requests, hooks, crashes; theorems about every run |
| `Scenarios` | runs that reach what cannot be ruled out |
| `JobQueues`, `Server`, `RunnerRuns` | the same operations as code that changes its fields in place, proved to be runs of those machines |
| `SharedBolt`, `Buckets` | the shared bucket store and the typed stores over it |
| `FontCss` | cutting a style sheet at its references and writing the parts in order |

The state machines describe interleavings, which methods cannot: each step is one store access (or table access,
channel operation, clock reading) with the code up to the next one. The classes in `JobQueues`, `Server`,
`SharedBolt` and `Buckets` are the program's own objects; their methods are proved to do exactly the steps of the
machines, so the theorems about runs are about that code. `UnzipDocs` schedules its goroutines nondeterministically.

A run of the server (`System.RunSys`) is any sequence of hooks, new requests, request steps, queue steps, runner steps
and crashes. `Reachable` is every state of every run from an empty database. `ReqInv`, `RunInv` and `QueueInv` say
what each participant may rely on, and `StoreGrows` what each guarantees to the others. For the specification the
store also keeps the history of all repository records it ever held, and the server the keys of repositories whose
listing a run has found empty since the start.

## Assumptions about the world

- The content hash is injective and never empty (`ValidEnv`).
- Behind every version SHA there is one archive with one strip depth (`Env.archives`). For packages the digest check
  enforces it (`Runners.FetchedArchive`); for releases and branches it is assumed of what a download brings
  (`Runners.Faithful`). A zip file is identified with its decoded entries.
- Clocks do not go backwards. A time that is written to a table or stamped on a job may have been read any time before.
- A runner returns, unless its type assertion fails: then it stays in the state `VPanicked` and is never released.
- A crash loses queues, tables and requests and keeps the stores. Workers per queue are any number; the code has two.
- For the theorem that paging is transparent the server's page count is honest (`Paging.Honest`): every page before the
  last one claims some later page, and some page from the last one on claims none. Zero is allowed, as Gitea reports it
  on the last page. This is no more than the loop needs (`Paging.TransparentIffHonest`), and the loop returns at all
  exactly when some page ends it (`Paging.ReturnsIff`).
- The ids that the server lists for releases are 64-bit integers (`ReleaseJobs.RealIds`).
- JSON gives back the value it was given.

## What was found

- Deduplication does not keep one runner per key: check and claim are two steps, and the code gives each queue two
  workers. A pool of n workers never has two runners of one key if and only if n < 2 (`Burst.OneRunnerIffOneWorker`).
  What remains for larger pools: in a burst without failures n workers run a key at most n times
  (`Burst.BurstRunsAtMostWorkers`). Answers do not depend on it as long as the first five entries saved under a name
  agree (`System.PublishedVersionsStable`).
- No job is lost although jobs are skipped by SHA alone: once a queue is at rest every version it was asked for is
  published, or a run of its key has failed (`Answered.EnqueuedVersionsArePublished`), and every repository has a record
  all of whose versions were enqueued, unless nothing was listed or a run failed (`RepoJobs.EnqueuedReposAreRecorded`).
- "A burst of jobs causes one success" holds, with check and claim in one step, for jobs posted before that success
  finishes. "A later success comes from a newer job" is no law: a failure removes the key from the table, and an older
  job may then succeed again (`Burst.FailureForgetsSuccess`). Exactly when an older job runs is
  `Burst.OlderJobRunsIff`: when nobody runs its key and every success that finished after it was posted has been
  followed by a failure of the key.
- If several entries of an archive are saved under one name, the one that is served depends on the schedule, but only
  among the first five, since five goroutines run at a time. `UnzipSchedules.AnswersFixedIffFirstFiveAgree` gives the
  exact condition for one unzip, `Scenarios.StableIffFirstFiveAgree` for the running server: two workers that both found
  the version missing publish it one after the other. Archives with one top directory and distinct names are safe
  (`Archives.CommonDirectoryAgrees`).
- A job that was stamped before the last success of its key and handed over after it is skipped even by a queue at
  rest; one stamped since then is always run, whatever the server does before a worker looks at it
  (`System.MissIsRun`).
- Stripping n and then m components is stripping n + m exactly when one of them is zero, all n + m slashes are there,
  or there are too few for either (`Strip.StripCompose`).
- A name with fewer slashes than components to strip is kept whole, and an empty name is ignored when stripping.
- Closing a store twice can let two stores share a bucket (`SharedBolt.DoubleCloseShares`). Open stores never share one
  exactly over those sequences of operations in which no store is closed again after its bucket was reopened
  (`SharedBolt.StaysExclusiveIff`). A closed store still writes to its bucket, which another store may have reopened
  (`SharedBolt.StrayWriteUnnoticedIff`).
- Two repositories share a key exactly when they split one string at two of its slashes (`Types.RepoKeysInjective`); a
  repository has its key for itself if and only if neither its owner nor its name contains a slash
  (`Types.RepoKeyUniqueIff`). It survives the trip through a job string if and only if its owner contains none.
- A release runner panics on a version that was listed from branches or packages. No runner ever panics if and only if
  every repository that is used for releases is used for nothing else (`Scenarios.NeverPanicsIffReleasesApart`); using
  one for branches and packages does no such harm.
- `fontCSS` slices out of range exactly on sheets whose references are all accepted and which are empty or end in a
  reference, and loses the last byte of every other sheet. On every sheet whose first reference is accepted a failing
  fetch can hang it, and so can a failing write with every fetch successful; on no other sheet it can hang, and never
  when nothing fails (`OrderedWriter.HangsIff`).
- The comment on `Store.Set` says values must not be nil and keys not empty; the code checks both, and the lower read
  reports success for absent keys, so presence is decided by the value alone.

## Model

| member | source | states |
|---|---|---|
| Strip.SaveName | taskFetchVersion.go:434-451 | the slash-counting loop computes the saved name, or that the entry is ignored |
| Strip.StrippedCharacterised | taskFetchVersion.go:434-451 | names with fewer than n slashes are kept whole (the empty name is ignored); every other name loses exactly its first n components and is ignored when nothing is left |
| Strip.StripOneIff | taskFetchVersion.go:434-451 | stripping one component: a name is saved as x if and only if x is not empty and the name is x without a slash in it, or x behind a text without a slash and a slash |
| Strip.StripInjective | taskFetchVersion.go:434-451 | entries under one common directory of depth n keep distinct names |
| Strip.StripCompose | taskFetchVersion.go:434-451 | stripping n then m equals stripping n + m if and only if one is zero, the name has n + m slashes, or it has fewer than either |
| Strip.DirectoriesKeepSlash | taskFetchVersion.go:434-451 | a directory entry that is saved still ends in a slash |
| Unzip.UnzipStepInv | taskFetchVersion.go:412-458 | every step of every goroutine keeps: at most five slots, blobs stored before names are appended, the list collected in mutex order, at most four entries overtaken |
| Unzip.UnzipInvStable | taskFetchVersion.go:426-430 | other unzips storing blobs do not disturb one in progress |
| Unzip.UnzipCanStep | taskFetchVersion.go:412-464 | an unzip that has not returned always has a step to take, so it does not deadlock on its five slots |
| Unzip.UnzipRefinesSequential | taskFetchVersion.go:408-464 | whatever the schedule, a successful unzip lists a permutation of the sequential filter-map and every entry has its blob |
| Unzip.PublishedMembers | taskFetchVersion.go:452-455 | a published list has the saved name and content hash of every entry that is saved, and nothing else |
| Unzip.LookupIsFirstFive | tasks.go:66-75 | a published list has a name exactly when the archive does, and what is found is the content of one of the first five entries of that name |
| Unzip.LookupIsServe | tasks.go:66-75 | when the first five entries of each name agree, the published list answers like the archive |
| Archives.CommonDirectoryAgrees | taskFetchVersion.go:434-451 | archives whose entries have distinct names in one directory as deep as what is stripped keep their names apart and answer alike under every schedule |
| UnzipSchedules.CanFinish | taskFetchVersion.go:412-464 | from any point without a failure some schedule returns successfully, keeping what is already listed |
| UnzipSchedules.AnyOfFirstFiveCanWin | taskFetchVersion.go:411-458 | each of the first five entries saved under a name is the one served under some schedule |
| UnzipSchedules.AnswersFixedIffFirstFiveAgree | taskFetchVersion.go:408-464 | answers are independent of the schedule if and only if the first five entries of every name agree |
| Server.Group.Store | taskFetchVersion.go:413-430 | first half of a goroutine: hash the content and store the blob under its hash, or fail the group |
| Server.Group.AppendFile | taskFetchVersion.go:432-457 | second half under the mutex: strip the name, append it with the hash, or ignore the entry |
| Server.Group.Schedule | taskFetchVersion.go:411-459 | whoever runs next takes exactly one enabled step of the state machine |
| Server.UnzipDocs | taskFetchVersion.go:399-465 | under any scheduling it ends, has followed a schedule of the state machine, fails exactly when some entry fails, keeps blobs content-addressed, only adds blobs, and otherwise returns a permutation of the sequential filter-map that may be published |
| Server.Download | taskFetchVersion.go:192-270 | missing ids panic, malformed ids, failed downloads and digest mismatches end the run, anything else is unpacked, a branch entry under its name without its first directory and any other under its own name |
| Server.FetchVersionRunner | taskFetchVersion.go:63-148 | exact result of a version run for every fault; metadata is added only under the own SHA and only on success, and then lists exactly the entries of the download, under the names of its kind and with their hashes; the store invariant is kept; the whole is a run of the step machine |
| Server.VersionOutcomeIff | taskFetchVersion.go:192-270 | a version run succeeds, panics or fails exactly under the stated conditions on the stores, the ids, the digest, the download and the faults |
| RunnerRuns.UnzipRuns | taskFetchVersion.go:139-146 | any schedule of the goroutines is a run of the version runner that unpacks |
| RunnerRuns.Unpacks | taskFetchVersion.go:63-148 | check, download, any schedule of the goroutines, wait and publish lead to exactly the published list, or to nothing published after a failure |
| RunnerRuns.EnqueueRuns | taskFetchRepoFromReleases.go:119-126 | enqueueing step by step posts the versions in order up to the first refusal |
| Server.EnqueueVersions | taskFetchRepoFromReleases.go:119-126 | one job per version in order, each with its own stamp, up to the first refusal; the table is not touched |
| Server.FetchRepoRunner | taskFetchRepoFromReleases.go:46-128 | exact result of a repository run: nothing changes when listing fails or finds nothing; otherwise the record is sorted and stored under the repository's key and its versions enqueued; the whole is a run of the step machine |
| Server.EnqueueFetchRepo | taskFetch.go:11-27 | a repository miss adds one job to the queue of its type and changes no other queue |
| Server.EnqueueFetchVersion | taskFetch.go:29-51 | a version miss adds one job to the queue of its type and changes no other queue |
| Server.ChosenVersion | tasks.go:32-47 | the loop selects the latest version, or the first with the requested name |
| Server.FindHash | tasks.go:66-75 | the loop finds the hash of the first file with the name, or none |
| Server.FindRecord | tasks.go:20-31 | finds the record, or answers and enqueues what the request's steps do |
| Server.ServeFile | tasks.go:60-77 | puts index.html behind a name that names no file, in place, leaves other names alone, and answers from list and blobs under that name |
| Server.RequestPageData | tasks.go:18-78 | the whole read path answers and enqueues exactly as the request's steps do, and changes the name only by putting index.html behind it |
| Paging.AllGiteaPages | gitea.go:9-32 | if some page ends the loop it returns the items of all pages in order up to that page, or with the error those of the pages before it |
| Paging.ReturnsIff | gitea.go:12-30 | the loop returns if and only if some page is an error, has no response or claims no later page |
| Paging.PagingIsTransparent | gitea.go:9-32 | for every list, page size, filter-map and honest page counts the loop returns the filter-map of the whole list |
| Paging.TransparentIffHonest | gitea.go:9-32 | the loop returns a whole list if and only if each page before the last claims a later one and some page from the last on claims none |
| Listings.BranchPage | taskFetchRepoFromBranch.go:60-77 | a page of branches becomes its filter-map: exactly the versions of its pages branches, named after them, as old as their last commit (gh-pages as new as the listing), with that commit as SHA |
| Listings.PackagePage | taskFetchRepoFromPackages.go:58-91 | a page of packages becomes its filter-map: exactly the versions of the generic packages with the repository's name that have a docs.zip, with the digest of the first one as SHA; it fails if and only if the files of such a package cannot be listed |
| Listings.ReleasePage | taskFetchRepoFromReleases.go:60-99 | a page of releases, each with its own paged attachments, becomes its filter-map: exactly the versions of the published releases that have a docs.zip, with the UUID of the first one as SHA and its id; it fails if and only if the attachments of a published release cannot be listed |
| Listings.ListVersions | taskFetchRepoFromReleases.go:52-103 | nested paging gives exactly the versions of the whole listing, for every page size, and fails exactly when the listing does |
| Listings.VersionsListed | taskFetchRepoFromPackages.go:58-91 | for all three kinds of listing: what is a version of it, in both directions, and when it fails |
| Listings.VersionsInOrder | taskFetchRepoFromPackages.go:58-91 | the versions are in the order of the branches, packages or releases, one for each that gives one |
| Listings.PagesBranchListed | taskFetchRepoFromBranch.go:61-76 | a branch gh-pages-x is listed as exactly version x with its commit and time |
| Listings.ReleaseVersionsCarryIds | taskFetchRepoFromReleases.go:61-98 | every listed version comes from a kept release and its docs.zip, and carries both ids |
| Listings.BranchNamesCollide | taskFetchRepoFromBranch.go:61-76 | two branches give the same version name if and only if they are gh-pages and gh-pages-latest |
| Listings.CanonicalRecord | taskFetchRepoFromPackages.go:100-106 | a sorted non-empty listing makes a record whose first version is the latest and a maximum |
| Listings.SortNewestFirst | taskFetchRepoFromPackages.go:102-104 | sorting gives a newest-first permutation, with ties in any order |
| Listings.GhPagesIsLatest | taskFetchRepoFromBranch.go:66-92 | with every other kept branch older than now, gh-pages is the latest version however ties are sorted |
| ReleaseIds.IdRoundTrip | taskFetchRepoFromReleases.go:93-96 | formatting and parsing gives back exactly the 64-bit integers |
| ReleaseIds.FormatAppend | taskFetchRepoFromReleases.go:94-95 | ids are written in decimal |
| Types.RepoStringRoundTrip | types/types.go:84-95 | a repository survives its string if and only if its owner has no slash |
| Types.RepoKeysInjective | types/types.go:84-86 | two repositories share a key if and only if they are equal or split one string at two of its slashes; no key is empty |
| Types.RepoKeyUniqueIff | types/types.go:84-86 | a repository shares its key with no other if and only if neither its owner nor its name has a slash |
| Types.RepoKeysCollide | types/types.go:84-86 | a pair of repositories that share a key |
| Tasks.JobRoundTrip | taskFetchRepoFromBranch.go:30-42 | a job is always parsed by its own queue into a task with its key, and into itself if and only if it is a version job or its owner has no slash |
| Tasks.SameKey | taskFetchVersion.go:36-39 | within a queue two jobs share a key exactly when they share the SHA, or the repository's string |
| Tasks.QueueNamesDistinct | database/queue.go:69-118 | the six queue names differ, so no queue overwrites another |
| JobQueues.QueueState.Enqueue | database/queue.go:158-163 | adds the job at the end, stamped with a time read before, or returns the error of the pool and changes nothing |
| JobQueues.QueueState.Check | database/queue.go:94-104 | skips exactly jobs older than the last run or whose key is running |
| JobQueues.QueueState.Claim | database/queue.go:105-107 | marks the key as running with the time read before |
| JobQueues.QueueState.Release | database/queue.go:107-115 | forgets the key on failure, marks it finished on success |
| JobQueues.QueueState.Consume | database/queue.go:79-116 | an uninterrupted consumer is a run of the state machine and returns an error exactly when the job is unparsable or its run fails |
| JobQueues.Queues.constructor | database/queue.go:64-120 | the loop makes one empty queue per task kind |
| JobQueues.Queues.Enqueue | database/queue.go:158-163 | the job goes to the queue of its kind, unless that refuses it, and no other queue changes |
| DedupQueue.DecideIsReadThenClaim | database/queue.go:94-105 | the idealised step is read and claim with nothing in between |
| DedupQueue.QueueStep | database/queue.go:79-115 | every step, reads and claims interleaved, keeps: a running mark has a worker behind it, a finished mark has a success in the log |
| DedupQueue.SkippedIsCovered | database/queue.go:94-104 | in every reachable state a skipped job's key has a run in progress, or a success strictly after the job was posted |
| DedupQueue.NoKeyStuck | database/queue.go:94-114 | after any quiescent state the next job read for a key is run if and only if the table then held no success after the time the job was stamped with |
| Burst.SkipsIff | database/queue.go:94-104 | with check and claim in one step, in every reachable state: a job is skipped if and only if its key is being run, or has a success after the job was posted that no failure has followed |
| Burst.OlderJobRunsIff | database/queue.go:94-115 | with check and claim in one step: the next job of a key, however old, is run if and only if nobody runs the key and every success that finished after the job was posted has been followed by a failure |
| Burst.SuccessiveRunsAreNewer | database/queue.go:94-114 | hence one runner per key, and two successes of it come from jobs in the order of time unless a failure came in between |
| Burst.BurstYieldsOneSuccess | database/queue.go:94-114 | with check and claim in one step: if all jobs of a key were posted before its first success finishes, there is no other success, no failure after it and nothing running |
| Burst.BurstRunsAtMostWorkers | database/queue.go:79-115 | in the queue of the code: if no run of a key fails and all its jobs were posted before it was first claimed, n workers run it at most n times |
| Burst.NoMutualExclusion | database/queue.go:94-105 | in the queue of the code two of any n workers can run one key |
| Burst.OneRunnerIffOneWorker | database/queue.go:79-105 | for each of the six queues: no schedule of n workers ever has two runners of one key if and only if n < 2 |
| Burst.FailureForgetsSuccess | database/queue.go:108-114 | a failure makes the table forget a success, so an older job succeeds again |
| Runners.FetchedArchive | taskFetchVersion.go:127-133 | the digest check pins what is unpacked to the archive of the version |
| Runners.UnpackedNames | taskFetchVersion.go:375 | in every step of a runner that starts to unpack: its entries are those of the download; a branch entry is to be saved without its first directory, any other under its own name |
| Runners.TopDirectoryLost | taskFetchVersion.go:375 | in a branch archive with one top directory an entry is saved under what follows it, if anything does |
| Runners.RunStepInv | taskFetchVersion.go:62-149 | every step of every runner keeps the store invariant, only adds to the stores, and keeps what the runner knows |
| ReadPath.DirectoriesNeverServed | tasks.go:60-65 | a normalised name is not empty, never ends in a slash, and is never a directory entry's name |
| ReadPath.NormalisedName | tasks.go:60-65 | a name that is not empty and does not end in a slash is looked up as it is, any other with index.html behind it |
| ReadPath.RespondIsArchiveLookup | tasks.go:18-78 | the read path agrees with looking the file up in the archive, in every case of missing record, version, metadata or file |
| ReadPath.RespondOutcome | tasks.go:18-78 | the answer and the job enqueued, for every combination of faults |
| ReadPath.AnsweredUnderName | tasks.go:51-77 | a published version answers like its archive does for the very name, or for the name with index.html behind it |
| ReadPath.DirectoriesLikeIndex | tasks.go:60-65 | a request for no file or a directory is answered like one for its index.html, whatever fails |
| ReadPath.LatestByName | tasks.go:32-47 | with gh-pages newest, version "latest" and no version select the same version |
| System.SysStep | taskFetchVersion.go:62-149 | every step of the whole server keeps the invariant of stores, queues, runners and requests, and takes nothing out of the stores |
| System.SysRun | taskFetchVersion.go:62-149 | the same along every run, crashes included |
| System.NoDanglingReferences | taskFetchVersion.go:412-464 | in every reachable state every file of every published version has its blob, and every blob is under its own hash |
| System.ServedBytesAreArchiveBytes | tasks.go:18-78 | in every reachable state bytes answered to a request are those of an archive entry of the selected version under the normalised name, and the archive's own answer when names do not clash; the version is what the request selects in a record that the server has stored for its repository, a newest one of it when the request names none |
| System.AnsweredUnderOwnName | tasks.go:60-77 | in every reachable state answered bytes are those of an entry saved under the requested name, or under it with index.html behind when it names no file, and a missing file is missing under that name |
| System.MissingIsMissing | tasks.go:32-75 | in every reachable state a file reported missing is not in the archive of the selected version, and a version reported missing is not in some record stored for the repository |
| System.BlobLookupNeverMisses | tasks.go:66-77 | once a request has found its file, reading the blob never misses, whatever happened in between |
| System.PublishedVersionsStable | taskFetchVersion.go:139-146 | when the first five entries of each name agree, a published version's answers never change for the rest of any run, however often it is published again |
| Scenarios.StableIffFirstFiveAgree | taskFetchVersion.go:65-74 | published answers for a SHA are the same in every later state of every run if and only if the first five entries of each name of its archive agree; for the digest of a zip the run that changes them is one of package jobs |
| Provenance.RecordsCanonical | taskFetchRepoFromPackages.go:96-107 | in every run every stored record is under its own key, a non-empty newest-first permutation of the filtered listing that a step of this run brought for this repository, with a newest version as latest |
| Provenance.AnsweredFromRecordRead | tasks.go:20-47 | in every run every answer about a version is about the one selected in the record that was stored for the repository when the request read it, whatever has been stored since |
| System.SameSHASameAnswer | tasks.go:51-77 | two requests for one file answered at any two moments of any run, through whatever repositories and versions with one SHA, get the same answer when names do not clash |
| System.SkippedVersionIsPublished | taskFetchVersion.go:36-39 | a version job skipped while no run of its key is in progress has its version published already |
| System.SkippedJobLosesNothing | taskFetchVersion.go:36-39 | from then on, in every run, no request that selects a version with that SHA misses, and what it finds is what was there at the skip |
| System.MissIsRun | tasks.go:25-58 | from every reachable state with the queue at rest: until somebody looks the key up, whatever the server does, the job that a missing request enqueued stays, and the first job of the key to be looked at is run if and only if it was not stamped before the last success of the key, so always when it was stamped since |
| Answered.TrackedStep | database/queue.go:79-115 | every queue step keeps: the key of every job ever enqueued is in flight or has had a run that ended |
| Answered.EnqueuedVersionsArePublished | database/queue.go:94-115 | in every reachable state with a version queue at rest, every version it was given a job for since the start is published unless a run of its key failed, although jobs are skipped |
| RepoJobs.RepoInvStep | taskFetchRepoFromReleases.go:105-126 | every step of the server keeps: a repository of which a run has stored a record or ended well has all versions of its record enqueued, or a worker that is enqueueing the rest, or an empty listing, or a failed run |
| RepoJobs.EnqueuedReposAreRecorded | taskFetchRepoFromReleases.go:105-126 | in every reachable state with the repository queues at rest, every repository that was given a job since the start has a record all of whose versions were enqueued since, unless its listing was empty or a run of it failed |
| RepoJobs.RepeatedRequest | tasks.go:18-78 | a request for such a repository, once all version jobs are accounted for, gets the archive's answer for the version it selects and enqueues nothing, unless nothing was listed or a run of the repository or of that version failed |
| ReleaseJobs.CarriedIdsAreRead | taskFetchVersion.go:205-212 | ids put into a version are read back as the integers they were |
| ReleaseJobs.ReleaseJobsWellFormed | taskFetchVersion.go:205-212 | in every run in which repositories used for releases are used for nothing else, every queued release job parses to its 64-bit ids and no assertion ever fails |
| ReleaseJobs.PackageVersionPanicsReleaseRunner | taskFetchVersion.go:205-212 | a version listed from packages makes a release runner panic |
| Scenarios.RunnerCanPanic | taskFetchVersion.go:205-212 | for every repository used for releases and for something else, a run that uses repositories with their types reaches a state with a panicked runner |
| Scenarios.NeverPanicsIffReleasesApart | taskFetchVersion.go:205-212 | no run that uses repositories with their types ever has a panicked runner if and only if every repository used for releases is used for nothing else |
| Draining.InternalStepLess | database/queue.go:79-115 | every step the server takes by itself lowers a lexicographic measure in which a repository job outweighs any number of version jobs |
| Draining.EveryScheduleStops | taskFetchRepoFromPackages.go:111-117 | no schedule goes on for ever without outside events |
| Draining.StuckIsDrained | database/queue.go:79-115 | where no step is possible all queues are empty, workers idle and requests answered |
| Draining.EveryScheduleDrains | database/queue.go:79-115 | left alone, and with releases apart, every schedule reaches such a state; there every enqueued version is published unless a run of its key failed, and every repeated request gets the archive's answer unless nothing was listed or a run of the repository or version failed |
| SharedBolt.SharedState.Get | database/sharedbbolt/sharedBbolt.go:20-43 | success for every key while open, absent or not; the value tells them apart |
| SharedBolt.SharedState.Set | database/sharedbbolt/sharedBbolt.go:45-54 | changes one key of one bucket, or nothing |
| SharedBolt.SharedState.Delete | database/sharedbbolt/sharedBbolt.go:56-65 | removes one key of one bucket, or nothing |
| SharedBolt.SharedState.Close | database/sharedbbolt/sharedBbolt.go:67-84 | forgets the name and releases the handle when no name is left, unless releasing fails, which keeps it |
| SharedBolt.SharedState.NewStore | database/sharedbbolt/sharedBbolt.go:199-243 | succeeds exactly when the handle is open and the name free, and keeps the bucket's contents |
| SharedBolt.Store.Set | database/sharedbbolt/sharedBbolt.go:96-112 | rejects the empty key, the nil value and what the codec cannot write, otherwise writes its own bucket |
| SharedBolt.Store.Get | database/sharedbbolt/sharedBbolt.go:120-138 | found exactly when the key has a value |
| SharedBolt.Store.Delete | database/sharedbbolt/sharedBbolt.go:143-149 | rejects the empty key, otherwise removes it from its own bucket |
| SharedBolt.Perform | database/sharedbbolt/sharedBbolt.go:96-155 | an operation on the real objects, its transaction failing or not, is the step of the specification's world: same state, same answer |
| SharedBolt.StepSimulates | database/sharedbbolt/sharedBbolt.go:96-155 | any operation, except closing a closed store whose bucket is reopened, answers like independent maps and keeps them in step |
| SharedBolt.SharedRefinesIndependent | database/sharedbbolt/sharedBbolt.go:20-84 | over every sequence of operations on a new database, transactions failing at any point, in which no store is closed again after its bucket was reopened, all answers are those of independent maps, no two open stores share a bucket, and the handle is open while a store is |
| SharedBolt.StaysExclusiveIff | database/sharedbbolt/sharedBbolt.go:67-84 | over a sequence of operations on a new database no two open stores ever share a bucket if and only if no store is closed again after its bucket was reopened |
| SharedBolt.StoresAreIndependent | database/sharedbbolt/sharedBbolt.go:96-149 | in that specification a store's map is changed only by operations on it or on a closed store of its name |
| SharedBolt.StrayWriteUnnoticedIff | database/sharedbbolt/sharedBbolt.go:45-65 | a write to a closed store goes unnoticed by all open stores if and only if none has its bucket or it would change nothing |
| SharedBolt.CloseKeepsExclusiveIff | database/sharedbbolt/sharedBbolt.go:67-84 | closing keeps exclusive use of buckets if and only if the store is open or its bucket has not been reopened |
| SharedBolt.DoubleCloseShares | database/sharedbbolt/sharedBbolt.go:67-84 | closing twice after a reopen lets two open stores share a bucket |
| Buckets.TypedStore.Set | database/database.go:42-44 | writes the encoded value under the key's string, unless it cannot be encoded, and leaves every other bucket alone |
| Buckets.TypedStore.Get | database/database.go:46-53 | decodes what is there, reports absence without error and the empty key with one |
| Buckets.TypedStore.Delete | database/database.go:55-57 | removes the key's string and leaves every other bucket alone |
| Buckets.TypedStoreIsMap | database/database.go:38-57 | over good keys and a lossless codec a bucket is a map of its keys and values |
| Buckets.SharedKeyBreaksMap | database/database.go:20-29 | two keys with one string break it |
| Buckets.GoodRepoKeysIff | database/database.go:20-29 | a set of repositories gives good keys if and only if no two of them split one string at different slashes |
| Buckets.RepoKeysAreGood | database/database.go:20-29 | so repositories whose owner has no slash are good keys, and all repositories are not |
| Buckets.OpenAll | database/database.go:84-116 | opens the four buckets exactly when every transaction succeeds and keeps what they held |
| Buckets.CloseAll | database/database.go:132-140 | releases the handle, and not before the last store is closed; if that fails it stays open |
| Segments.Segment | templates/fetchJS/main.go:131-219 | the cutting loop returns an error if and only if some reference is not accepted, slices out of range exactly when all are and the sheet is empty or ends in one, and otherwise completes; what it has sent then, with the parentheses put back, is the sheet up to the parenthesis of the first rejected reference, the whole sheet, or the sheet without its last byte, and the fetches are the references before that |
| Segments.SentReassemble | templates/fetchJS/main.go:131-219 | the same about the parts as a function of the sheet |
| Segments.SentPartsShape | templates/fetchJS/main.go:131-219 | the first part sent is text, and there is a second one exactly when the first reference is accepted |
| Segments.PartsReassemble | templates/fetchJS/main.go:131-219 | the parts with their parentheses are the sheet without its last byte, and the fetched ones are its references in order |
| OrderedWriter.OutputInSourceOrder | templates/fetchJS/main.go:83-130 | in every schedule without a failed fetch or write the output is the parts in source order, complete at the end |
| OrderedWriter.StuckIff | templates/fetchJS/main.go:75-219 | with two slots or more, stuck means exactly that the writer left after a failure while a part is still to be sent |
| OrderedWriter.NeverStuckWithoutFailure | templates/fetchJS/main.go:75-219 | with five slots and an unbuffered channel a schedule without a failed fetch or write never deadlocks |
| OrderedWriter.StepsLeftDecreases | templates/fetchJS/main.go:75-219 | every step of every schedule lowers a bound that never becomes negative |
| OrderedWriter.EveryScheduleFinishes | templates/fetchJS/main.go:75-219 | every schedule without a failed fetch or write that moves on while it can ends with all parts written in source order |
| OrderedWriter.SheetWritten | templates/fetchJS/main.go:75-219 | for every sheet whose references are all accepted and that neither is empty nor ends in one, every schedule without a failure ends with the sheet written, without its last byte and with each reference and its parentheses replaced by what was fetched |
| OrderedWriter.InlinedIdentity | templates/fetchJS/main.go:131-219 | replacing each reference by itself in parentheses gives the sheet without its last byte |
| OrderedWriter.HangsIff | templates/fetchJS/main.go:97-130 | the program can hang if and only if the sheet's first reference is accepted; a failing fetch alone suffices, a failing write alone suffices, and without either it never hangs |

## Left out

- HTTP routing, handlers, templates, authentication and the derivation of a repository's type from its topics: a
  request and a webhook are outside steps, and the type is an input.
- Network, temporary files, buffered writing, zip decoding, SHA-256, JSON and bbolt transactions: a download brings a
  sequence of entries or fails, hashes are an injective function, a store access succeeds or fails as a whole.
- The sorting algorithm: any newest-first permutation; no order among ties is claimed.
- The pool's own scheduling: workers take any waiting job, not the oldest, and its timeout and panic recovery are not
  modelled.
- The users and sessions stores hold no page data and are modelled only as one of the four buckets.
- The race between loading the handle and closing it in `SharedState`: operations on the shared state are atomic.
- Server.RequestPageData: runs without interruption; interleaved requests are the steps of `ReadPath` in `System`.
- JobQueues.QueueState.Consume: runs without interruption, and the runner is its result; interleaved consumers are the
  steps of `DedupQueue`, and runners those of `Runners`.
- SharedBolt.Store.Get: decoding is done by `Buckets.TypedStore.Get`, with its errors.
- Regular expressions, URL resolution, MIME types, base64 and minification in `templates/fetchJS`: matches are given
  as positions, a reference is accepted or not, and a fetch brings a text or fails.
- `System` treats a listing as one step, since it does not touch the stores; `Listings` models its loops.
- The error value of closing the database, and the crash of enqueueing to a queue that was never made.
