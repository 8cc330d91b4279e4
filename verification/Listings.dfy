/** How branches, packages and releases become versions (taskFetchRepoFrom*.go). */
module Listings {
  import opened Types
  import opened Paging
  import opened ReleaseIds

  const DOCS := "docs.zip"

  datatype Branch = Branch(name: string, commit: string, timestamp: int)

  datatype Package = Package(kind: string, name: string, version: string, createdAt: int,
                             files: Option<seq<PackageFile>>)
  datatype PackageFile = PackageFile(name: string, sha256: string)

  datatype Release = Release(tag: string, createdAt: int, prerelease: bool, draft: bool, id: int,
                             attachments: Option<seq<Attachment>>)
  datatype Attachment = Attachment(id: int, name: string, uuid: string)

  /** Everything the server lists for one repository (or its owner's packages); `now` is the time of the listing. */
  datatype Listing =
    | Branches(branches: seq<Branch>, now: int)
    | Packages(packages: seq<Package>)
    | Releases(releases: seq<Release>)

  // ---------------------------------------------------------------- branches

  /** The version a branch stands for, if it is a pages branch. */
  function BranchVersion(name: string): Option<string> {
    if name == PAGES_BRANCH then Some("latest")
    else
      var version := TrimPrefix(name, PAGES_BRANCH_PREFIX);
      if version == name then None else Some(version)
  }

  function BranchItem(b: Branch, now: int): Option<seq<Version>> {
    match BranchVersion(b.name)
    case None => Some([])
    case Some(version) =>
      Some([Version(version, if b.name == PAGES_BRANCH then now else b.timestamp, PagesSHA256FromString(b.commit),
                    map[])])
  }

  function BranchItems(now: int): Branch -> Option<seq<Version>> {
    b => BranchItem(b, now)
  }

  /** The version `v` that a listing at `now` makes of the branch: `gh-pages` is the latest version and as new as the
      listing, `gh-pages-x` is version x and as old as its last commit, and the commit stands for the archive. */
  ghost predicate BranchGives(b: Branch, now: int, v: Version) {
    || (b.name == PAGES_BRANCH && v == Version("latest", now, PagesSHA256FromString(b.commit), map[]))
    || exists name: string :: b.name == PAGES_BRANCH_PREFIX + name
                              && v == Version(name, b.timestamp, PagesSHA256FromString(b.commit), map[])
  }

  /** Listing branches never fails and gives the versions of the pages branches. */
  ghost predicate ListedBranches(branches: seq<Branch>, now: int, ret: Option<seq<Version>>) {
    ret.Some? && forall v :: v in ret.value <==> exists b :: b in branches && BranchGives(b, now, v)
  }

  /** A branch that is named after a version is exactly that version. */
  lemma OneBranch(name: string, commit: string, timestamp: int, now: int)
    ensures BranchItem(Branch(PAGES_BRANCH_PREFIX + name, commit, timestamp), now) ==
            Some([Version(name, timestamp, PagesSHA256FromString(commit), map[])])
  {
    var full := PAGES_BRANCH_PREFIX + name;
    assert full[..|PAGES_BRANCH_PREFIX|] == PAGES_BRANCH_PREFIX && full[|PAGES_BRANCH_PREFIX|..] == name;
    assert |full| > |PAGES_BRANCH|;
  }

  lemma BranchItemGives(b: Branch, now: int, v: Version)
    ensures BranchItem(b, now).Some? && (v in BranchItem(b, now).value <==> BranchGives(b, now, v))
  {
    if b.name != PAGES_BRANCH {
      if HasPrefix(b.name, PAGES_BRANCH_PREFIX) {
        var name := b.name[|PAGES_BRANCH_PREFIX|..];
        assert b.name == PAGES_BRANCH_PREFIX + name;
        OneBranch(name, b.commit, b.timestamp, now);
      }
      if other: string :| b.name == PAGES_BRANCH_PREFIX + other {
        OneBranch(other, b.commit, b.timestamp, now);
        assert b == Branch(PAGES_BRANCH_PREFIX + other, b.commit, b.timestamp);
      }
    } else {
      forall name: string
        ensures b.name != PAGES_BRANCH_PREFIX + name
      {
        assert |PAGES_BRANCH_PREFIX + name| > |PAGES_BRANCH|;
      }
    }
  }

  lemma BranchesListed(branches: seq<Branch>, now: int)
    ensures ListedBranches(branches, now, FilterMap(branches, BranchItems(now)))
  {
    var f := BranchItems(now);
    FilterMapMembers(branches, f);
    forall b, v
      ensures f(b).Some? && (Contributes(f, b, v) <==> BranchGives(b, now, v))
    {
      BranchItemGives(b, now, v);
    }
  }

  method BranchPage(branches: seq<Branch>, now: int) returns (ret: Option<seq<Version>>)
    ensures ret == FilterMap(branches, BranchItems(now)) && ListedBranches(branches, now, ret)
  {
    ghost var f := BranchItems(now);
    var versions: seq<Version> := [];
    for i := 0 to |branches|
      invariant FilterMap(branches, f) == Prepend(versions, FilterMap(branches[i..], f))
    {
      var branch := branches[i];
      var version := Version("", branch.timestamp, PagesSHA256FromString(branch.commit), map[]);
      PrependConcat(versions, if BranchVersion(branch.name) == None then [] else f(branch).value,
                    FilterMap(branches[i + 1..], f));
      assert branches[i..][1..] == branches[i + 1..];
      if branch.name == PAGES_BRANCH {
        version := version.(version := "latest", createdAt := now);
      } else {
        version := version.(version := TrimPrefix(branch.name, PAGES_BRANCH_PREFIX));
        if version.version == branch.name {
          assert versions + [] == versions;
          continue;
        }
      }
      versions := versions + [version];
    }
    assert versions + [] == versions;
    BranchesListed(branches, now);
    return Some(versions);
  }

  // ---------------------------------------------------------------- the first docs.zip

  /** Position `k` holds the first item that is kept. */
  ghost predicate FirstAt<A(!new)>(items: seq<A>, keep: A -> bool, k: nat) {
    k < |items| && keep(items[k]) && forall j :: 0 <= j < k ==> !keep(items[j])
  }

  /** The filter keeps items as they are. */
  ghost predicate IsFilter<A(!new)>(f: A -> Option<seq<A>>, keep: A -> bool) {
    forall a :: f(a) == Some(if keep(a) then [a] else [])
  }

  lemma {:induction false} FirstKept<A(!new)>(items: seq<A>, f: A -> Option<seq<A>>, keep: A -> bool)
    requires IsFilter(f, keep)
    ensures FilterMap(items, f).Some?
    ensures FilterMap(items, f).value != [] ==> exists k: nat :: FirstAt(items, keep, k)
    ensures forall k: nat :: FirstAt(items, keep, k) ==>
              FilterMap(items, f).value != [] && FilterMap(items, f).value[0] == items[k]
  {
    if items != [] {
      FirstKept(items[1..], f, keep);
      if keep(items[0]) {
        assert FirstAt(items, keep, 0);
      } else {
        FirstLater(items, keep);
        forall k: nat | FirstAt(items, keep, k)
          ensures FilterMap(items, f).value != [] && FilterMap(items, f).value[0] == items[k]
        {
          var p: nat := k - 1;
          assert FirstAt(items[1..], keep, p);
        }
      }
    }
  }

  lemma FirstLater<A(!new)>(items: seq<A>, keep: A -> bool)
    requires items != [] && !keep(items[0])
    ensures forall k: nat :: FirstAt(items, keep, k + 1) <==> FirstAt(items[1..], keep, k)
  {
    forall k: nat
      ensures FirstAt(items, keep, k + 1) <==> FirstAt(items[1..], keep, k)
    {
      assert FirstAt(items[1..], keep, k) ==> forall j :: 0 < j < k + 1 ==> items[j] == items[1..][j - 1];
      assert FirstAt(items, keep, k + 1) ==> forall j :: 0 <= j < k ==> items[1..][j] == items[j + 1];
    }
  }

  // ---------------------------------------------------------------- packages

  function DocsFile(f: PackageFile): Option<seq<PackageFile>> {
    Some(if f.name == DOCS then [f] else [])
  }

  predicate IsDocsFile(f: PackageFile) {
    f.name == DOCS
  }

  function PackageItem(p: Package, repo: string): Option<seq<Version>> {
    if p.kind != "generic" || p.name != repo then Some([])
    else match p.files
      case None => None
      case Some(files) =>
        var docs := FilterMap(files, DocsFile);
        if docs == None || docs.value == [] then Some([])
        else Some([Version(p.version, p.createdAt, PagesSHA256FromString(docs.value[0].sha256), map[])])
  }

  function PackageItems(repo: string): Package -> Option<seq<Version>> {
    p => PackageItem(p, repo)
  }

  /** A generic package with the repository's name. */
  predicate OfRepo(p: Package, repo: string) {
    p.kind == "generic" && p.name == repo
  }

  /** The version `v` that is made of the package: the digest of its first docs.zip stands for the archive. */
  ghost predicate PackageGives(p: Package, repo: string, v: Version) {
    && OfRepo(p, repo) && p.files.Some?
    && exists k: nat :: FirstAt(p.files.value, IsDocsFile, k)
                        && v == Version(p.version, p.createdAt, PagesSHA256FromString(p.files.value[k].sha256), map[])
  }

  /** Listing packages fails when the files of one of the repository's packages cannot be listed, and otherwise gives
      the versions of those that have a docs.zip. */
  ghost predicate ListedPackages(packages: seq<Package>, repo: string, ret: Option<seq<Version>>) {
    && (ret == None <==> exists p :: p in packages && OfRepo(p, repo) && p.files == None)
    && (ret.Some? ==> forall v :: v in ret.value <==> exists p :: p in packages && PackageGives(p, repo, v))
  }

  lemma PackageItemGives(p: Package, repo: string, v: Version)
    ensures PackageItem(p, repo) == None <==> OfRepo(p, repo) && p.files == None
    ensures PackageItem(p, repo).Some? ==> (v in PackageItem(p, repo).value <==> PackageGives(p, repo, v))
  {
    if OfRepo(p, repo) && p.files.Some? {
      FirstKept(p.files.value, DocsFile, IsDocsFile);
    }
  }

  lemma PackagesListed(packages: seq<Package>, repo: string)
    ensures ListedPackages(packages, repo, FilterMap(packages, PackageItems(repo)))
  {
    var f := PackageItems(repo);
    FilterMapMembers(packages, f);
    forall p, v
      ensures f(p) == None <==> OfRepo(p, repo) && p.files == None
      ensures f(p).Some? ==> (Contributes(f, p, v) <==> PackageGives(p, repo, v))
    {
      PackageItemGives(p, repo, v);
    }
  }

  method PackagePage(packages: seq<Package>, repo: string) returns (ret: Option<seq<Version>>)
    ensures ret == FilterMap(packages, PackageItems(repo)) && ListedPackages(packages, repo, ret)
  {
    ghost var f := PackageItems(repo);
    var versions: seq<Version> := [];
    for i := 0 to |packages|
      invariant FilterMap(packages, f) == Prepend(versions, FilterMap(packages[i..], f))
    {
      var pkg := packages[i];
      assert packages[i..][1..] == packages[i + 1..];
      if f(pkg).Some? {
        PrependConcat(versions, f(pkg).value, FilterMap(packages[i + 1..], f));
      }
      assert versions + [] == versions;
      if pkg.kind != "generic" {
        continue;
      }
      if pkg.name != repo {
        continue;
      }
      if pkg.files == None {
        PackagesListed(packages, repo);
        return None;
      }
      var files: seq<PackageFile> := [];
      for k := 0 to |pkg.files.value|
        invariant FilterMap(pkg.files.value, DocsFile) == Prepend(files, FilterMap(pkg.files.value[k..], DocsFile))
      {
        var file := pkg.files.value[k];
        assert pkg.files.value[k..][1..] == pkg.files.value[k + 1..];
        PrependConcat(files, DocsFile(file).value, FilterMap(pkg.files.value[k + 1..], DocsFile));
        assert files + [] == files;
        if file.name != DOCS {
          continue;
        }
        files := files + [file];
      }
      if |files| == 0 {
        continue;
      }
      versions := versions + [Version(pkg.version, pkg.createdAt, PagesSHA256FromString(files[0].sha256), map[])];
    }
    PackagesListed(packages, repo);
    return Some(versions);
  }

  // ---------------------------------------------------------------- releases

  function DocsAttachment(a: Attachment): Option<seq<Attachment>> {
    Some(if a.name == DOCS then [a] else [])
  }

  predicate IsDocsAttachment(a: Attachment) {
    a.name == DOCS
  }

  /** A release that is out. */
  predicate IsOut(r: Release) {
    !r.prerelease && !r.draft
  }

  /** The version `v` that is made of the release: the UUID of its first docs.zip stands for the archive, and the ids of
      the release and of that attachment are kept as strings. */
  ghost predicate ReleaseGives(r: Release, v: Version) {
    && IsOut(r) && r.attachments.Some?
    && exists k: nat ::
         && FirstAt(r.attachments.value, IsDocsAttachment, k)
         && var a := r.attachments.value[k];
            v == Version(r.tag, r.createdAt, PagesSHA256FromString(a.uuid),
                         map[RELEASE_ID := FormatInt(r.id), RELEASE_ATTACHMENT_ID := FormatInt(a.id)])
  }

  /** Listing releases fails when the attachments of one that is out cannot be listed, and otherwise gives the versions
      of those that have a docs.zip. */
  ghost predicate ListedReleases(releases: seq<Release>, ret: Option<seq<Version>>) {
    && (ret == None <==> exists r :: r in releases && IsOut(r) && r.attachments == None)
    && (ret.Some? ==> forall v :: v in ret.value <==> exists r :: r in releases && ReleaseGives(r, v))
  }

  lemma ReleaseItemGives(r: Release, v: Version)
    ensures ReleaseItem(r) == None <==> IsOut(r) && r.attachments == None
    ensures ReleaseItem(r).Some? ==> (v in ReleaseItem(r).value <==> ReleaseGives(r, v))
  {
    if IsOut(r) && r.attachments.Some? {
      FirstKept(r.attachments.value, DocsAttachment, IsDocsAttachment);
    }
  }

  lemma ReleasesListed(releases: seq<Release>)
    ensures ListedReleases(releases, FilterMap(releases, ReleaseItem))
  {
    FilterMapMembers(releases, ReleaseItem);
    forall r, v
      ensures ReleaseItem(r) == None <==> IsOut(r) && r.attachments == None
      ensures ReleaseItem(r).Some? ==> (Contributes(ReleaseItem, r, v) <==> ReleaseGives(r, v))
    {
      ReleaseItemGives(r, v);
    }
  }

  function ReleaseItem(r: Release): Option<seq<Version>> {
    if r.prerelease || r.draft then Some([])
    else match r.attachments
      case None => None
      case Some(attachments) =>
        var docs := FilterMap(attachments, DocsAttachment);
        if docs == None || docs.value == [] then Some([])
        else Some([Version(r.tag, r.createdAt, PagesSHA256FromString(docs.value[0].uuid),
                           map[RELEASE_ID := FormatInt(r.id), RELEASE_ATTACHMENT_ID := FormatInt(docs.value[0].id)])])
  }

  /** What the server reports as its last page, for a listing with the given number of pages. */
  type Claims = nat -> int -> int

  ghost predicate HonestClaims(claims: Claims) {
    forall n: nat :: Honest(claims(n), n)
  }

  /** The inner callback: a page of one release's attachments, with everything but docs.zip left out. */
  function AttachmentContent(r: Release, size: nat, claims: Claims): Content<Attachment>
    requires size > 0
  {
    match r.attachments
    case None => (p => None)
    case Some(attachments) =>
      var pages := SplitPages(attachments, size);
      PagedContent(pages, claims(|pages|), DocsAttachment)
  }

  /** A page of releases; each release pages through its own attachments. */
  method ReleasePage(releases: seq<Release>, size: nat, claims: Claims) returns (ret: Option<seq<Version>>)
    requires size > 0 && HonestClaims(claims)
    ensures ret == FilterMap(releases, ReleaseItem) && ListedReleases(releases, ret)
  {
    var versions: seq<Version> := [];
    for i := 0 to |releases|
      invariant FilterMap(releases, ReleaseItem) == Prepend(versions, FilterMap(releases[i..], ReleaseItem))
    {
      var release := releases[i];
      assert releases[i..][1..] == releases[i + 1..];
      if ReleaseItem(release).Some? {
        PrependConcat(versions, ReleaseItem(release).value, FilterMap(releases[i + 1..], ReleaseItem));
      }
      assert versions + [] == versions;
      if release.prerelease || release.draft {
        continue;
      }
      ghost var attachments := if release.attachments == None then [] else release.attachments.value;
      ghost var last := PagingIsTransparent(attachments, size, claims(|SplitPages(attachments, size)|), DocsAttachment);
      var files, err := AllGiteaPages(AttachmentContent(release, size, claims), last);
      if err {
        DocsNeverFail(attachments);
        ReleasesListed(releases);
        return None;
      }
      if |files| == 0 {
        continue;
      }
      var file := files[0];
      versions := versions + [Version(release.tag, release.createdAt, PagesSHA256FromString(file.uuid),
                                      map[RELEASE_ID := FormatInt(release.id),
                                          RELEASE_ATTACHMENT_ID := FormatInt(file.id)])];
    }
    ReleasesListed(releases);
    return Some(versions);
  }

  lemma {:induction false} DocsNeverFail(attachments: seq<Attachment>)
    ensures FilterMap(attachments, DocsAttachment).Some?
    ensures forall a :: a in FilterMap(attachments, DocsAttachment).value ==> a in attachments && a.name == DOCS
  {
    if attachments != [] {
      DocsNeverFail(attachments[1..]);
    }
  }

  // ---------------------------------------------------------------- all pages of a listing

  /** The versions of a repository: the filter-map of everything the server lists. */
  function VersionsOf(listing: Listing, repo: string): Option<seq<Version>> {
    match listing
    case Branches(branches, now) => FilterMap(branches, BranchItems(now))
    case Packages(packages) => FilterMap(packages, PackageItems(repo))
    case Releases(releases) => FilterMap(releases, ReleaseItem)
  }

  /** What a listing gives, in terms of what the server lists. */
  ghost predicate FromListing(listing: Listing, repo: string, ret: Option<seq<Version>>) {
    match listing
    case Branches(branches, now) => ListedBranches(branches, now, ret)
    case Packages(packages) => ListedPackages(packages, repo, ret)
    case Releases(releases) => ListedReleases(releases, ret)
  }

  /** The versions of a repository are those of its pages branches, of its packages with a docs.zip, or of its releases
      with a docs.zip. */
  lemma VersionsListed(listing: Listing, repo: string)
    ensures FromListing(listing, repo, VersionsOf(listing, repo))
  {
    match listing
    case Branches(branches, now) => BranchesListed(branches, now);
    case Packages(packages) => PackagesListed(packages, repo);
    case Releases(releases) => ReleasesListed(releases);
  }

  /** The versions are in the order of what the server lists, one for each branch, package or release that gives one. */
  ghost predicate InListingOrder(listing: Listing, repo: string, versions: seq<Version>) {
    match listing
    case Branches(branches, now) => InOrder(branches, versions, (b, v) => BranchGives(b, now, v))
    case Packages(packages) => InOrder(packages, versions, (p, v) => PackageGives(p, repo, v))
    case Releases(releases) => InOrder(releases, versions, (r, v) => ReleaseGives(r, v))
  }

  lemma VersionsInOrder(listing: Listing, repo: string)
    requires VersionsOf(listing, repo).Some?
    ensures InListingOrder(listing, repo, VersionsOf(listing, repo).value)
  {
    match listing
    case Branches(branches, now) =>
      forall b, v
        ensures BranchItem(b, now).Some? && |BranchItem(b, now).value| <= 1
        ensures v in BranchItem(b, now).value <==> BranchGives(b, now, v)
      {
        BranchItemGives(b, now, v);
      }
      var at := FilterMapAligned(branches, BranchItems(now), (b, v) => BranchGives(b, now, v));
    case Packages(packages) =>
      forall p, v
        ensures PackageItem(p, repo).Some? ==> (v in PackageItem(p, repo).value <==> PackageGives(p, repo, v))
      {
        PackageItemGives(p, repo, v);
      }
      var at := FilterMapAligned(packages, PackageItems(repo), (p, v) => PackageGives(p, repo, v));
    case Releases(releases) =>
      forall r, v
        ensures ReleaseItem(r).Some? ==> (v in ReleaseItem(r).value <==> ReleaseGives(r, v))
      {
        ReleaseItemGives(r, v);
      }
      var at := FilterMapAligned(releases, ReleaseItem, (r, v) => ReleaseGives(r, v));
  }

  /** A branch named after a version is listed as exactly that version. */
  lemma PagesBranchListed(name: string, commit: string, timestamp: int, now: int, repo: string)
    ensures VersionsOf(Branches([Branch(PAGES_BRANCH_PREFIX + name, commit, timestamp)], now), repo) ==
            Some([Version(name, timestamp, PagesSHA256FromString(commit), map[])])
  {
    OneBranch(name, commit, timestamp, now);
    LastItem(Branch(PAGES_BRANCH_PREFIX + name, commit, timestamp), BranchItems(now));
  }

  /** Paging through a listing, with the release attachments paged inside each page, gives exactly its versions. */
  method ListVersions(listing: Listing, repo: string, size: nat, claims: Claims) returns (ret: Option<seq<Version>>)
    requires size > 0 && HonestClaims(claims)
    ensures ret == VersionsOf(listing, repo) && FromListing(listing, repo, ret)
  {
    var err: bool;
    var versions: seq<Version>;
    match listing {
      case Branches(branches, now) =>
        var pages := SplitPages(branches, size);
        ghost var last := PagingIsTransparent(branches, size, claims(|pages|), BranchItems(now));
        versions, err := AllGiteaPages(PagedContent(pages, claims(|pages|), BranchItems(now)), last);
      case Packages(packages) =>
        var pages := SplitPages(packages, size);
        ghost var last := PagingIsTransparent(packages, size, claims(|pages|), PackageItems(repo));
        versions, err := AllGiteaPages(PagedContent(pages, claims(|pages|), PackageItems(repo)), last);
      case Releases(releases) =>
        var pages := SplitPages(releases, size);
        ghost var last := PagingIsTransparent(releases, size, claims(|pages|), ReleaseItem);
        versions, err := AllGiteaPages(PagedContent(pages, claims(|pages|), ReleaseItem), last);
    }
    VersionsListed(listing, repo);
    return if err then None else Some(versions);
  }

  /** `v` carries release and attachment ids from which the runner recovers two 64-bit integers. */
  ghost predicate CarriesIds(v: Version) {
    exists id: int, attachment: int :: Int64(id) && Int64(attachment) && HasIds(v, id, attachment)
  }

  predicate HasIds(v: Version, id: int, attachment: int) {
    && RELEASE_ID in v.extra && v.extra[RELEASE_ID] == FormatInt(id)
    && RELEASE_ATTACHMENT_ID in v.extra && v.extra[RELEASE_ATTACHMENT_ID] == FormatInt(attachment)
  }

  ghost predicate Int64Ids(releases: seq<Release>) {
    forall r :: r in releases ==>
                  Int64(r.id) && (r.attachments.Some? ==> forall a :: a in r.attachments.value ==> Int64(a.id))
  }

  /** Every version listed from releases carries the ids it was made from, and parsing gives them back. */
  lemma {:induction false} ReleaseVersionsCarryIds(releases: seq<Release>, v: Version)
    requires Int64Ids(releases) && VersionsOf(Releases(releases), "").Some?
             && v in VersionsOf(Releases(releases), "").value
    ensures exists r: Release, a: Attachment :: r in releases && !r.prerelease && !r.draft
              && r.attachments.Some? && a in r.attachments.value && a.name == DOCS
              && v.version == r.tag && v.createdAt == r.createdAt && HasIds(v, r.id, a.id)
    ensures CarriesIds(v)
  {
    var r := releases[0];
    var rest := FilterMap(releases[1..], ReleaseItem);
    if v in ReleaseItem(r).value {
      var docs := FilterMap(r.attachments.value, DocsAttachment).value;
      DocsNeverFail(r.attachments.value);
      assert docs[0] in docs;
      assert r in releases && docs[0] in r.attachments.value && HasIds(v, r.id, docs[0].id);
    } else {
      assert v in rest.value;
      ReleaseVersionsCarryIds(releases[1..], v);
    }
  }

  // ---------------------------------------------------------------- branch names

  /** Two branches stand for the same version only when one is `gh-pages` and the other `gh-pages-latest`. */
  lemma BranchNamesCollide(a: string, b: string)
    requires a != b
    ensures BranchVersion(a) == BranchVersion(b) != None <==>
            {a, b} == {PAGES_BRANCH, PAGES_BRANCH_PREFIX + "latest"}
  {
    BranchNameInverse(a);
    BranchNameInverse(b);
    var c := PAGES_BRANCH_PREFIX + "latest";
    assert c[..|PAGES_BRANCH_PREFIX|] == PAGES_BRANCH_PREFIX && c[|PAGES_BRANCH_PREFIX|..] == "latest";
    if {a, b} == {PAGES_BRANCH, c} {
      assert a in {PAGES_BRANCH, c} && b in {PAGES_BRANCH, c};
      assert PAGES_BRANCH in {a, b} && c in {a, b};
    }
  }

  /** A kept branch other than `gh-pages` is its version with the prefix put back. */
  lemma BranchNameInverse(name: string)
    ensures name != PAGES_BRANCH && BranchVersion(name).Some? ==>
              name == PAGES_BRANCH_PREFIX + BranchVersion(name).value
    ensures name != PAGES_BRANCH && HasPrefix(name, PAGES_BRANCH_PREFIX) ==> BranchVersion(name).Some?
  {
  }

  // ---------------------------------------------------------------- sorting and the stored record

  /** `slices.SortFunc` by descending creation time: newest first, no order promised among ties. */
  ghost predicate NewestFirst(versions: seq<Version>) {
    forall i, j :: 0 <= i < j < |versions| ==> versions[i].createdAt >= versions[j].createdAt
  }

  ghost predicate SortOf(sorted: seq<Version>, versions: seq<Version>) {
    NewestFirst(sorted) && multiset(sorted) == multiset(versions)
  }

  lemma SortOfMembers(sorted: seq<Version>, versions: seq<Version>)
    requires SortOf(sorted, versions)
    ensures forall v :: v in sorted <==> v in versions
    ensures |sorted| == |versions|
  {
    assert forall v :: v in sorted <==> v in multiset(sorted);
    assert forall v :: v in versions <==> v in multiset(versions);
    assert |multiset(sorted)| == |sorted| && |multiset(versions)| == |versions|;
  }

  /** Position `i` holds a newest version. */
  predicate NewestAt(versions: seq<Version>, i: nat) {
    i < |versions| && forall j :: 0 <= j < |versions| ==> versions[j].createdAt <= versions[i].createdAt
  }

  lemma {:induction false} SomeNewest(versions: seq<Version>) returns (i: nat)
    requires versions != []
    ensures NewestAt(versions, i)
  {
    i := 0;
    if |versions| > 1 {
      var k := SomeNewest(versions[1..]);
      i := if versions[k + 1].createdAt > versions[0].createdAt then k + 1 else 0;
      assert forall j :: 0 < j < |versions| ==> versions[j] == versions[1..][j - 1];
    }
  }

  /** Everything in `sorted` is at least as new as everything in `rest`. */
  ghost predicate Above(sorted: seq<Version>, rest: seq<Version>) {
    forall i, j :: 0 <= i < |sorted| && 0 <= j < |rest| ==> sorted[i].createdAt >= rest[j].createdAt
  }

  lemma MoveNewest(sorted: seq<Version>, rest: seq<Version>, i: nat, others: seq<Version>)
    requires NewestFirst(sorted) && Above(sorted, rest) && NewestAt(rest, i) && others == rest[..i] + rest[i + 1..]
    ensures NewestFirst(sorted + [rest[i]]) && Above(sorted + [rest[i]], others)
    ensures multiset(sorted + [rest[i]]) + multiset(others) == multiset(sorted) + multiset(rest)
  {
    assert rest == rest[..i] + [rest[i]] + rest[i + 1..];
    assert forall j :: 0 <= j < |others| ==> others[j] == rest[if j < i then j else j + 1];
    var more := sorted + [rest[i]];
    assert forall k :: 0 <= k < |more| ==> more[k] == if k < |sorted| then sorted[k] else rest[i];
  }

  /** Sorting by descending creation time, with ties in any order: keep taking any newest version that is left. */
  method SortNewestFirst(versions: seq<Version>) returns (sorted: seq<Version>)
    ensures SortOf(sorted, versions)
  {
    sorted := [];
    var rest := versions;
    while rest != []
      invariant multiset(sorted) + multiset(rest) == multiset(versions) && NewestFirst(sorted) && Above(sorted, rest)
      decreases |rest|
    {
      ghost var k := SomeNewest(rest);
      var i :| 0 <= i < |rest| && NewestAt(rest, i);
      var others := rest[..i] + rest[i + 1..];
      MoveNewest(sorted, rest, i, others);
      sorted := sorted + [rest[i]];
      rest := others;
    }
  }

  /** What a repository fetch stores: never empty, newest first, the latest version in front and newest of all. */
  ghost predicate Canonical(info: RepoInfo) {
    && info.versions != [] && NewestFirst(info.versions) && info.latest == info.versions[0]
    && forall v :: v in info.versions ==> v.createdAt <= info.latest.createdAt
  }

  lemma CanonicalRecord(repo: Repo, sorted: seq<Version>, versions: seq<Version>)
    requires SortOf(sorted, versions) && versions != []
    ensures sorted != [] && Canonical(RepoInfo(repo, sorted[0], sorted))
  {
    SortOfMembers(sorted, versions);
    forall v | v in sorted
      ensures v.createdAt <= sorted[0].createdAt
    {
      var i :| 0 <= i < |sorted| && sorted[i] == v;
    }
  }

  /** If `gh-pages` exists and every other kept branch is older than the listing, `gh-pages` is the latest version
      however the sort arranges ties. */
  lemma GhPagesIsLatest(branches: seq<Branch>, now: int, sorted: seq<Version>, g: Branch)
    requires VersionsOf(Branches(branches, now), "").Some?
             && SortOf(sorted, VersionsOf(Branches(branches, now), "").value)
    requires g in branches && g.name == PAGES_BRANCH
    requires forall b :: b in branches && b.name == PAGES_BRANCH ==> b == g
    requires forall b :: b in branches && b.name != PAGES_BRANCH && BranchVersion(b.name).Some? ==> b.timestamp < now
    ensures |sorted| > 0 && sorted[0] == Version("latest", now, PagesSHA256FromString(g.commit), map[])
  {
    BranchesListed(branches, now);
    SortOfMembers(sorted, VersionsOf(Branches(branches, now), "").value);
    var latest := Version("latest", now, PagesSHA256FromString(g.commit), map[]);
    assert BranchGives(g, now, latest);
    assert latest in sorted;
    var first := sorted[0];
    assert first in sorted;
    var b :| b in branches && BranchGives(b, now, first);
    assert first.createdAt >= now by {
      var i :| 0 <= i < |sorted| && sorted[i] == latest;
    }
    if b.name != PAGES_BRANCH {
      var name: string :| b.name == PAGES_BRANCH_PREFIX + name;
      OneBranch(name, b.commit, b.timestamp, now);
    }
  }
}
