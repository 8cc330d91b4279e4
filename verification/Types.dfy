/** The values the server stores and passes around, and the small string operations on them. */
module Types {
  newtype byte = x: int | 0 <= x < 256
  type Bytes = seq<byte>

  datatype Option<+T> = None | Some(value: T)

  datatype RepoType = BranchRepo | ReleaseRepo | PackageRepo

  datatype Repo = Repo(owner: string, repo: string)

  /** `createdAt` is an instant; `extra` holds the string-valued extra fields of a version. */
  datatype Version = Version(version: string, createdAt: int, sha: string, extra: map<string, string>)

  datatype RepoInfo = RepoInfo(repo: Repo, latest: Version, versions: seq<Version>)

  datatype PageFile = PageFile(name: string, sha: string)
  type Pages = seq<PageFile>

  datatype RepoFileAtVersion = RepoFileAtVersion(repo: Repo, version: string, file: string)

  const PAGES_BRANCH := "gh-pages"
  const PAGES_BRANCH_PREFIX := "gh-pages-"
  const RELEASE_ID := "releaseID"
  const RELEASE_ATTACHMENT_ID := "releaseAttachmentID"

  predicate HasPrefix(s: string, prefix: string) {
    |prefix| <= |s| && s[..|prefix|] == prefix
  }

  /** True iff `s` is non-empty and its last character is `c`. */
  predicate EndsWith(s: string, c: char) {
    s != "" && s[|s| - 1] == c
  }

  function TrimPrefix(s: string, prefix: string): string {
    if HasPrefix(s, prefix) then s[|prefix|..] else s
  }

  /** The text before and after the first occurrence of `sep`, or None when there is none. */
  function Cut(s: string, sep: char): (parts: Option<(string, string)>)
    ensures parts == None <==> sep !in s
    ensures parts.Some? ==> s == parts.value.0 + [sep] + parts.value.1 && sep !in parts.value.0
  {
    if s == "" then None
    else if s[0] == sep then Some(("", s[1..]))
    else match Cut(s[1..], sep)
      case None => None
      case Some((before, after)) => Some(([s[0]] + before, after))
  }

  function RepoString(r: Repo): string {
    r.owner + "/" + r.repo
  }

  function ParseRepo(s: string): Option<Repo> {
    match Cut(s, '/')
    case None => None
    case Some((owner, repo)) => Some(Repo(owner, repo))
  }

  lemma {:induction false} CutFirst(before: string, sep: char, after: string)
    requires sep !in before
    ensures Cut(before + [sep] + after, sep) == Some((before, after))
  {
    var s := before + [sep] + after;
    if before != "" {
      assert s[1..] == before[1..] + [sep] + after;
      CutFirst(before[1..], sep, after);
      assert s[0] == before[0] && [s[0]] + before[1..] == before;
    } else {
      assert s[0] == sep && s[1..] == after;
    }
  }

  /** A repository name survives the trip through a job string exactly when its owner has no slash. */
  lemma RepoStringRoundTrip(r: Repo)
    ensures ParseRepo(RepoString(r)) == Some(r) <==> '/' !in r.owner
    ensures ParseRepo(RepoString(r)) != None
  {
    assert RepoString(r) == r.owner + ['/'] + r.repo;
    assert RepoString(r)[|r.owner|] == '/';
    if '/' !in r.owner {
      CutFirst(r.owner, '/', r.repo);
    }
  }

  /** `a` and `b` split one string at different slashes, `a` at the later one. */
  ghost predicate SplitsLater(a: Repo, b: Repo) {
    exists mid: string :: a.owner == b.owner + "/" + mid && b.repo == mid + "/" + a.repo
  }

  lemma LaterSlash(a: Repo, b: Repo)
    requires RepoString(a) == RepoString(b) && |a.owner| > |b.owner|
    ensures SplitsLater(a, b)
  {
    var s := RepoString(a);
    var mid := s[|b.owner| + 1..|a.owner|];
    assert b.owner + "/" == s[..|b.owner| + 1] && b.repo == s[|b.owner| + 1..];
    assert a.owner == s[..|a.owner|] && "/" + a.repo == s[|a.owner|..];
    assert a.owner == b.owner + "/" + mid && b.repo == mid + "/" + a.repo;
  }

  /** Two repositories share a key exactly when they are equal or split one string at two of its slashes; no key is
      the empty one. */
  lemma RepoKeysInjective(a: Repo, b: Repo)
    ensures RepoString(a) == RepoString(b) <==> a == b || SplitsLater(a, b) || SplitsLater(b, a)
    ensures RepoString(a) != ""
  {
    if SplitsLater(a, b) || SplitsLater(b, a) {
      var (later, earlier) := if SplitsLater(a, b) then (a, b) else (b, a);
      var mid: string :| later.owner == earlier.owner + "/" + mid && earlier.repo == mid + "/" + later.repo;
      assert RepoString(later) == earlier.owner + "/" + mid + "/" + later.repo == RepoString(earlier);
    } else if RepoString(a) == RepoString(b) {
      if |a.owner| > |b.owner| {
        LaterSlash(a, b);
      } else if |b.owner| > |a.owner| {
        LaterSlash(b, a);
      } else {
        assert a.owner == RepoString(a)[..|a.owner|] == b.owner;
        assert a.repo == RepoString(a)[|a.owner| + 1..] == b.repo;
      }
    }
  }

  /** A repository has its key for itself exactly when neither its owner nor its name contains a slash. */
  lemma RepoKeyUniqueIff(a: Repo)
    ensures (forall b: Repo :: RepoString(b) == RepoString(a) ==> b == a) <==> '/' !in a.owner && '/' !in a.repo
  {
    if '/' in a.owner {
      var (owner, rest) := Cut(a.owner, '/').value;
      assert a.owner == owner + "/" + rest;
      assert SplitsLater(a, Repo(owner, rest + "/" + a.repo));
      SplitsShareKey(a, Repo(owner, rest + "/" + a.repo));
    } else if '/' in a.repo {
      var (rest, repo) := Cut(a.repo, '/').value;
      assert a.repo == rest + "/" + repo;
      assert SplitsLater(Repo(a.owner + "/" + rest, repo), a);
      SplitsShareKey(Repo(a.owner + "/" + rest, repo), a);
    } else {
      forall b: Repo | RepoString(b) == RepoString(a)
        ensures b == a
      {
        RepoKeysInjective(a, b);
        SlashesOf(a, b);
      }
    }
  }

  lemma SplitsShareKey(later: Repo, earlier: Repo)
    requires SplitsLater(later, earlier)
    ensures later != earlier && RepoString(later) == RepoString(earlier)
  {
    RepoKeysInjective(later, earlier);
    assert |later.owner| > |earlier.owner|;
  }

  lemma SlashesOf(a: Repo, b: Repo)
    ensures SplitsLater(a, b) ==> '/' in a.owner && '/' in b.repo
    ensures SplitsLater(b, a) ==> '/' in a.repo
  {
    if mid: string :| a.owner == b.owner + "/" + mid && b.repo == mid + "/" + a.repo {
      assert a.owner[|b.owner|] == '/' && b.repo[|mid|] == '/';
    }
    if mid: string :| b.owner == a.owner + "/" + mid && a.repo == mid + "/" + b.repo {
      assert a.repo[|mid|] == '/';
    }
  }

  /** In particular two repositories can share a key. */
  lemma RepoKeysCollide()
    ensures exists a: Repo, b: Repo :: a != b && RepoString(a) == RepoString(b)
  {
    var a, b := Repo("x/y", "z"), Repo("x", "y/z");
    assert RepoString(a) == "x/y/z" == RepoString(b);
  }

  function LowerChar(c: char): char {
    if 'A' <= c <= 'Z' then c - 'A' + 'a' else c
  }

  /** `upper` is a capital letter and `lower` its small one. */
  predicate CapitalOf(upper: char, lower: char) {
    'A' <= upper <= 'Z' && lower as int == upper as int - 'A' as int + 'a' as int
  }

  /** No capital is left, and nothing else has changed. */
  function PagesSHA256FromString(s: string): (lower: string)
    ensures |lower| == |s|
    ensures forall i :: 0 <= i < |s| ==> if 'A' <= s[i] <= 'Z' then CapitalOf(s[i], lower[i]) else lower[i] == s[i]
  {
    seq(|s|, i requires 0 <= i < |s| => LowerChar(s[i]))
  }
}
