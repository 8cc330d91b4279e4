/** Archives, the content hash, and what an archive is supposed to serve. */
module Archives {
  import opened Types
  import opened Strip

  datatype Entry = Entry(name: string, content: Bytes)

  /** A decoded archive and the number of leading path components its entries lose. */
  datatype Archive = Archive(entries: seq<Entry>, strip: nat)

  /** The world outside: the content hash, the digest of a whole zip file (a zip file is identified with its
      decoded entries), and the archive behind each version SHA. */
  datatype Env = Env(hash: Bytes -> string, zipHash: seq<Entry> -> string, archives: string -> Archive)

  /** Hashes are injective and never empty; a SHA that is the digest of some zip belongs to that zip. */
  ghost predicate ValidEnv(env: Env) {
    && (forall a: Bytes, b: Bytes :: env.hash(a) == env.hash(b) ==> a == b)
    && (forall a: Bytes :: env.hash(a) != "")
    && (forall e: seq<Entry> :: env.archives(env.zipHash(e)) == Archive(e, 0))
  }

  function SaveNameOf(a: Archive, i: nat): Option<string>
    requires i < |a.entries|
  {
    Stripped(a.entries[i].name, a.strip)
  }

  /** Look a saved name up in the archive: the content of the first entry saved under it. */
  function ServeFrom(a: Archive, name: string, i: nat): (r: Option<Bytes>)
    requires i <= |a.entries|
    ensures r == None <==> forall j :: i <= j < |a.entries| ==> SaveNameOf(a, j) != Some(name)
    ensures r.Some? ==>
              exists j :: i <= j < |a.entries| && SaveNameOf(a, j) == Some(name) && r.value == a.entries[j].content
                                    && forall k :: i <= k < j ==> SaveNameOf(a, k) != Some(name)
    decreases |a.entries| - i
  {
    if i == |a.entries| then None
    else if SaveNameOf(a, i) == Some(name) then Some(a.entries[i].content)
    else ServeFrom(a, name, i + 1)
  }

  function Serve(a: Archive, name: string): Option<Bytes> {
    ServeFrom(a, name, 0)
  }

  /** The entries before `j` that are saved under the same name as `j`. */
  function Earlier(a: Archive, j: nat): set<nat>
    requires j < |a.entries|
  {
    set i: nat | i < j && SaveNameOf(a, i) == SaveNameOf(a, j)
  }

  /** `j` is one of the first five entries saved under its name. */
  predicate FirstFive(a: Archive, j: nat)
    requires j < |a.entries|
  {
    SaveNameOf(a, j).Some? && |Earlier(a, j)| < 5
  }

  /** Among entries saved under one name, the first five have the same content. Holds when names are unique. */
  ghost predicate Agree(a: Archive) {
    forall i, j :: 0 <= i < j < |a.entries| && FirstFive(a, j) && SaveNameOf(a, i) == SaveNameOf(a, j) ==>
                     a.entries[i].content == a.entries[j].content
  }

  ghost predicate UniqueNames(a: Archive) {
    forall i, j :: 0 <= i < j < |a.entries| && SaveNameOf(a, i).Some? ==> SaveNameOf(a, i) != SaveNameOf(a, j)
  }

  /** All entries lie in the directory `p` of depth `strip`, and no two have one name. */
  ghost predicate CommonDirectory(a: Archive, p: string) {
    && ComponentPrefix(p, a.strip)
    && (forall i :: 0 <= i < |a.entries| ==> HasPrefix(a.entries[i].name, p))
    && (forall i, j :: 0 <= i < j < |a.entries| ==> a.entries[i].name != a.entries[j].name)
  }

  /** Archives with one common top directory, as branch archives have, keep their names apart when stripped, so what
      they serve is determined. */
  lemma CommonDirectoryAgrees(a: Archive, p: string)
    requires CommonDirectory(a, p)
    ensures UniqueNames(a) && Agree(a)
  {
    forall i, j | 0 <= i < j < |a.entries| && SaveNameOf(a, i).Some?
      ensures SaveNameOf(a, i) != SaveNameOf(a, j)
    {
      var (x, y) := (a.entries[i].name, a.entries[j].name);
      assert x == p + x[|p|..] && y == p + y[|p|..];
      if SaveNameOf(a, i) == SaveNameOf(a, j) {
        StripInjective(p, x[|p|..], y[|p|..], a.strip);
      }
    }
  }
}

/** `unzipDocs` (taskFetchVersion.go) as interleaved steps: one launching loop, at most five goroutines, each of
    which reads and stores a blob and then appends to the shared list under the mutex. */
module Unzip {
  import opened Types
  import opened Archives

  const LIMIT: nat := 5

  /** `reading` and `stored` are the running goroutines before and after their blob is stored; `order` is the
      order in which goroutines went through the mutex; `failed` is the error group's first error. */
  datatype Unzip = Unzip(next: nat, reading: set<nat>, stored: set<nat>, order: seq<nat>, files: Pages, failed: bool)

  datatype UnzipAct = Launch | StoreBlob(i: nat) | Append(i: nat) | FailEntry(i: nat)

  const UNZIP_INIT: Unzip := Unzip(0, {}, {}, [], [], false)

  predicate UnzipEnabled(a: Archive, u: Unzip, act: UnzipAct) {
    match act
    case Launch => u.next < |a.entries| && |u.reading + u.stored| < LIMIT
    case StoreBlob(i) => i < |a.entries| && i in u.reading
    case Append(i) => i < |a.entries| && i in u.stored
    case FailEntry(i) => i in u.reading
  }

  /** What entry `i` contributes to the list. */
  function One(env: Env, a: Archive, i: nat): Pages
    requires i < |a.entries|
  {
    match SaveNameOf(a, i)
    case None => []
    case Some(name) => [PageFile(name, env.hash(a.entries[i].content))]
  }

  function UnzipNext(env: Env, a: Archive, u: Unzip, act: UnzipAct): Unzip
    requires UnzipEnabled(a, u, act)
  {
    match act
    case Launch => u.(next := u.next + 1, reading := u.reading + {u.next})
    case StoreBlob(i) => u.(reading := u.reading - {i}, stored := u.stored + {i})
    case Append(i) => u.(stored := u.stored - {i}, order := u.order + [i], files := u.files + One(env, a, i))
    case FailEntry(i) => u.(reading := u.reading - {i}, failed := true)
  }

  function UnzipData(env: Env, a: Archive, data: map<string, Bytes>, u: Unzip, act: UnzipAct): map<string, Bytes>
    requires UnzipEnabled(a, u, act)
  {
    match act
    case StoreBlob(i) => var content := a.entries[i].content; data[env.hash(content) := content]
    case _ => data
  }

  /** The launching loop is over and every goroutine has returned, so `Wait` returns. */
  predicate UnzipFinished(a: Archive, u: Unzip) {
    u.next == |a.entries| && u.reading == {} && u.stored == {}
  }

  /** The sequential program: filter and map the first `n` entries in archive order. */
  function SequentialList(env: Env, a: Archive, n: nat): Pages
    requires n <= |a.entries|
  {
    if n == 0 then [] else SequentialList(env, a, n - 1) + One(env, a, n - 1)
  }

  predicate InRange(a: Archive, order: seq<nat>) {
    forall p :: 0 <= p < |order| ==> order[p] < |a.entries|
  }

  function Collect(env: Env, a: Archive, order: seq<nat>): Pages
    requires InRange(a, order)
  {
    if order == [] then []
    else Collect(env, a, order[..|order| - 1]) + One(env, a, order[|order| - 1])
  }

  /** Every blob is stored under its own hash. */
  ghost predicate ContentAddressed(env: Env, data: map<string, Bytes>) {
    forall h :: h in data ==> env.hash(data[h]) == h
  }

  predicate HasBlob(env: Env, a: Archive, data: map<string, Bytes>, i: nat)
    requires i < |a.entries|
  {
    env.hash(a.entries[i].content) in data
  }

  /** Blobs are only ever added. */
  ghost predicate DataGrows(data: map<string, Bytes>, data': map<string, Bytes>) {
    forall h :: h in data ==> h in data' && data'[h] == data[h]
  }

  predicate NoDuplicates(order: seq<nat>) {
    forall p, q :: 0 <= p < q < |order| ==> order[p] != order[q]
  }

  /** The entries launched before the one at position `p` that had not yet gone through the mutex. */
  function Behind(order: seq<nat>, p: nat): set<nat>
    requires p < |order|
  {
    set i: nat | i < order[p] && i !in order[..p]
  }

  /** At most four entries can be overtaken at any moment. */
  ghost predicate Windowed(order: seq<nat>) {
    forall p :: 0 <= p < |order| ==> |Behind(order, p)| < LIMIT
  }

  /** The running goroutines: at most five, each one launched, none of them past the mutex, which only launched
      ones have passed. */
  ghost predicate Slots(a: Archive, u: Unzip) {
    && u.next <= |a.entries| && |u.reading + u.stored| <= LIMIT && u.reading !! u.stored
    && (forall i :: i in u.reading + u.stored ==> i < u.next && i !in u.order)
    && (forall i :: i in u.order ==> i < u.next)
  }

  ghost predicate Passed(a: Archive, u: Unzip) {
    InRange(a, u.order) && NoDuplicates(u.order)
  }

  ghost predicate Blobs(env: Env, a: Archive, data: map<string, Bytes>, u: Unzip)
    requires InRange(a, u.order)
  {
    && (forall p :: 0 <= p < |u.order| ==> HasBlob(env, a, data, u.order[p]))
    && (forall i :: i in u.stored ==> i < |a.entries| && HasBlob(env, a, data, i))
  }

  /** While nothing has failed, every launched entry is running or past the mutex. */
  ghost predicate Covered(u: Unzip) {
    forall i: nat :: i < u.next ==> i in u.reading + u.stored || i in u.order
  }

  ghost predicate UnzipInv(env: Env, a: Archive, data: map<string, Bytes>, u: Unzip) {
    && Slots(a, u) && Passed(a, u) && Blobs(env, a, data, u)
    && u.files == Collect(env, a, u.order)
    && (!u.failed ==> Windowed(u.order) && Covered(u))
  }

  lemma UnzipInitInv(env: Env, a: Archive, data: map<string, Bytes>)
    ensures UnzipInv(env, a, data, UNZIP_INIT)
  {
  }

  /** Storing a blob keeps the data content-addressed and only adds to it. */
  lemma UnzipDataGrows(env: Env, a: Archive, data: map<string, Bytes>, u: Unzip, act: UnzipAct)
    requires ValidEnv(env) && ContentAddressed(env, data) && UnzipEnabled(a, u, act)
    ensures ContentAddressed(env, UnzipData(env, a, data, u, act))
    ensures DataGrows(data, UnzipData(env, a, data, u, act))
  {
  }

  lemma LaunchSlots(env: Env, a: Archive, u: Unzip)
    requires Slots(a, u) && UnzipEnabled(a, u, Launch)
    ensures Slots(a, UnzipNext(env, a, u, Launch))
    ensures Covered(u) ==> Covered(UnzipNext(env, a, u, Launch))
  {
    assert u.reading + {u.next} + u.stored == u.reading + u.stored + {u.next};
  }

  lemma StoreBlobSlots(env: Env, a: Archive, u: Unzip, i: nat)
    requires Slots(a, u) && UnzipEnabled(a, u, StoreBlob(i))
    ensures Slots(a, UnzipNext(env, a, u, StoreBlob(i)))
    ensures Covered(u) ==> Covered(UnzipNext(env, a, u, StoreBlob(i)))
  {
    assert (u.reading - {i}) + (u.stored + {i}) == u.reading + u.stored;
  }

  lemma AppendSlots(env: Env, a: Archive, u: Unzip, i: nat)
    requires Slots(a, u) && UnzipEnabled(a, u, Append(i))
    ensures Slots(a, UnzipNext(env, a, u, Append(i)))
    ensures Covered(u) ==> Covered(UnzipNext(env, a, u, Append(i)))
  {
    assert u.reading + (u.stored - {i}) == u.reading + u.stored - {i};
    assert forall k :: k in u.order + [i] <==> k in u.order || k == i;
  }

  /** Slots are taken and given back one at a time, and nothing is lost between launch and mutex. */
  lemma SlotsStep(env: Env, a: Archive, u: Unzip, act: UnzipAct)
    requires Slots(a, u) && UnzipEnabled(a, u, act)
    ensures Slots(a, UnzipNext(env, a, u, act))
    ensures Covered(u) && !UnzipNext(env, a, u, act).failed ==> Covered(UnzipNext(env, a, u, act))
  {
    match act
    case Launch => LaunchSlots(env, a, u);
    case StoreBlob(i) => StoreBlobSlots(env, a, u, i);
    case Append(i) => AppendSlots(env, a, u, i);
    case FailEntry(i) => SubsetCard((u.reading - {i}) + u.stored, u.reading + u.stored);
  }

  lemma AppendPassed(env: Env, a: Archive, u: Unzip, i: nat)
    requires Slots(a, u) && Passed(a, u) && UnzipEnabled(a, u, Append(i))
    ensures Passed(a, UnzipNext(env, a, u, Append(i)))
  {
    assert i !in u.order;
  }

  lemma AppendBlobs(env: Env, a: Archive, data: map<string, Bytes>, u: Unzip, i: nat)
    requires Passed(a, u) && Blobs(env, a, data, u) && UnzipEnabled(a, u, Append(i))
    requires Passed(a, UnzipNext(env, a, u, Append(i)))
    ensures Blobs(env, a, data, UnzipNext(env, a, u, Append(i)))
  {
    var order := UnzipNext(env, a, u, Append(i)).order;
    assert forall p :: 0 <= p < |order| ==> order[p] == if p < |u.order| then u.order[p] else i;
  }

  lemma AppendFiles(env: Env, a: Archive, u: Unzip, i: nat)
    requires Passed(a, u) && u.files == Collect(env, a, u.order) && UnzipEnabled(a, u, Append(i))
    requires Passed(a, UnzipNext(env, a, u, Append(i)))
    ensures var u' := UnzipNext(env, a, u, Append(i)); u'.files == Collect(env, a, u'.order)
  {
    assert (u.order + [i])[..|u.order|] == u.order;
  }

  lemma AppendInv(env: Env, a: Archive, data: map<string, Bytes>, u: Unzip, i: nat)
    requires UnzipInv(env, a, data, u) && UnzipEnabled(a, u, Append(i))
    ensures var u' := UnzipNext(env, a, u, Append(i));
            && Passed(a, u') && Blobs(env, a, data, u') && u'.files == Collect(env, a, u'.order)
            && (!u'.failed ==> Windowed(u'.order))
  {
    AppendPassed(env, a, u, i);
    AppendBlobs(env, a, data, u, i);
    AppendFiles(env, a, u, i);
    if !u.failed {
      AppendWindow(u, i);
    }
  }

  lemma StoreBlobBlobs(env: Env, a: Archive, data: map<string, Bytes>, u: Unzip, i: nat)
    requires Passed(a, u) && Blobs(env, a, data, u) && UnzipEnabled(a, u, StoreBlob(i))
    ensures Blobs(env, a, UnzipData(env, a, data, u, StoreBlob(i)), UnzipNext(env, a, u, StoreBlob(i)))
  {
    assert HasBlob(env, a, UnzipData(env, a, data, u, StoreBlob(i)), i);
  }

  /** The invariant of one unzip is kept by its own steps in any order. */
  lemma UnzipStepInv(env: Env, a: Archive, data: map<string, Bytes>, u: Unzip, act: UnzipAct)
    requires ValidEnv(env) && ContentAddressed(env, data) && UnzipInv(env, a, data, u) && UnzipEnabled(a, u, act)
    ensures UnzipInv(env, a, UnzipData(env, a, data, u, act), UnzipNext(env, a, u, act))
  {
    SlotsStep(env, a, u, act);
    match act
    case Launch =>
    case FailEntry(i) =>
    case StoreBlob(i) => StoreBlobBlobs(env, a, data, u, i);
    case Append(i) => AppendInv(env, a, data, u, i);
  }

  /** Appending keeps the window: whoever is overtaken is still running, and at most five are. */
  lemma AppendWindow(u: Unzip, i: nat)
    requires i in u.stored && i < u.next && |u.reading + u.stored| <= LIMIT && Windowed(u.order)
    requires Covered(u)
    ensures Windowed(u.order + [i])
  {
    var order := u.order + [i];
    forall p | 0 <= p < |order|
      ensures |Behind(order, p)| < LIMIT
    {
      if p < |u.order| {
        assert order[..p] == u.order[..p];
        assert Behind(order, p) == Behind(u.order, p);
      } else {
        assert order[..p] == u.order;
        var active := u.reading + u.stored;
        assert Behind(order, p) <= active - {i};
        SubsetCard(Behind(order, p), active - {i});
      }
    }
  }

  lemma {:induction false} SubsetCard(s: set<nat>, t: set<nat>)
    requires s <= t
    ensures |s| <= |t|
  {
    if s != {} {
      var x :| x in s;
      SubsetCard(s - {x}, t - {x});
    }
  }

  /** Other writers of blobs do not disturb an unzip in progress. */
  lemma UnzipInvStable(env: Env, a: Archive, data: map<string, Bytes>, data': map<string, Bytes>, u: Unzip)
    requires UnzipInv(env, a, data, u) && DataGrows(data, data')
    ensures UnzipInv(env, a, data', u)
  {
  }

  /** How many steps the unzip can still take. */
  function UnzipWork(a: Archive, u: Unzip): nat {
    3 * (if u.next <= |a.entries| then |a.entries| - u.next else 0) + 2 * |u.reading| + |u.stored|
  }

  lemma UnzipWorkDecreases(env: Env, a: Archive, u: Unzip, act: UnzipAct)
    requires Slots(a, u) && UnzipEnabled(a, u, act)
    ensures UnzipWork(a, UnzipNext(env, a, u, act)) < UnzipWork(a, u)
  {
  }

  /** An unzip that is not finished always has a step that does not fail. */
  lemma UnzipCanStep(a: Archive, u: Unzip) returns (act: UnzipAct)
    requires Slots(a, u) && !UnzipFinished(a, u)
    ensures UnzipEnabled(a, u, act) && !act.FailEntry?
  {
    if i :| i in u.stored {
      act := Append(i);
    } else if i :| i in u.reading {
      act := StoreBlob(i);
    } else {
      assert u.reading + u.stored == {};
      act := Launch;
    }
  }

  // ---------------------------------------------------------------- refinement of the sequential program

  ghost predicate Complete(a: Archive, order: seq<nat>) {
    InRange(a, order) && NoDuplicates(order) && forall i: nat :: i < |a.entries| ==> i in order
  }

  lemma {:induction false} CollectConcat(env: Env, a: Archive, s: seq<nat>, t: seq<nat>)
    requires InRange(a, s) && InRange(a, t)
    ensures InRange(a, s + t)
    ensures Collect(env, a, s + t) == Collect(env, a, s) + Collect(env, a, t)
  {
    if t == [] {
      assert s + t == s;
    } else {
      var t' := t[..|t| - 1];
      assert (s + t)[..|s + t| - 1] == s + t';
      CollectConcat(env, a, s, t');
    }
  }

  /** Taking the entry at position `p` out of the order takes its contribution out of the list. */
  lemma CollectRemove(env: Env, a: Archive, order: seq<nat>, p: nat)
    requires InRange(a, order) && p < |order|
    ensures InRange(a, order[..p] + order[p + 1..])
    ensures multiset(Collect(env, a, order)) ==
            multiset(Collect(env, a, order[..p] + order[p + 1..])) + multiset(One(env, a, order[p]))
  {
    var l, r := order[..p], order[p + 1..];
    var mid := [order[p]];
    assert order == l + mid + r;
    CollectConcat(env, a, l + mid, r);
    CollectConcat(env, a, l, mid);
    CollectConcat(env, a, l, r);
    assert mid[..0] == [];
    assert Collect(env, a, mid) == One(env, a, order[p]);
  }

  /** `order` is an arrangement of the numbers below `n`. */
  ghost predicate Arranges(order: seq<nat>, n: nat) {
    NoDuplicates(order) && forall i: nat :: i in order <==> i < n
  }

  lemma RemoveLargest(order: seq<nat>, n: nat) returns (p: nat)
    requires Arranges(order, n + 1)
    ensures p < |order| && order[p] == n
    ensures Arranges(order[..p] + order[p + 1..], n)
  {
    assert n in order;
    p :| 0 <= p < |order| && order[p] == n;
    var rest := order[..p] + order[p + 1..];
    assert forall q :: 0 <= q < |rest| ==> rest[q] == order[if q < p then q else q + 1];
    forall i: nat
      ensures i in rest <==> i < n
    {
      if i < n {
        assert i in order;
        var q :| 0 <= q < |order| && order[q] == i;
        assert rest[if q < p then q else q - 1] == i;
      }
      if i in rest {
        var q :| 0 <= q < |rest| && rest[q] == i;
        assert order[if q < p then q else q + 1] in order;
      }
    }
  }

  /** Taking the last entry of the archive out of the order. */
  lemma TakeOutLargest(env: Env, a: Archive, order: seq<nat>, n: nat) returns (rest: seq<nat>)
    requires n < |a.entries| && InRange(a, order) && Arranges(order, n + 1)
    ensures InRange(a, rest) && Arranges(rest, n)
    ensures multiset(Collect(env, a, order)) == multiset(Collect(env, a, rest)) + multiset(One(env, a, n))
  {
    var p := RemoveLargest(order, n);
    CollectRemove(env, a, order, p);
    rest := order[..p] + order[p + 1..];
  }

  lemma {:induction false} CollectPermutes(env: Env, a: Archive, order: seq<nat>, n: nat)
    requires n <= |a.entries| && InRange(a, order) && Arranges(order, n)
    ensures multiset(Collect(env, a, order)) == multiset(SequentialList(env, a, n))
    decreases n
  {
    if n == 0 {
      assert forall k :: 0 <= k < |order| ==> order[k] in order;
      assert order == [];
    } else {
      var rest := TakeOutLargest(env, a, order, n - 1);
      CollectPermutes(env, a, rest, n - 1);
    }
  }

  /** Refinement: whatever the schedule, a successful unzip lists a permutation of the sequential filter-map and
      every entry's blob is stored. */
  lemma UnzipRefinesSequential(env: Env, a: Archive, data: map<string, Bytes>, u: Unzip)
    requires UnzipInv(env, a, data, u) && UnzipFinished(a, u) && !u.failed
    ensures multiset(u.files) == multiset(SequentialList(env, a, |a.entries|))
    ensures forall i :: 0 <= i < |a.entries| ==> HasBlob(env, a, data, i)
    ensures Complete(a, u.order) && Windowed(u.order)
  {
    forall i: nat | i < |a.entries|
      ensures i in u.order
    {
      assert i !in u.reading + u.stored;
    }
    CollectPermutes(env, a, u.order, |a.entries|);
  }

  // ---------------------------------------------------------------- looking a name up in the published list

  /** The search loop of `requestPageData`: the hash of the first file with this name, or the empty hash. */
  function FindFile(pages: Pages, name: string): string {
    if pages == [] then "" else if pages[0].name == name then pages[0].sha else FindFile(pages[1..], name)
  }

  predicate Listed(pages: Pages, name: string) {
    exists i :: 0 <= i < |pages| && pages[i].name == name
  }

  lemma {:induction false} FindFileConcat(s: Pages, t: Pages, name: string)
    ensures FindFile(s + t, name) == if Listed(s, name) then FindFile(s, name) else FindFile(t, name)
    ensures Listed(s + t, name) <==> Listed(s, name) || Listed(t, name)
  {
    if s == [] {
      assert s + t == t;
    } else {
      assert (s + t)[1..] == s[1..] + t;
      FindFileConcat(s[1..], t, name);
      assert forall i :: 0 <= i < |s[1..]| ==> s[1..][i] == s[i + 1];
      if Listed(s, name) && s[0].name != name {
        var i :| 0 <= i < |s| && s[i].name == name;
        assert s[1..][i - 1].name == name;
      }
      if Listed(s[1..], name) {
        var i :| 0 <= i < |s[1..]| && s[1..][i].name == name;
        assert s[i + 1].name == name;
      }
      assert Listed(s, name) ==> Listed(s + t, name) by {
        if Listed(s, name) {
          var i :| 0 <= i < |s| && s[i].name == name;
          assert (s + t)[i].name == name;
        }
      }
      if Listed(t, name) {
        var i :| 0 <= i < |t| && t[i].name == name;
        assert (s + t)[|s| + i].name == name;
      }
    }
  }

  lemma FindOne(env: Env, a: Archive, i: nat, name: string)
    requires i < |a.entries|
    ensures Listed(One(env, a, i), name) <==> SaveNameOf(a, i) == Some(name)
    ensures FindFile(One(env, a, i), name) ==
            if SaveNameOf(a, i) == Some(name) then env.hash(a.entries[i].content) else ""
  {
    if SaveNameOf(a, i) == Some(name) {
      assert One(env, a, i)[0].name == name;
    }
  }

  /** The first position whose entry is saved under `name`; the length of the order when there is none. */
  function FirstPosition(a: Archive, order: seq<nat>, name: string): (p: nat)
    requires InRange(a, order)
    ensures p <= |order| && forall q :: 0 <= q < p ==> SaveNameOf(a, order[q]) != Some(name)
    ensures p < |order| ==> SaveNameOf(a, order[p]) == Some(name)
  {
    if order == [] then 0
    else
      var k := |order| - 1;
      var front := order[..k];
      var p := FirstPosition(a, front, name);
      assert forall q :: 0 <= q < k ==> order[q] == front[q];
      if p == k && SaveNameOf(a, order[k]) != Some(name) then |order| else p
  }

  lemma {:induction false} FindFileInOrder(env: Env, a: Archive, order: seq<nat>, name: string)
    requires InRange(a, order)
    ensures var p := FirstPosition(a, order, name);
            && (Listed(Collect(env, a, order), name) <==> p < |order|)
            && FindFile(Collect(env, a, order), name) ==
               if p < |order| then env.hash(a.entries[order[p]].content) else ""
  {
    if order != [] {
      var k := |order| - 1;
      var front, last := order[..k], order[k];
      FindFileInOrder(env, a, front, name);
      FindOne(env, a, last, name);
      FindFileConcat(Collect(env, a, front), One(env, a, last), name);
    }
  }

  /** The list a finished unzip may publish for an archive. */
  ghost predicate Published(env: Env, a: Archive, data: map<string, Bytes>, files: Pages) {
    exists order: seq<nat> :: PublishedAs(env, a, data, files, order)
  }

  ghost predicate PublishedAs(env: Env, a: Archive, data: map<string, Bytes>, files: Pages, order: seq<nat>) {
    && Complete(a, order) && Windowed(order) && files == Collect(env, a, order)
    && forall i :: 0 <= i < |a.entries| ==> HasBlob(env, a, data, i)
  }

  lemma {:induction false} CollectMembers(env: Env, a: Archive, order: seq<nat>, file: PageFile)
    requires InRange(a, order)
    ensures file in Collect(env, a, order) <==> exists p :: 0 <= p < |order| && file in One(env, a, order[p])
  {
    if order != [] {
      var k := |order| - 1;
      CollectMembers(env, a, order[..k], file);
      assert forall p :: 0 <= p < k ==> order[..k][p] == order[p];
      if p :| 0 <= p < |order| && file in One(env, a, order[p]) {
        assert p == k || order[..k][p] == order[p];
      }
    }
  }

  /** A published list has the saved name and the content hash of every entry that is saved, and nothing else. */
  lemma PublishedMembers(env: Env, a: Archive, data: map<string, Bytes>, files: Pages, file: PageFile)
    requires Published(env, a, data, files)
    ensures file in files <==>
            exists i: nat :: i < |a.entries| && SaveNameOf(a, i) == Some(file.name)
                        && env.hash(a.entries[i].content) == file.sha
  {
    var order: seq<nat> :| PublishedAs(env, a, data, files, order);
    CollectMembers(env, a, order, file);
    if i: nat :| && i < |a.entries| && SaveNameOf(a, i) == Some(file.name)
                 && env.hash(a.entries[i].content) == file.sha {
      assert i in order;
      assert file in One(env, a, i);
    }
  }

  /** A looked-up name is found exactly when the archive has it, and what is found is the content of one of the
      first five entries with that name. */
  lemma LookupIsFirstFive(env: Env, a: Archive, data: map<string, Bytes>, files: Pages, name: string)
    requires ValidEnv(env) && Published(env, a, data, files)
    ensures FindFile(files, name) == "" <==> Serve(a, name) == None
    ensures FindFile(files, name) != "" ==>
              exists j :: 0 <= j < |a.entries| && SaveNameOf(a, j) == Some(name) && FirstFive(a, j)
                          && FindFile(files, name) == env.hash(a.entries[j].content) && FindFile(files, name) in data
  {
    var order: seq<nat> :| PublishedAs(env, a, data, files, order);
    FindFileInOrder(env, a, order, name);
    var p := FirstPosition(a, order, name);
    if p < |order| {
      var j := order[p];
      forall i | i in Earlier(a, j)
        ensures i in Behind(order, p)
      {
        assert forall q :: 0 <= q < p ==> SaveNameOf(a, order[q]) != Some(name);
      }
      SubsetCard(Earlier(a, j), Behind(order, p));
      assert HasBlob(env, a, data, j);
    } else {
      forall i: nat | i < |a.entries|
        ensures SaveNameOf(a, i) != Some(name)
      {
        assert i in order;
      }
    }
  }

  /** When the first five entries of every name agree, the published list answers exactly like the archive. */
  lemma LookupIsServe(env: Env, a: Archive, data: map<string, Bytes>, files: Pages, name: string)
    requires ValidEnv(env) && ContentAddressed(env, data) && Published(env, a, data, files) && Agree(a)
    ensures match Serve(a, name)
            case None => FindFile(files, name) == ""
            case Some(content) =>
              var h := FindFile(files, name);
              h != "" && h == env.hash(content) && h in data && data[h] == content
  {
    LookupIsFirstFive(env, a, data, files, name);
    if FindFile(files, name) != "" {
      var j :| 0 <= j < |a.entries| && SaveNameOf(a, j) == Some(name) && FirstFive(a, j)
               && FindFile(files, name) == env.hash(a.entries[j].content) && FindFile(files, name) in data;
      var i :| 0 <= i < |a.entries| && SaveNameOf(a, i) == Some(name) && Serve(a, name).value == a.entries[i].content
               && forall k :: 0 <= k < i ==> SaveNameOf(a, k) != Some(name);
      assert i <= j;
      assert a.entries[i].content == a.entries[j].content;
    }
  }
}
