/** Which published lists the schedules of one unzip can produce: the five-goroutine limit makes the answer depend
    on the schedule exactly when two of the first five entries saved under one name differ. */
module UnzipSchedules {
  import opened Types
  import opened Archives
  import opened Unzip

  datatype Progress = Progress(u: Unzip, data: map<string, Bytes>)

  const START: Progress := Progress(UNZIP_INIT, map[])

  function StepFrom(env: Env, a: Archive, p: Progress, act: UnzipAct): Option<Progress> {
    if UnzipEnabled(a, p.u, act)
    then Some(Progress(UnzipNext(env, a, p.u, act), UnzipData(env, a, p.data, p.u, act)))
    else None
  }

  /** Follow a schedule; None if some step was not possible when it was scheduled. */
  function RunFrom(env: Env, a: Archive, p: Progress, acts: seq<UnzipAct>): Option<Progress>
    decreases acts
  {
    if acts == [] then Some(p)
    else
      match StepFrom(env, a, p, acts[0])
      case None => None
      case Some(q) => RunFrom(env, a, q, acts[1..])
  }

  ghost predicate Sound(env: Env, a: Archive, p: Progress) {
    UnzipInv(env, a, p.data, p.u) && ContentAddressed(env, p.data)
  }

  lemma StepSound(env: Env, a: Archive, p: Progress, act: UnzipAct)
    requires ValidEnv(env) && Sound(env, a, p) && UnzipEnabled(a, p.u, act)
    ensures Sound(env, a, StepFrom(env, a, p, act).value)
  {
    UnzipDataGrows(env, a, p.data, p.u, act);
    UnzipStepInv(env, a, p.data, p.u, act);
  }

  /** The unzip invariant holds along every schedule. */
  lemma {:induction false} RunSound(env: Env, a: Archive, p: Progress, acts: seq<UnzipAct>)
    requires ValidEnv(env) && Sound(env, a, p) && RunFrom(env, a, p, acts).Some?
    ensures Sound(env, a, RunFrom(env, a, p, acts).value)
    decreases acts
  {
    if acts != [] {
      StepSound(env, a, p, acts[0]);
      RunSound(env, a, StepFrom(env, a, p, acts[0]).value, acts[1..]);
    }
  }

  lemma {:induction false} RunConcat(env: Env, a: Archive, p: Progress, acts: seq<UnzipAct>, more: seq<UnzipAct>)
    requires RunFrom(env, a, p, acts).Some?
    ensures RunFrom(env, a, p, acts + more) == RunFrom(env, a, RunFrom(env, a, p, acts).value, more)
    decreases acts
  {
    if acts == [] {
      assert acts + more == more;
    } else {
      assert (acts + more)[1..] == acts[1..] + more;
      RunConcat(env, a, StepFrom(env, a, p, acts[0]).value, acts[1..], more);
    }
  }

  lemma RunSnoc(env: Env, a: Archive, p: Progress, acts: seq<UnzipAct>, act: UnzipAct)
    requires RunFrom(env, a, p, acts).Some? && UnzipEnabled(a, RunFrom(env, a, p, acts).value.u, act)
    ensures RunFrom(env, a, p, acts + [act]) == StepFrom(env, a, RunFrom(env, a, p, acts).value, act)
  {
    RunConcat(env, a, p, acts, [act]);
    assert [act][1..] == [];
  }

  /** The schedule ends with `Wait` returning no error, and `files` is what `unzipDocs` returns. */
  ghost predicate Returns(env: Env, a: Archive, acts: seq<UnzipAct>, files: Pages) {
    match RunFrom(env, a, START, acts)
    case None => false
    case Some(p) => UnzipFinished(a, p.u) && !p.u.failed && files == p.u.files
  }

  lemma ReturnsPublished(env: Env, a: Archive, acts: seq<UnzipAct>, files: Pages) returns (data: map<string, Bytes>)
    requires ValidEnv(env) && Returns(env, a, acts, files)
    ensures Published(env, a, data, files) && ContentAddressed(env, data)
  {
    UnzipInitInv(env, a, map[]);
    RunSound(env, a, START, acts);
    var p := RunFrom(env, a, START, acts).value;
    data := p.data;
    UnzipRefinesSequential(env, a, data, p.u);
    assert PublishedAs(env, a, data, files, p.u.order);
  }

  /** No schedule gets stuck: from any point without a failure the unzip can still return, and what has already
      been appended stays in front. */
  lemma {:induction false} CanFinish(env: Env, a: Archive, p: Progress) returns (more: seq<UnzipAct>, q: Progress)
    requires Slots(a, p.u) && !p.u.failed
    ensures RunFrom(env, a, p, more) == Some(q)
    ensures UnzipFinished(a, q.u) && !q.u.failed && p.u.order <= q.u.order
    decreases UnzipWork(a, p.u)
  {
    more, q := [], p;
    if !UnzipFinished(a, p.u) {
      var act := UnzipCanStep(a, p.u);
      UnzipWorkDecreases(env, a, p.u, act);
      SlotsStep(env, a, p.u, act);
      var rest;
      rest, q := CanFinish(env, a, StepFrom(env, a, p, act).value);
      more := [act] + rest;
      assert more[1..] == rest;
    }
  }

  /** Up to entry `j` everything runs in archive order except that the entries of `hold` keep their slots. */
  ghost predicate HeldBack(u: Unzip, hold: set<nat>, i: nat) {
    && u.next == i && u.reading == {} && !u.failed && u.stored <= hold
    && forall p :: 0 <= p < |u.order| ==> u.order[p] < i && u.order[p] !in hold
  }

  lemma Extend(env: Env, a: Archive, acts: seq<UnzipAct>, p: Progress, act: UnzipAct)
    returns (acts': seq<UnzipAct>, p': Progress)
    requires RunFrom(env, a, START, acts) == Some(p) && Slots(a, p.u) && UnzipEnabled(a, p.u, act)
    ensures RunFrom(env, a, START, acts') == Some(p') && Slots(a, p'.u) && p'.u == UnzipNext(env, a, p.u, act)
  {
    RunSnoc(env, a, START, acts, act);
    SlotsStep(env, a, p.u, act);
    acts', p' := acts + [act], StepFrom(env, a, p, act).value;
  }

  /** Launch the next entry and store its blob. */
  lemma LaunchAndStore(env: Env, a: Archive, acts: seq<UnzipAct>, p: Progress)
    returns (acts': seq<UnzipAct>, p': Progress)
    requires RunFrom(env, a, START, acts) == Some(p) && Slots(a, p.u)
    requires p.u.next < |a.entries| && p.u.reading == {} && |p.u.stored| < LIMIT
    ensures RunFrom(env, a, START, acts') == Some(p') && Slots(a, p'.u)
    ensures p'.u == p.u.(next := p.u.next + 1, stored := p.u.stored + {p.u.next})
  {
    assert p.u.reading + p.u.stored == p.u.stored;
    acts', p' := Extend(env, a, acts, p, Launch);
    acts', p' := Extend(env, a, acts', p', StoreBlob(p.u.next));
  }

  /** The next entry runs to its end, unless it is to be held. */
  lemma HoldOne(env: Env, a: Archive, hold: set<nat>, acts: seq<UnzipAct>, p: Progress)
    returns (acts': seq<UnzipAct>, p': Progress)
    requires RunFrom(env, a, START, acts) == Some(p) && Slots(a, p.u) && HeldBack(p.u, hold, p.u.next)
    requires p.u.next < |a.entries| && |hold| < LIMIT
    ensures RunFrom(env, a, START, acts') == Some(p') && Slots(a, p'.u) && HeldBack(p'.u, hold, p.u.next + 1)
    ensures p.u.next !in hold ==> p'.u.order == p.u.order + [p.u.next]
  {
    SubsetCard(p.u.stored, hold);
    acts', p' := LaunchAndStore(env, a, acts, p);
    if p.u.next !in hold {
      acts', p' := Extend(env, a, acts', p', Append(p.u.next));
    }
  }

  lemma {:induction false} HoldBack(env: Env, a: Archive, j: nat, i: nat) returns (acts: seq<UnzipAct>, p: Progress)
    requires j < |a.entries| && i <= j + 1 && FirstFive(a, j)
    ensures RunFrom(env, a, START, acts) == Some(p) && Slots(a, p.u) && HeldBack(p.u, Earlier(a, j), i)
    ensures i == j + 1 ==> p.u.order != [] && p.u.order[|p.u.order| - 1] == j
    decreases i
  {
    acts, p := [], START;
    if i > 0 {
      acts, p := HoldBack(env, a, j, i - 1);
      acts, p := HoldOne(env, a, Earlier(a, j), acts, p);
      assert j !in Earlier(a, j);
    }
  }

  /** Each of the first five entries saved under a name can win: some schedule makes it the one that is served. */
  lemma AnyOfFirstFiveCanWin(env: Env, a: Archive, j: nat) returns (acts: seq<UnzipAct>, files: Pages)
    requires ValidEnv(env) && j < |a.entries| && FirstFive(a, j)
    ensures Returns(env, a, acts, files)
    ensures FindFile(files, SaveNameOf(a, j).value) == env.hash(a.entries[j].content)
  {
    var front, q;
    acts, front, q := HoldThenFinish(env, a, j);
    files := q.u.files;
    UnzipInitInv(env, a, map[]);
    RunSound(env, a, START, acts);
    ServesLast(env, a, q, front, j);
  }

  /** Hold the earlier entries of the name back until `j` is listed, then let everything finish. */
  lemma HoldThenFinish(env: Env, a: Archive, j: nat) returns (acts: seq<UnzipAct>, front: seq<nat>, q: Progress)
    requires j < |a.entries| && FirstFive(a, j)
    ensures RunFrom(env, a, START, acts) == Some(q) && UnzipFinished(a, q.u) && !q.u.failed
    ensures front <= q.u.order && FirstListed(a, front, j)
  {
    var p, more;
    acts, p := HoldBack(env, a, j, j + 1);
    front := p.u.order;
    more, q := CanFinish(env, a, p);
    RunConcat(env, a, START, acts, more);
    acts := acts + more;
  }

  /** `j` is the last one listed and, of the entries saved under its name, the only one. */
  ghost predicate FirstListed(a: Archive, front: seq<nat>, j: nat)
    requires j < |a.entries|
  {
    && front != [] && front[|front| - 1] == j
    && forall p :: 0 <= p < |front| ==> front[p] <= j && front[p] !in Earlier(a, j)
  }

  lemma ServesLast(env: Env, a: Archive, q: Progress, front: seq<nat>, j: nat)
    requires ValidEnv(env) && Sound(env, a, q) && j < |a.entries| && FirstFive(a, j)
    requires front <= q.u.order && FirstListed(a, front, j)
    ensures FindFile(q.u.files, SaveNameOf(a, j).value) == env.hash(a.entries[j].content)
  {
    FindFileInOrder(env, a, q.u.order, SaveNameOf(a, j).value);
    FirstIsLast(a, front, q.u.order, j);
  }

  /** Everything before the held-back moment has another name, so `j` is the first of its name. */
  lemma FirstIsLast(a: Archive, front: seq<nat>, order: seq<nat>, j: nat)
    requires j < |a.entries| && FirstFive(a, j) && InRange(a, order) && NoDuplicates(order) && front <= order
    requires FirstListed(a, front, j)
    ensures FirstPosition(a, order, SaveNameOf(a, j).value) == |front| - 1
  {
    var last := |front| - 1;
    assert order[last] == front[last] == j;
    forall q | 0 <= q < last
      ensures SaveNameOf(a, order[q]) != SaveNameOf(a, j)
    {
      assert order[q] == front[q] != j;
    }
  }

  /** Every schedule returns the same answers. */
  ghost predicate ScheduleIndependent(env: Env, a: Archive) {
    forall acts, acts', files, files', name ::
      Returns(env, a, acts, files) && Returns(env, a, acts', files') ==> FindFile(files, name) == FindFile(files', name)
  }

  /** When two of the first five entries of a name differ, two schedules answer differently. */
  lemma Disagree(env: Env, a: Archive)
    returns (one: seq<UnzipAct>, files: Pages, other: seq<UnzipAct>, files': Pages, name: string)
    requires ValidEnv(env) && !Agree(a)
    ensures Returns(env, a, one, files) && Returns(env, a, other, files')
            && FindFile(files, name) != FindFile(files', name)
  {
    var i: nat, j: nat :| i < j < |a.entries| && FirstFive(a, j) && SaveNameOf(a, i) == SaveNameOf(a, j)
                          && a.entries[i].content != a.entries[j].content;
    SubsetCard(Earlier(a, i), Earlier(a, j));
    one, files := AnyOfFirstFiveCanWin(env, a, i);
    other, files' := AnyOfFirstFiveCanWin(env, a, j);
    name := SaveNameOf(a, i).value;
  }

  /** The exact condition under which what an archive serves does not depend on the schedule. */
  lemma AnswersFixedIffFirstFiveAgree(env: Env, a: Archive)
    requires ValidEnv(env)
    ensures ScheduleIndependent(env, a) <==> Agree(a)
  {
    if Agree(a) {
      forall acts, acts', files, files', name | Returns(env, a, acts, files) && Returns(env, a, acts', files')
        ensures FindFile(files, name) == FindFile(files', name)
      {
        var data := ReturnsPublished(env, a, acts, files);
        var data' := ReturnsPublished(env, a, acts', files');
        LookupIsServe(env, a, data, files, name);
        LookupIsServe(env, a, data', files', name);
      }
    } else {
      var one, files, other, files', name := Disagree(env, a);
    }
  }
}
