/** What the queue guarantees when checking and claiming a key is one step, and what it does not. */
module Burst {
  import opened Types
  import opened Tasks
  import opened DedupQueue

  predicate Atomic<R>(acts: seq<Action<R>>) {
    forall i :: 0 <= i < |acts| ==> !acts[i].Read? && !acts[i].Claim?
  }

  predicate OfKey(e: Event, k: string) {
    DedupingKey(e.task) == k
  }

  /** A run of key `k` ended in failure somewhere after position `i` of the log. */
  ghost predicate FailedAfter(log: seq<Event>, k: string, i: nat) {
    exists m :: i < m < |log| && log[m].RunFailed? && OfKey(log[m], k)
  }

  predicate SuccessOf(log: seq<Event>, i: nat, k: string) {
    i < |log| && log[i].Succeeded? && OfKey(log[i], k)
  }

  ghost predicate OneRunnerPerKey<R>(q: Queue<R>) {
    forall v, w :: 0 <= v < w < |q.workers| && q.workers[v].Running? && q.workers[w].Running? ==>
                     Key(q.workers[v]) != Key(q.workers[w])
  }

  /** At most one worker runs a key, and exactly then the table says so, with the time of the claim. */
  ghost predicate Exclusive<R>(q: Queue<R>) {
    && (forall w :: 0 <= w < |q.workers| ==> !q.workers[w].Cleared?)
    && OneRunnerPerKey(q)
    && (forall w :: 0 <= w < |q.workers| && q.workers[w].Running? ==>
                      var k := Key(q.workers[w]);
                      k in q.dedup && q.dedup[k].running && q.dedup[k].posted <= q.workers[w].since)
  }

  /** A success is remembered in the table until a run of its key fails. */
  ghost predicate Remembered<R>(q: Queue<R>) {
    forall i: nat, k :: SuccessOf(q.log, i, k) && !FailedAfter(q.log, k, i) ==>
                     k in q.dedup && q.dedup[k].posted >= q.log[i].finish
  }

  /** Who runs a key was posted no earlier than its successes so far, unless a failure came in between. */
  ghost predicate RunsAreNewer<R>(q: Queue<R>) {
    forall i: nat, w :: 0 <= w < |q.workers| && q.workers[w].Running? && SuccessOf(q.log, i, Key(q.workers[w])) ==>
                     q.workers[w].posted >= q.log[i].finish || FailedAfter(q.log, Key(q.workers[w]), i)
  }

  ghost predicate SuccessesAreNewer(log: seq<Event>) {
    forall i: nat, j: nat, k :: i < j && SuccessOf(log, i, k) && SuccessOf(log, j, k) ==>
                        log[j].posted >= log[i].finish || FailedBetween(log, k, i, j)
  }

  ghost predicate FailedBetween(log: seq<Event>, k: string, i: nat, j: nat) {
    exists m :: i < m < j < |log| && log[m].RunFailed? && OfKey(log[m], k)
  }

  ghost predicate AtomicInv<R>(q: Queue<R>) {
    && QueueInv(q) && Exclusive(q) && Remembered(q) && RunsAreNewer(q) && SuccessesAreNewer(q.log)
  }

  /** A job that is not skipped finds its key unclaimed. */
  lemma BeginExclusive<R>(q: Queue<R>, w: nat, at: int, start: R)
    requires Exclusive(q) && w < |q.workers| && q.workers[w].Taken? && at >= q.clock
    requires !Skips(q.dedup, q.workers[w].task, q.workers[w].posted)
    ensures Exclusive(Begin(q, w, at, at, start))
  {
    var q' := Begin(q, w, at, at, start);
    forall v | 0 <= v < |q.workers| && v != w && q.workers[v].Running?
      ensures Key(q.workers[v]) != Key(q.workers[w])
    {
    }
    assert forall v :: 0 <= v < |q.workers| && v != w ==> q'.workers[v] == q.workers[v];
  }

  lemma EndExclusive<R>(q: Queue<R>, a: Action<R>)
    requires Exclusive(q) && Enabled(q, a) && (a.Succeed? || a.Fail?)
    ensures Exclusive(Next(q, a))
  {
    var q' := Next(q, a);
    assert forall v :: 0 <= v < |q.workers| && v != a.w ==> q'.workers[v] == q.workers[v];
    assert forall v :: 0 <= v < |q.workers| && v != a.w && q.workers[v].Running? ==>
             Key(q.workers[v]) != Key(q.workers[a.w]);
  }

  lemma ExclusiveStep<R>(q: Queue<R>, a: Action<R>)
    requires Exclusive(q) && Enabled(q, a) && !a.Read? && !a.Claim?
    ensures Exclusive(Next(q, a))
  {
    if a.Decide? && !Skips(q.dedup, q.workers[a.w].task, q.workers[a.w].posted) {
      BeginExclusive(q, a.w, a.at, a.start);
    } else if a.Succeed? || a.Fail? {
      EndExclusive(q, a);
    } else if !a.Post? {
      var q' := Next(q, a);
      assert forall v :: 0 <= v < |q.workers| && v != a.w ==> q'.workers[v] == q.workers[v];
    }
  }

  lemma LogGrows<R>(q: Queue<R>, a: Action<R>)
    requires Enabled(q, a)
    ensures q.log <= Next(q, a).log
    ensures forall i: nat, k :: FailedAfter(q.log, k, i) ==> FailedAfter(Next(q, a).log, k, i)
    ensures forall i: nat, j: nat, k :: FailedBetween(q.log, k, i, j) ==> FailedBetween(Next(q, a).log, k, i, j)
  {
    var log, log' := q.log, Next(q, a).log;
    assert forall m :: 0 <= m < |log| ==> log'[m] == log[m];
    forall i: nat, k | FailedAfter(log, k, i)
      ensures FailedAfter(log', k, i)
    {
      var m :| i < m < |log| && log[m].RunFailed? && OfKey(log[m], k);
      assert log'[m] == log[m];
    }
    forall i: nat, j: nat, k | FailedBetween(log, k, i, j)
      ensures FailedBetween(log', k, i, j)
    {
      var m :| i < m < j < |log| && log[m].RunFailed? && OfKey(log[m], k);
      assert log'[m] == log[m];
    }
  }

  lemma RememberedStep<R>(q: Queue<R>, a: Action<R>)
    requires Times(q) && Exclusive(q) && Remembered(q) && Enabled(q, a) && !a.Read? && !a.Claim?
    ensures Remembered(Next(q, a))
  {
    var q' := Next(q, a);
    LogGrows(q, a);
    forall i: nat, k | SuccessOf(q'.log, i, k) && !FailedAfter(q'.log, k, i)
      ensures k in q'.dedup && q'.dedup[k].posted >= q'.log[i].finish
    {
      if i < |q.log| {
        assert SuccessOf(q.log, i, k) && !FailedAfter(q.log, k, i);
        assert q.dedup[k].posted <= q.clock;
        if a.Fail? {
          assert q'.log[|q.log|].RunFailed?;
        }
      }
    }
  }

  /** Who runs after a step was running before it, or has just been let through. */
  lemma WhoRuns<R>(q: Queue<R>, a: Action<R>, w: nat)
    requires Enabled(q, a) && !a.Claim? && w < |Next(q, a).workers| && Next(q, a).workers[w].Running?
    ensures w < |q.workers| && !q.workers[w].Idle? && Key(q.workers[w]) == Key(Next(q, a).workers[w])
    ensures q.workers[w].posted == Next(q, a).workers[w].posted
    ensures q.workers[w].Running? || !Skips(q.dedup, q.workers[w].task, q.workers[w].posted)
  {
  }

  /** A step that leaves a worker running does not end another run of its key. */
  lemma NoNewSuccess<R>(q: Queue<R>, a: Action<R>, w: nat, i: nat)
    requires Exclusive(q) && Enabled(q, a) && !a.Claim? && w < |Next(q, a).workers| && Next(q, a).workers[w].Running?
    requires SuccessOf(Next(q, a).log, i, Key(Next(q, a).workers[w]))
    ensures SuccessOf(q.log, i, Key(Next(q, a).workers[w])) && Next(q, a).log[i] == q.log[i]
  {
  }

  lemma RunsAreNewerStep<R>(q: Queue<R>, a: Action<R>)
    requires Exclusive(q) && Remembered(q) && RunsAreNewer(q) && Enabled(q, a) && !a.Claim?
    ensures RunsAreNewer(Next(q, a))
  {
    var q' := Next(q, a);
    LogGrows(q, a);
    forall i: nat, w | 0 <= w < |q'.workers| && q'.workers[w].Running? && SuccessOf(q'.log, i, Key(q'.workers[w]))
      ensures q'.workers[w].posted >= q'.log[i].finish || FailedAfter(q'.log, Key(q'.workers[w]), i)
    {
      WhoRuns(q, a, w);
      var k := Key(q.workers[w]);
      NoNewSuccess(q, a, w, i);
      RunnerIsNewer(q, w, i, k);
    }
  }

  lemma RunnerIsNewer<R>(q: Queue<R>, w: nat, i: nat, k: string)
    requires Remembered(q) && RunsAreNewer(q) && w < |q.workers| && !q.workers[w].Idle? && k == Key(q.workers[w])
    requires q.workers[w].Running? || !Skips(q.dedup, q.workers[w].task, q.workers[w].posted)
    ensures SuccessOf(q.log, i, k) ==> q.workers[w].posted >= q.log[i].finish || FailedAfter(q.log, k, i)
  {
    if SuccessOf(q.log, i, k) && !q.workers[w].Running? && !FailedAfter(q.log, k, i) {
      assert q.dedup[k].posted >= q.log[i].finish;
    }
  }

  lemma SuccessesStep<R>(q: Queue<R>, a: Action<R>)
    requires RunsAreNewer(q) && SuccessesAreNewer(q.log) && Enabled(q, a)
    ensures SuccessesAreNewer(Next(q, a).log)
  {
    var log, log' := q.log, Next(q, a).log;
    LogGrows(q, a);
    assert |log'| <= |log| + 1;
    forall i: nat, j: nat, k | i < j && SuccessOf(log', i, k) && SuccessOf(log', j, k)
      ensures log'[j].posted >= log'[i].finish || FailedBetween(log', k, i, j)
    {
      assert SuccessOf(log, i, k);
      if j < |log| {
        assert SuccessOf(log, j, k);
      } else {
        assert a.Succeed? && Key(q.workers[a.w]) == k;
        if FailedAfter(log, k, i) {
          var m :| i < m < |log| && log[m].RunFailed? && OfKey(log[m], k);
          assert log'[m] == log[m];
        }
      }
    }
  }

  lemma AtomicStep<R>(q: Queue<R>, a: Action<R>)
    requires AtomicInv(q) && Enabled(q, a) && !a.Read? && !a.Claim?
    ensures AtomicInv(Next(q, a))
  {
    QueueStep(q, a);
    ExclusiveStep(q, a);
    RememberedStep(q, a);
    RunsAreNewerStep(q, a);
    SuccessesStep(q, a);
  }

  lemma {:induction false} AtomicRun<R>(q: Queue<R>, acts: seq<Action<R>>)
    requires AtomicInv(q) && Atomic(acts) && Run(q, acts).Some?
    ensures AtomicInv(Run(q, acts).value)
    decreases acts
  {
    if acts != [] {
      AtomicStep(q, acts[0]);
      AtomicRun(Next(q, acts[0]), acts[1..]);
    }
  }

  lemma AtomicReach<R>(name: QName, n: nat, clock: int, acts: seq<Action<R>>)
    requires Atomic(acts) && Run(InitialQueue(name, n, clock), acts).Some?
    ensures AtomicInv(Run(InitialQueue(name, n, clock), acts).value)
  {
    InitialQueueInv<R>(name, n, clock);
    AtomicRun(InitialQueue(name, n, clock), acts);
  }

  /** One runner per key, and every success after an earlier one comes from a job posted no earlier than the earlier
      success's finish, unless a run of the key failed in between and made the table forget it. */
  lemma SuccessiveRunsAreNewer<R>(name: QName, n: nat, clock: int, acts: seq<Action<R>>)
    requires Atomic(acts) && Run(InitialQueue(name, n, clock), acts).Some?
    ensures var q := Run(InitialQueue(name, n, clock), acts).value;
            && OneRunnerPerKey(q)
            && (forall i: nat, j: nat, k :: i < j && SuccessOf(q.log, i, k) && SuccessOf(q.log, j, k) ==>
                                    q.log[j].posted >= q.log[i].finish || FailedBetween(q.log, k, i, j))
  {
    AtomicReach(name, n, clock, acts);
  }

  // ---------------------------------------------------------------- when a job runs

  /** A success of key `k` at time `t` that no failure of the key has followed. */
  ghost predicate StandingSuccess(log: seq<Event>, k: string, t: int) {
    exists i: nat :: StandsAt(log, k, i) && log[i].finish == t
  }

  ghost predicate StandsAt(log: seq<Event>, k: string, i: nat) {
    SuccessOf(log, i, k) && !FailedAfter(log, k, i)
  }

  /** A finished mark carries the time of a success that no failure has followed. */
  ghost predicate MarksStand<R>(q: Queue<R>) {
    forall k :: k in q.dedup && !q.dedup[k].running ==> StandingSuccess(q.log, k, q.dedup[k].posted)
  }

  lemma MarksStandStep<R>(q: Queue<R>, a: Action<R>)
    requires Exclusive(q) && MarksStand(q) && Enabled(q, a) && !a.Claim?
    ensures MarksStand(Next(q, a))
  {
    var q' := Next(q, a);
    forall k | k in q'.dedup && !q'.dedup[k].running
      ensures StandingSuccess(q'.log, k, q'.dedup[k].posted)
    {
      if a.Succeed? && Key(q.workers[a.w]) == k {
        assert StandsAt(q'.log, k, |q.log|);
      } else {
        var i: nat :| StandsAt(q.log, k, i) && q.log[i].finish == q.dedup[k].posted;
        StandsOn(q, a, k, i);
      }
    }
  }

  /** Only a failure of the key makes the table forget a success. */
  lemma StandsOn<R>(q: Queue<R>, a: Action<R>, k: string, i: nat)
    requires Enabled(q, a) && StandsAt(q.log, k, i) && !(a.Fail? && Key(q.workers[a.w]) == k)
    ensures StandsAt(Next(q, a).log, k, i) && Next(q, a).log[i] == q.log[i]
  {
    assert forall m :: 0 <= m < |q.log| ==> Next(q, a).log[m] == q.log[m];
  }

  lemma {:induction false} MarksStandRun<R>(q: Queue<R>, acts: seq<Action<R>>)
    requires AtomicInv(q) && MarksStand(q) && Atomic(acts) && Run(q, acts).Some?
    ensures MarksStand(Run(q, acts).value)
    decreases acts
  {
    if acts != [] {
      MarksStandStep(q, acts[0]);
      AtomicStep(q, acts[0]);
      MarksStandRun(Next(q, acts[0]), acts[1..]);
    }
  }

  /** A job is skipped exactly when its key is being run, or has succeeded after the job was posted and not failed
      since. */
  lemma SkipsIff<R>(name: QName, n: nat, clock: int, acts: seq<Action<R>>, task: Task, posted: int)
    requires Atomic(acts) && Run(InitialQueue(name, n, clock), acts).Some?
    ensures var q := Run(InitialQueue(name, n, clock), acts).value;
            var k := DedupingKey(task);
            Skips(q.dedup, task, posted) <==> Busy(q, k) || exists t :: t > posted && StandingSuccess(q.log, k, t)
  {
    AtomicReach(name, n, clock, acts);
    InitialQueueInv<R>(name, n, clock);
    MarksStandRun(InitialQueue(name, n, clock), acts);
    var q := Run(InitialQueue(name, n, clock), acts).value;
    var k := DedupingKey(task);
    if t :| t > posted && StandingSuccess(q.log, k, t) {
      var i: nat :| StandsAt(q.log, k, i) && q.log[i].finish == t;
      assert q.dedup[k].posted >= t;
    }
  }

  /** When an older job runs: the next job of a key to be looked at, however old, is run exactly when nobody runs the
      key and every success that finished after the job was posted has been followed by a failure of the key. */
  lemma OlderJobRunsIff<R>(name: QName, n: nat, clock: int, acts: seq<Action<R>>, w: nat, at: int, start: R)
    requires Atomic(acts) && Run(InitialQueue(name, n, clock), acts).Some?
    requires Enabled(Run(InitialQueue(name, n, clock), acts).value, Decide(w, at, start))
    ensures var q := Run(InitialQueue(name, n, clock), acts).value;
            var (k, posted) := (Key(q.workers[w]), q.workers[w].posted);
            Next(q, Decide(w, at, start)).workers[w].Running? <==>
              && !Busy(q, k)
              && forall i: nat :: SuccessOf(q.log, i, k) && q.log[i].finish > posted ==> FailedAfter(q.log, k, i)
  {
    var q := Run(InitialQueue(name, n, clock), acts).value;
    var (k, posted) := (Key(q.workers[w]), q.workers[w].posted);
    SkipsIff(name, n, clock, acts, q.workers[w].task, posted);
    if i: nat :| SuccessOf(q.log, i, k) && q.log[i].finish > posted && !FailedAfter(q.log, k, i) {
      assert StandsAt(q.log, k, i) && StandingSuccess(q.log, k, q.log[i].finish);
    }
  }

  // ---------------------------------------------------------------- a burst

  /** Every job of key `k` posted so far was posted before `t`. */
  ghost predicate PostedBefore(log: seq<Event>, k: string, t: int) {
    forall i :: 0 <= i < |log| && log[i].Posted? && OfKey(log[i], k) ==> log[i].posted < t
  }

  /** Jobs in the system were posted at the time they carry. */
  ghost predicate AllPosted<R>(q: Queue<R>) {
    && (forall i :: 0 <= i < |q.pending| && ParseJob(q.name, q.pending[i].job).Some? ==>
                      PostOf(q.log, DedupingKey(ParseJob(q.name, q.pending[i].job).value), q.pending[i].posted))
    && (forall w :: 0 <= w < |q.workers| && !q.workers[w].Idle? ==>
                      PostOf(q.log, Key(q.workers[w]), q.workers[w].posted))
  }

  ghost predicate PostOf(log: seq<Event>, k: string, t: int) {
    exists i :: 0 <= i < |log| && log[i].Posted? && OfKey(log[i], k) && log[i].posted == t
  }

  /** When all jobs of a key came before its success at `i`, nothing of that key runs from then on. */
  ghost predicate Settled<R>(q: Queue<R>) {
    forall i: nat, k :: SuccessOf(q.log, i, k) && PostedBefore(q.log, k, q.log[i].finish) ==>
                     !FailedAfter(q.log, k, i) && !Busy(q, k) && forall j: nat :: i < j ==> !SuccessOf(q.log, j, k)
  }

  ghost predicate BurstInv<R>(q: Queue<R>) {
    AtomicInv(q) && AllPosted(q) && Settled(q)
  }

  lemma PostOfGrows(log: seq<Event>, log': seq<Event>)
    requires log <= log'
    ensures forall k, t :: PostOf(log, k, t) ==> PostOf(log', k, t)
  {
    forall k, t | PostOf(log, k, t)
      ensures PostOf(log', k, t)
    {
      var i :| 0 <= i < |log| && log[i].Posted? && OfKey(log[i], k) && log[i].posted == t;
      assert log'[i] == log[i];
    }
  }

  lemma AllPostedPost<R>(q: Queue<R>, task: Task, when: When)
    requires AllPosted(q) && Enabled(q, Action.Post(task, when))
    ensures AllPosted(Next(q, Action.Post(task, when)))
  {
    var q' := Next(q, Action.Post(task, when));
    PostOfGrows(q.log, q'.log);
    JobRoundTrip(task);
    var e := q'.log[|q.log|];
    assert e.Posted? && OfKey(e, DedupingKey(task)) && e.posted == when.read;
    assert PostOf(q'.log, DedupingKey(task), when.read);
  }

  lemma AllPostedStep<R>(q: Queue<R>, a: Action<R>)
    requires AllPosted(q) && Enabled(q, a)
    ensures AllPosted(Next(q, a))
  {
    if a.Post? {
      AllPostedPost(q, a.task, a.when);
    } else {
      LogGrows(q, a);
      PostOfGrows(q.log, Next(q, a).log);
    }
  }

  lemma OldSuccess<R>(q: Queue<R>, a: Action<R>, i: nat, k: string)
    requires Enabled(q, a) && i < |q.log| && SuccessOf(Next(q, a).log, i, k)
    requires PostedBefore(Next(q, a).log, k, Next(q, a).log[i].finish)
    ensures SuccessOf(q.log, i, k) && PostedBefore(q.log, k, q.log[i].finish)
  {
    assert forall m :: 0 <= m < |q.log| ==> Next(q, a).log[m] == q.log[m];
  }

  /** A success that has just happened was the only run of its key. */
  lemma NewSuccess<R>(q: Queue<R>, a: Action<R>, i: nat, k: string)
    requires Exclusive(q) && Enabled(q, a) && i >= |q.log| && SuccessOf(Next(q, a).log, i, k)
    ensures var q' := Next(q, a);
            !FailedAfter(q'.log, k, i) && !Busy(q', k) && forall j: nat :: i < j ==> !SuccessOf(q'.log, j, k)
  {
    assert a.Succeed? && q.workers[a.w].Running? && Key(q.workers[a.w]) == k;
  }

  lemma SettledStep<R>(q: Queue<R>, a: Action<R>)
    requires BurstInv(q) && Enabled(q, a) && !a.Read? && !a.Claim?
    ensures Settled(Next(q, a))
  {
    var q' := Next(q, a);
    forall i: nat, k | SuccessOf(q'.log, i, k) && PostedBefore(q'.log, k, q'.log[i].finish)
      ensures !FailedAfter(q'.log, k, i) && !Busy(q', k) && forall j: nat :: i < j ==> !SuccessOf(q'.log, j, k)
    {
      if i < |q.log| {
        OldSuccess(q, a, i, k);
        SettledKey(q, a, i, k);
      } else {
        NewSuccess(q, a, i, k);
      }
    }
  }

  /** One step after the success at `i`: a job of key `k` cannot start, so it cannot end either. */
  lemma SettledKey<R>(q: Queue<R>, a: Action<R>, i: nat, k: string)
    requires BurstInv(q) && Enabled(q, a) && !a.Read? && !a.Claim?
    requires SuccessOf(q.log, i, k) && PostedBefore(q.log, k, q.log[i].finish)
    ensures var q' := Next(q, a);
            !FailedAfter(q'.log, k, i) && !Busy(q', k) && forall j: nat :: i < j ==> !SuccessOf(q'.log, j, k)
  {
    assert !FailedAfter(q.log, k, i) && !Busy(q, k);
    NoKeyStarts(q, a, i, k);
    StaysSettled(q, a, i, k);
  }

  lemma NoKeyStarts<R>(q: Queue<R>, a: Action<R>, i: nat, k: string)
    requires Remembered(q) && AllPosted(q) && Enabled(q, a) && !a.Claim? && !FailedAfter(q.log, k, i) && !Busy(q, k)
    requires SuccessOf(q.log, i, k) && PostedBefore(q.log, k, q.log[i].finish)
    ensures !Busy(Next(q, a), k)
  {
    var q' := Next(q, a);
    if a.Decide? && Key(q.workers[a.w]) == k {
      assert PostOf(q.log, k, q.workers[a.w].posted);
      assert q.dedup[k].posted >= q.log[i].finish;
    }
    forall w | 0 <= w < |q'.workers| && q'.workers[w].Running?
      ensures Key(q'.workers[w]) != k
    {
      if q.workers[w].Running? {
        assert Key(q.workers[w]) == Key(q'.workers[w]);
      }
    }
  }

  /** Nothing of the key is running, so the step adds no success or failure of it. */
  lemma StaysSettled<R>(q: Queue<R>, a: Action<R>, i: nat, k: string)
    requires Enabled(q, a) && !FailedAfter(q.log, k, i) && !Busy(q, k)
    requires i < |q.log| && forall j: nat :: i < j ==> !SuccessOf(q.log, j, k)
    ensures var log := Next(q, a).log; !FailedAfter(log, k, i) && forall j: nat :: i < j ==> !SuccessOf(log, j, k)
  {
    var log := Next(q, a).log;
    assert |log| <= |q.log| + 1;
    assert forall m :: 0 <= m < |q.log| ==> log[m] == q.log[m];
    assert forall j: nat :: j < |q.log| ==> SuccessOf(log, j, k) == SuccessOf(q.log, j, k);
    if a.Succeed? || a.Fail? {
      assert Key(q.workers[a.w]) != k;
    }
  }

  lemma {:induction false} BurstRun<R>(q: Queue<R>, acts: seq<Action<R>>)
    requires BurstInv(q) && Atomic(acts) && Run(q, acts).Some?
    ensures BurstInv(Run(q, acts).value)
    decreases acts
  {
    if acts != [] {
      AtomicStep(q, acts[0]);
      AllPostedStep(q, acts[0]);
      SettledStep(q, acts[0]);
      BurstRun(Next(q, acts[0]), acts[1..]);
    }
  }

  /** A burst yields one success: when every job of a key was posted before its first success finished, that success
      is the only one, and from then on no job of the key runs or fails. */
  lemma BurstYieldsOneSuccess<R>(name: QName, n: nat, clock: int, acts: seq<Action<R>>, i: nat, k: string)
    requires Atomic(acts) && Run(InitialQueue(name, n, clock), acts).Some?
    requires var q := Run(InitialQueue(name, n, clock), acts).value;
             && SuccessOf(q.log, i, k) && (forall h: nat :: h < i ==> !SuccessOf(q.log, h, k))
             && PostedBefore(q.log, k, q.log[i].finish)
    ensures var q := Run(InitialQueue(name, n, clock), acts).value;
            (forall j: nat :: SuccessOf(q.log, j, k) <==> j == i) && !FailedAfter(q.log, k, i) && !Busy(q, k)
  {
    InitialQueueInv<R>(name, n, clock);
    BurstRun(InitialQueue(name, n, clock), acts);
  }

  // ---------------------------------------------------------------- a burst in the queue of the source

  /** How many runs of key `k` have begun. */
  function Starts(log: seq<Event>, k: string): nat {
    if log == [] then 0
    else Starts(log[..|log| - 1], k) + if log[|log| - 1].Started? && OfKey(log[|log| - 1], k) then 1 else 0
  }

  /** How many of the first `m` workers have been let through with a job of key `k` and not claimed it yet. */
  function ClearedOf<R>(workers: seq<Worker<R>>, k: string, m: nat): (c: nat)
    requires m <= |workers|
    ensures c <= m
  {
    if m == 0 then 0
    else ClearedOf(workers, k, m - 1) + if workers[m - 1].Cleared? && Key(workers[m - 1]) == k then 1 else 0
  }

  lemma {:induction false} ClearedUpdate<R>(workers: seq<Worker<R>>, w: nat, worker: Worker<R>, k: string, m: nat)
    requires w < |workers| && m <= |workers|
    ensures ClearedOf(workers[w := worker], k, m) ==
            ClearedOf(workers, k, m)
            + (if w < m && worker.Cleared? && Key(worker) == k then 1 else 0)
            - (if w < m && workers[w].Cleared? && Key(workers[w]) == k then 1 else 0)
  {
    if m > 0 {
      ClearedUpdate(workers, w, worker, k, m - 1);
    }
  }

  /** Whoever runs a key has begun to. */
  ghost predicate RunsBegan<R>(q: Queue<R>) {
    forall w :: 0 <= w < |q.workers| && q.workers[w].Running? ==> Starts(q.log, Key(q.workers[w])) > 0
  }

  /** Key `k` was first claimed at `t`: since then the table skips every job of it that is older than `t`. */
  ghost predicate KeyHeld<R>(q: Queue<R>, k: string, t: int) {
    && q.clock >= t && k in q.dedup && (q.dedup[k].running || q.dedup[k].posted >= t)
    && forall w :: 0 <= w < |q.workers| && q.workers[w].Running? && Key(q.workers[w]) == k ==> q.workers[w].since >= t
  }

  /** Every run of the key that can still begin belongs to a worker that was let through before. */
  ghost predicate BurstBound<R>(q: Queue<R>, k: string, t: int, n: nat) {
    AllPosted(q) && KeyHeld(q, k, t) && |q.workers| == n && Starts(q.log, k) + ClearedOf(q.workers, k, n) <= n
  }

  /** No run of key `k` has failed and every job of it was posted before `t`. */
  ghost predicate CleanBurst(log: seq<Event>, k: string, t: int) {
    PostedBefore(log, k, t) && forall i :: 0 <= i < |log| && OfKey(log[i], k) ==> !log[i].RunFailed?
  }

  lemma CleanBefore(log: seq<Event>, log': seq<Event>, k: string, t: int)
    requires log <= log' && CleanBurst(log', k, t)
    ensures CleanBurst(log, k, t)
  {
    assert forall i :: 0 <= i < |log| ==> log[i] == log'[i];
  }

  /** A step adds at most one event. */
  lemma LogStep<R>(q: Queue<R>, a: Action<R>)
    requires Enabled(q, a)
    ensures Next(q, a).log == q.log
            || (|Next(q, a).log| > |q.log| && Next(q, a).log == q.log + [Next(q, a).log[|q.log|]])
  {
  }

  lemma StartsSnoc(log: seq<Event>, e: Event, k: string)
    ensures Starts(log + [e], k) == Starts(log, k) + if e.Started? && OfKey(e, k) then 1 else 0
  {
    assert (log + [e])[..|log|] == log;
  }

  lemma StartsStep<R>(q: Queue<R>, a: Action<R>, k: string)
    requires Enabled(q, a)
    ensures Starts(Next(q, a).log, k) ==
            Starts(q.log, k) + if |Next(q, a).log| > |q.log| && Next(q, a).log[|q.log|].Started?
                                  && OfKey(Next(q, a).log[|q.log|], k) then 1 else 0
  {
    var log' := Next(q, a).log;
    LogStep(q, a);
    if log' != q.log {
      StartsSnoc(q.log, log'[|q.log|], k);
    }
  }

  lemma RunsBeganStep<R>(q: Queue<R>, a: Action<R>)
    requires RunsBegan(q) && Enabled(q, a)
    ensures RunsBegan(Next(q, a))
  {
    var q' := Next(q, a);
    forall w | 0 <= w < |q'.workers| && q'.workers[w].Running?
      ensures Starts(q'.log, Key(q'.workers[w])) > 0
    {
      StartsStep(q, a, Key(q'.workers[w]));
    }
  }

  lemma {:induction false} BeganRun<R>(q: Queue<R>, acts: seq<Action<R>>)
    requires RunsBegan(q) && AllPosted(q) && Run(q, acts).Some?
    ensures var last := Run(q, acts).value; RunsBegan(last) && AllPosted(last) && |last.workers| == |q.workers|
    decreases acts
  {
    if acts != [] {
      RunsBeganStep(q, acts[0]);
      AllPostedStep(q, acts[0]);
      BeganRun(Next(q, acts[0]), acts[1..]);
    }
  }

  lemma KeyHeldStep<R>(q: Queue<R>, a: Action<R>, k: string, t: int)
    requires KeyHeld(q, k, t) && Enabled(q, a) && CleanBurst(Next(q, a).log, k, t)
    ensures KeyHeld(Next(q, a), k, t)
  {
    if a.Fail? {
      assert OfKey(Next(q, a).log[|q.log|], Key(q.workers[a.w]));
    }
  }

  /** A job of the key that is looked at now is skipped. */
  lemma KeyHeldSkips<R>(q: Queue<R>, k: string, t: int, w: nat)
    requires KeyHeld(q, k, t) && AllPosted(q) && PostedBefore(q.log, k, t)
    requires w < |q.workers| && !q.workers[w].Idle? && Key(q.workers[w]) == k
    ensures Skips(q.dedup, q.workers[w].task, q.workers[w].posted)
  {
    assert PostOf(q.log, k, q.workers[w].posted);
  }

  lemma BoundStep<R>(q: Queue<R>, a: Action<R>, k: string, t: int, n: nat)
    requires BurstBound(q, k, t, n) && Enabled(q, a) && CleanBurst(Next(q, a).log, k, t)
    ensures BurstBound(Next(q, a), k, t, n)
  {
    var q' := Next(q, a);
    LogGrows(q, a);
    CleanBefore(q.log, q'.log, k, t);
    AllPostedStep(q, a);
    KeyHeldStep(q, a, k, t);
    StartsStep(q, a, k);
    if (a.Read? || a.Decide?) && Key(q.workers[a.w]) == k {
      KeyHeldSkips(q, k, t, a.w);
    }
    if !a.Post? && q'.workers != q.workers {
      ClearedUpdate(q.workers, a.w, q'.workers[a.w], k, n);
    }
  }

  lemma LogGrowsRun<R>(q: Queue<R>, acts: seq<Action<R>>)
    requires Run(q, acts).Some?
    ensures q.log <= Run(q, acts).value.log
    decreases acts
  {
    if acts != [] {
      LogGrows(q, acts[0]);
      LogGrowsRun(Next(q, acts[0]), acts[1..]);
    }
  }

  lemma {:induction false} BoundRun<R>(q: Queue<R>, acts: seq<Action<R>>, k: string, t: int, n: nat)
    requires BurstBound(q, k, t, n) && Run(q, acts).Some? && CleanBurst(Run(q, acts).value.log, k, t)
    ensures BurstBound(Run(q, acts).value, k, t, n)
    decreases acts
  {
    if acts != [] {
      var q' := Next(q, acts[0]);
      LogGrowsRun(q', acts[1..]);
      CleanBefore(q'.log, Run(q', acts[1..]).value.log, k, t);
      BoundStep(q, acts[0], k, t, n);
      BoundRun(q', acts[1..], k, t, n);
    }
  }

  lemma FirstClaim<R>(q: Queue<R>, c: Action<R>, k: string, n: nat)
    requires AllPosted(q) && RunsBegan(q) && |q.workers| == n && Starts(q.log, k) == 0
    requires c.Claim? && Enabled(q, c) && Key(q.workers[c.w]) == k
    ensures BurstBound(Next(q, c), k, c.at, n)
  {
    AllPostedStep(q, c);
    StartsStep(q, c, k);
    ClearedUpdate(q.workers, c.w, Next(q, c).workers[c.w], k, n);
  }

  /** A burst in the queue of the source: when no run of a key fails and all its jobs were posted before the key was
      first claimed, `n` workers run it at most `n` times, whatever they do in between their reads and their claims. */
  lemma BurstRunsAtMostWorkers<R>(name: QName, n: nat, clock: int, past: seq<Action<R>>, first: Action<R>,
                                  since: seq<Action<R>>, k: string)
    requires Run(InitialQueue(name, n, clock), past).Some?
    requires var q := Run(InitialQueue(name, n, clock), past).value;
             && Starts(q.log, k) == 0 && first.Claim? && Enabled(q, first) && Key(q.workers[first.w]) == k
             && Run(Next(q, first), since).Some? && CleanBurst(Run(Next(q, first), since).value.log, k, first.at)
    ensures var q := Run(InitialQueue(name, n, clock), past).value;
            Starts(Run(Next(q, first), since).value.log, k) <= n
  {
    BeganRun(InitialQueue<R>(name, n, clock), past);
    var q := Run(InitialQueue(name, n, clock), past).value;
    FirstClaim(q, first, k, n);
    BoundRun(Next(q, first), since, k, first.at, n);
  }

  // ---------------------------------------------------------------- what does not hold

  /** Put one step in front of a schedule. */
  lemma Before<R>(q: Queue<R>, a: Action<R>, rest: seq<Action<R>>, last: Queue<R>) returns (acts: seq<Action<R>>)
    requires Enabled(q, a) && Run(Next(q, a), rest) == Some(last)
    ensures acts == [a] + rest && Run(q, acts) == Some(last)
  {
    acts := [a] + rest;
    assert acts[1..] == rest;
  }

  function Idles(n: nat): (workers: seq<Worker<()>>)
    ensures |workers| == n
  {
    seq(n, _ => Idle)
  }

  /** Two jobs of one key have been posted at 1 and taken by the first two of `n` workers at 2. */
  function TwoTaken(t: Task, n: nat): Queue<()>
    requires n >= 2
  {
    Queue(QueueOf(t), [], map[], Idles(n)[0 := Taken(1, t, 2)][1 := Taken(1, t, 2)], 2, [Posted(t, 1), Posted(t, 1)])
  }

  /** The two jobs before they are taken. */
  function TwoPosted(t: Task, n: nat): Queue<()> {
    Queue(QueueOf(t), [Msg(1, Job(t)), Msg(1, Job(t))], map[], Idles(n), 1, [Posted(t, 1), Posted(t, 1)])
  }

  lemma FromTwoPosted(t: Task, n: nat, rest: seq<Action<()>>, last: Queue<()>) returns (acts: seq<Action<()>>)
    requires Run(TwoPosted(t, n), rest) == Some(last)
    ensures Run(InitialQueue<()>(QueueOf(t), n, 0), acts) == Some(last) && (Atomic(rest) ==> Atomic(acts))
  {
    var q := InitialQueue<()>(QueueOf(t), n, 0);
    assert q.workers == Idles(n);
    var q1 := Next(q, Post(t, When(1, 1)));
    assert Next(q1, Post(t, When(1, 1))) == TwoPosted(t, n);
    acts := Before(q1, Post(t, When(1, 1)), rest, last);
    acts := Before(q, Post(t, When(1, 1)), acts, last);
  }

  /** A schedule from there is one from the start. */
  lemma FromTwoTaken(t: Task, n: nat, rest: seq<Action<()>>, last: Queue<()>) returns (acts: seq<Action<()>>)
    requires n >= 2 && ParseJob(QueueOf(t), Job(t)) == Some(t) && Run(TwoTaken(t, n), rest) == Some(last)
    ensures Run(InitialQueue<()>(QueueOf(t), n, 0), acts) == Some(last) && (Atomic(rest) ==> Atomic(acts))
  {
    var q := TwoPosted(t, n);
    var q1 := Next(q, Take(0, 0, 2));
    assert q1 == q.(pending := [Msg(1, Job(t))], workers := Idles(n)[0 := Taken(1, t, 2)], clock := 2);
    assert Next(q1, Take(1, 0, 2)) == TwoTaken(t, n);
    acts := Before(q1, Take(1, 0, 2), rest, last);
    acts := Before(q, Take(0, 0, 2), acts, last);
    acts := FromTwoPosted(t, n, acts, last);
  }

  /** With reading and claiming as separate steps two of any number of workers can run one key at the same time. */
  lemma NoMutualExclusion(t: Task, n: nat) returns (acts: seq<Action<()>>)
    requires n >= 2 && ParseJob(QueueOf(t), Job(t)) == Some(t)
    ensures var q := Run(InitialQueue<()>(QueueOf(t), n, 0), acts);
            && q.Some? && |q.value.workers| == n && q.value.workers[0].Running? && q.value.workers[1].Running?
            && Key(q.value.workers[0]) == Key(q.value.workers[1])
  {
    var q4 := TwoTaken(t, n);
    var q5 := Next(q4, Read(0, 3));
    var q6 := Next(q5, Read(1, 3));
    var q7 := Next(q6, Claim(0, 4, 4, ()));
    var q8 := Next(q7, Claim(1, 4, 4, ()));
    acts := Before(q7, Claim(1, 4, 4, ()), [], q8);
    acts := Before(q6, Claim(0, 4, 4, ()), acts, q8);
    acts := Before(q5, Read(1, 3), acts, q8);
    acts := Before(q4, Read(0, 3), acts, q8);
    acts := FromTwoTaken(t, n, acts, q8);
  }

  /** No schedule of `n` workers over this queue ever has two runners of one key. */
  ghost predicate AlwaysOneRunner(name: QName, n: nat) {
    forall acts: seq<Action<()>> :: Run(InitialQueue<()>(name, n, 0), acts).Some? ==>
                      OneRunnerPerKey(Run(InitialQueue<()>(name, n, 0), acts).value)
  }

  lemma {:induction false} PoolSize<R>(q: Queue<R>, acts: seq<Action<R>>)
    requires Run(q, acts).Some?
    ensures |Run(q, acts).value.workers| == |q.workers|
    decreases acts
  {
    if acts != [] {
      PoolSize(Next(q, acts[0]), acts[1..]);
    }
  }

  /** A task of each queue that its job string brings back. */
  function SampleTask(name: QName): (t: Task)
    ensures QueueOf(t) == name && ParseJob(name, Job(t)) == Some(t)
  {
    var repo := Repo("", "");
    if name.version then FetchVersion(name.kind, repo, Version("", 0, "", map[]))
    else JobRoundTrip(FetchRepo(name.kind, repo)); FetchRepo(name.kind, repo)
  }

  /** One runner per key is what a pool of one worker gives, and no larger one. */
  lemma OneRunnerIffOneWorker(name: QName, n: nat)
    ensures AlwaysOneRunner(name, n) <==> n < 2
  {
    if n >= 2 {
      var acts := NoMutualExclusion(SampleTask(name), n);
      assert !OneRunnerPerKey(Run(InitialQueue<()>(name, n, 0), acts).value);
    } else {
      forall acts: seq<Action<()>> | Run(InitialQueue<()>(name, n, 0), acts).Some?
        ensures OneRunnerPerKey(Run(InitialQueue<()>(name, n, 0), acts).value)
      {
        PoolSize(InitialQueue<()>(name, n, 0), acts);
      }
    }
  }

  /** One success at 4; a second job of the key, posted at 1, has been taken but not looked at. */
  function AfterFirstSuccess(t: Task): Queue<()> {
    Queue(QueueOf(t), [], map[DedupingKey(t) := DedupValue(false, 4)], [Idle, Taken(1, t, 2)], 4,
          [Posted(t, 1), Posted(t, 1), Started(t, 1), Succeeded(t, 1, 4)])
  }

  /** A third job has been posted at 5 and taken at 6. */
  function AfterThirdTaken(t: Task): Queue<()> {
    var q := AfterFirstSuccess(t);
    q.(workers := [Taken(5, t, 6), Taken(1, t, 2)], clock := 6, log := q.log + [Posted(t, 5)])
  }

  /** It has failed, and the table holds nothing for the key. */
  function AfterFailure(t: Task): Queue<()> {
    Queue(QueueOf(t), [], map[], [Idle, Taken(1, t, 2)], 7,
          AfterThirdTaken(t).log + [Started(t, 5)] + [RunFailed(t, 5)])
  }

  lemma ThenThirdTaken(t: Task, rest: seq<Action<()>>, last: Queue<()>) returns (acts: seq<Action<()>>)
    requires t.FetchVersion? && Run(AfterThirdTaken(t), rest) == Some(last) && Atomic(rest)
    ensures Run(AfterFirstSuccess(t), acts) == Some(last) && Atomic(acts)
  {
    JobRoundTrip(t);
    var q := AfterFirstSuccess(t);
    var q1 := Next(q, Post(t, When(5, 5)));
    assert Next(q1, Take(0, 0, 6)) == AfterThirdTaken(t);
    acts := Before(q1, Take(0, 0, 6), rest, last);
    acts := Before(q, Post(t, When(5, 5)), acts, last);
  }

  lemma ThenFailure(t: Task, rest: seq<Action<()>>, last: Queue<()>) returns (acts: seq<Action<()>>)
    requires t.FetchVersion? && Run(AfterFailure(t), rest) == Some(last) && Atomic(rest)
    ensures Run(AfterFirstSuccess(t), acts) == Some(last) && Atomic(acts)
  {
    var q := AfterThirdTaken(t);
    var q1 := Next(q, Decide(0, 6, ()));
    assert Next(q1, Fail(0, 7)) == AfterFailure(t);
    acts := Before(q1, Fail(0, 7), rest, last);
    acts := Before(q, Decide(0, 6, ()), acts, last);
    acts := ThenThirdTaken(t, acts, last);
  }

  lemma ThenSuccess(t: Task) returns (acts: seq<Action<()>>, last: Queue<()>)
    ensures Run(AfterFailure(t), acts) == Some(last) && Atomic(acts)
    ensures last.log == AfterFailure(t).log + [Started(t, 1), Succeeded(t, 1, 9)]
  {
    var q := AfterFailure(t);
    var q1 := Next(q, Decide(1, 8, ()));
    last := Next(q1, Succeed(1, 9, 9));
    acts := Before(q1, Succeed(1, 9, 9), [], last);
    acts := Before(q, Decide(1, 8, ()), acts, last);
  }

  /** Even with check and claim in one step, a failure makes the table forget a success: a job posted at 1 succeeds
      at 9 although the same key had succeeded at 4. */
  lemma FailureForgetsSuccess(t: Task)
    requires t.FetchVersion?
    ensures exists acts: seq<Action<()>>, i: nat, j: nat ::
              Atomic(acts) && var q := Run(InitialQueue<()>(QueueOf(t), 2, 0), acts);
              && q.Some? && i < j && SuccessOf(q.value.log, i, DedupingKey(t))
              && SuccessOf(q.value.log, j, DedupingKey(t)) && q.value.log[j].posted < q.value.log[i].finish
  {
    JobRoundTrip(t);
    var acts, last := ThenSuccess(t);
    acts := ThenFailure(t, acts, last);
    var q5 := Next(TwoTaken(t, 2), Decide(0, 3, ()));
    assert Next(q5, Succeed(0, 4, 4)) == AfterFirstSuccess(t);
    acts := Before(q5, Succeed(0, 4, 4), acts, last);
    acts := Before(TwoTaken(t, 2), Decide(0, 3, ()), acts, last);
    acts := FromTwoTaken(t, 2, acts, last);
    assert SuccessOf(last.log, 3, DedupingKey(t)) && SuccessOf(last.log, 8, DedupingKey(t));
  }
}
