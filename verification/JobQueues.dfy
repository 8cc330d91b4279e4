/** The queues as the program keeps them: for each task kind one table and one list of waiting jobs, changed in place
    (database/queue.go). */
module JobQueues {
  import opened Types
  import opened Tasks
  import opened DedupQueue

  /** The times at which one uninterrupted consumer looks at the clock and changes the queue. */
  datatype Times = Times(taken: int, checked: int, stamp: int, claimed: int, finish: int, released: int)

  predicate Ordered(clock: int, t: Times) {
    clock <= t.taken <= t.checked <= t.stamp <= t.claimed <= t.finish <= t.released
  }

  /** `pending` and `dedup` are the program's state. The local variables of the workers, the clock and the log are
      there for the specification. */
  class QueueState<R> {
    const name: QName
    var pending: seq<Msg>
    var dedup: map<string, DedupValue>
    ghost var workers: seq<Worker<R>>
    ghost var clock: int
    ghost var log: seq<Event>

    ghost function View(): Queue<R>
      reads this
    {
      Queue(name, pending, dedup, workers, clock, log)
    }

    constructor (name: QName, ghost n: nat, ghost clock: int)
      ensures this.name == name && View() == InitialQueue(name, n, clock)
    {
      this.name := name;
      pending := [];
      dedup := map[];
      workers := seq(n, _ => Idle);
      this.clock := clock;
      log := [];
    }

    /** The job is stamped with the time `when.read` and reaches the pool at `when.at`, unless the pool refuses it. */
    method Enqueue(t: Task, accepted: bool, when: When) returns (err: bool)
      requires Enabled(View(), Action.Post(t, when))
      modifies this
      ensures err == !accepted && pending == old(pending) + if err then [] else [Msg(when.read, Job(t))]
      ensures View() == if err then old(View()) else Next(old(View()), Action.Post(t, when))
    {
      if !accepted {
        return true;
      }
      pending := pending + [Msg(when.read, Job(t))];
      clock, log := when.at, log + [Posted(t, when.read)];
      return false;
    }

    /** The pool hands a waiting job to worker `w`, which parses it. */
    method Receive(ghost w: nat, i: nat, now: int) returns (msg: Msg, te: Option<Task>)
      requires Enabled(View(), Take(w, i, now))
      modifies this
      ensures msg == old(pending[i]) && te == ParseJob(name, msg.job)
      ensures View() == Next(old(View()), Take(w, i, now))
    {
      msg := pending[i];
      pending := pending[..i] + pending[i + 1..];
      te := ParseJob(name, msg.job);
      clock := now;
      if te.Some? {
        workers := workers[w := Taken(msg.posted, te.value, now)];
      }
    }

    /** The first table access: older than the last run, or another job is still running. */
    method Check(ghost w: nat, posted: int, te: Task, now: int) returns (skip: bool)
      requires Enabled(View(), Read(w, now)) && workers[w].posted == posted && workers[w].task == te
      modifies this
      ensures dedup == old(dedup)
      ensures skip <==>
                DedupingKey(te) in dedup && (posted < dedup[DedupingKey(te)].posted || dedup[DedupingKey(te)].running)
      ensures View() == Next(old(View()), Read(w, now))
    {
      skip := false;
      var key := DedupingKey(te);
      if key in dedup {
        var dedupState := dedup[key];
        if posted < dedupState.posted {
          skip := true;
        } else if dedupState.running {
          skip := true;
        }
      }
      clock := now;
      if skip {
        workers, log := workers[w := Idle], log + [Skipped(te, posted)];
      } else {
        workers := workers[w := Cleared(posted, te, now)];
      }
    }

    /** The second table access, and the start of the runner. */
    method Claim(ghost w: nat, te: Task, stamp: int, now: int, ghost start: R)
      requires Enabled(View(), Action.Claim(w, stamp, now, start)) && workers[w].task == te
      modifies this
      ensures dedup == old(dedup)[DedupingKey(te) := DedupValue(true, stamp)]
      ensures View() == Next(old(View()), Action.Claim(w, stamp, now, start))
    {
      dedup := dedup[DedupingKey(te) := DedupValue(true, stamp)];
      clock, log := now, log + [Started(te, workers[w].posted)];
      workers := workers[w := Running(workers[w].posted, te, now, start)];
    }

    /** What follows the runner: forget the key on failure, mark it as finished on success. */
    method Release(ghost w: nat, te: Task, ok: bool, finish: int, now: int)
      requires workers != [] && w < |workers| && workers[w].Running? && workers[w].task == te
      requires clock <= now && workers[w].since <= finish <= now
      modifies this
      ensures dedup == if ok then old(dedup)[DedupingKey(te) := DedupValue(false, finish)]
                       else old(dedup) - {DedupingKey(te)}
      ensures View() == Next(old(View()), if ok then Action.Succeed(w, finish, now) else Action.Fail(w, now))
    {
      if !ok {
        dedup := dedup - {DedupingKey(te)};
        log := log + [RunFailed(te, workers[w].posted)];
      } else {
        dedup := dedup[DedupingKey(te) := DedupValue(false, finish)];
        log := log + [Succeeded(te, workers[w].posted, finish)];
      }
      clock, workers := now, workers[w := Idle];
    }

    /** The consumer from beginning to end, when nobody else touches the queue meanwhile; `ok` is the runner's result.
        It is a run of the state machine. */
    method Consume(ghost w: nat, i: nat, ok: bool, ghost start: R, times: Times) returns (err: bool)
      requires Enabled(View(), Take(w, i, times.taken)) && Ordered(clock, times)
      modifies this
      ensures Run(old(View()), ConsumerSteps(old(View()), w, i, ok, start, times)) == Some(View())
      ensures err <==> ParseJob(name, old(pending[i]).job) == None ||
                       (!ok && !Skips(old(dedup), ParseJob(name, old(pending[i]).job).value, old(pending[i]).posted))
    {
      ghost var q := View();
      var msg, te := Receive(w, i, times.taken);
      ghost var q1 := View();
      if te == None {
        RunOne(q, Take(w, i, times.taken));
        return true;
      }
      var skip := Check(w, msg.posted, te.value, times.checked);
      ghost var q2 := View();
      if skip {
        RunOne(q1, Read(w, times.checked));
        RunFirst(q, Take(w, i, times.taken), [Read(w, times.checked)]);
        return false;
      }
      Claim(w, te.value, times.stamp, times.claimed, start);
      ghost var q3 := View();
      Release(w, te.value, ok, times.finish, times.released);
      ghost var last := if ok then Action.Succeed(w, times.finish, times.released) else Action.Fail(w, times.released);
      RunOne(q3, last);
      RunFirst(q2, Action.Claim(w, times.stamp, times.claimed, start), [last]);
      RunFirst(q1, Read(w, times.checked), [Action.Claim(w, times.stamp, times.claimed, start), last]);
      RunFirst(q, Take(w, i, times.taken),
               [Read(w, times.checked), Action.Claim(w, times.stamp, times.claimed, start), last]);
      return !ok;
    }
  }

  /** The steps of one consumer: take and parse, check, and unless the job is skipped claim and release. */
  function ConsumerSteps<R>(q: Queue<R>, w: nat, i: nat, ok: bool, start: R, times: Times): seq<Action<R>>
    requires i < |q.pending|
  {
    var msg := q.pending[i];
    var take := Take(w, i, times.taken);
    var read := Read(w, times.checked);
    match ParseJob(q.name, msg.job)
    case None => [take]
    case Some(te) =>
      if Skips(q.dedup, te, msg.posted) then [take] + [read]
      else
        [take] + ([read] + ([Action.Claim(w, times.stamp, times.claimed, start)] +
        [if ok then Action.Succeed(w, times.finish, times.released) else Action.Fail(w, times.released)]))
  }

  lemma RunOne<R>(q: Queue<R>, a: Action<R>)
    requires Enabled(q, a)
    ensures Run(q, [a]) == Some(Next(q, a))
  {
    assert [a][1..] == [];
  }

  lemma RunFirst<R>(q: Queue<R>, a: Action<R>, rest: seq<Action<R>>)
    requires Enabled(q, a)
    ensures Run(q, [a] + rest) == Run(Next(q, a), rest)
  {
    assert ([a] + rest)[1..] == rest;
  }

  /** All queues of the server by name. */
  class Queues<R> {
    var queues: map<string, QueueState<R>>

    ghost predicate Valid()
      reads this
    {
      forall q: QName :: QueueName(q) in queues && queues[QueueName(q)].name == q
    }

    ghost function View(): (v: map<QName, Queue<R>>)
      requires Valid()
      reads this, queues.Values
      ensures forall q: QName :: q in v && v[q] == queues[QueueName(q)].View()
    {
      assert forall q: QName :: q in ALL_QUEUES by {
        forall q: QName
          ensures q in ALL_QUEUES
        {
          AllQueuesAreAll(q);
        }
      }
      map q | q in ALL_QUEUES :: queues[QueueName(q)].View()
    }

    /** One empty queue per task kind. */
    constructor (tasks: seq<QName>, ghost n: nat, ghost clock: int)
      ensures forall name :: name in queues <==> exists q :: q in tasks && QueueName(q) == name
      ensures forall q :: q in tasks ==>
                fresh(queues[QueueName(q)]) && queues[QueueName(q)].View() == InitialQueue(q, n, clock)
    {
      queues := map[];
      new;
      for i := 0 to |tasks|
        invariant forall name :: name in queues <==> exists q :: q in tasks[..i] && QueueName(q) == name
        invariant forall q :: q in tasks[..i] ==>
                    fresh(queues[QueueName(q)]) && queues[QueueName(q)].View() == InitialQueue(q, n, clock)
      {
        var qs := new QueueState(tasks[i], n, clock);
        forall q | q in tasks[..i]
          ensures QueueName(q) == QueueName(tasks[i]) <==> q == tasks[i]
        {
          QueueNamesDistinct(q, tasks[i]);
        }
        assert tasks[..i + 1] == tasks[..i] + [tasks[i]];
        queues := queues[QueueName(tasks[i]) := qs];
      }
      assert tasks[..|tasks|] == tasks;
    }

    method Enqueue(t: Task, accepted: bool, when: When) returns (err: bool)
      requires Valid() && Enabled(View()[QueueOf(t)], Action.Post(t, when))
      modifies queues[QueueName(QueueOf(t))]
      ensures Valid() && err == !accepted
      ensures View() == if err then old(View())
                        else old(View())[QueueOf(t) := Next(old(View()[QueueOf(t)]), Action.Post(t, when))]
    {
      err := queues[QueueName(QueueOf(t))].Enqueue(t, accepted, when);
      assert err ==> View() == old(View());
    }
  }
}
