/** The `worker` loop (parser.py:94-107), the `listener` count
    (parser.py:18-22) and the dispatcher's jobs (parser.py:130-136), as a
    sequential state machine.

    A worker repeatedly takes an indexer handle from its pool, then a job.
    A `None` job (here `Stop`) ends the loop: the handle is not returned and
    one `None` goes to the progress queue. A document is indexed: on success
    the handle goes back to the end of the pool and one tick is sent; on a
    `KeyError` the loop continues without returning the handle; any other
    exception ends the worker. An empty pool or job queue blocks forever. */
module Worker {
  import opened Seqs

  /** An item of the job queue: a document, or the `None` terminator. */
  datatype Job<D> = Doc(payload: D) | Stop

  /** What indexing one document does: success, `KeyError`, or another
      exception. `Skipped` is the `Indexer.Skip` outcome of
      `Indexer.IndexDocument`; `Indexed` is an assembled record that the
      store accepts, and `Failed` is any other exception, such as a store
      error at `insert_one` (parser.py:92). */
  datatype Outcome = Indexed | Skipped | Failed

  /** An item of the progress queue: `SENTINEL`, or the worker's final `None`. */
  datatype Signal = Tick | Done

  /** How a worker's run ends: it left the loop; an exception ended it; it
      blocks forever on the handle pool or on the job queue. */
  datatype Status = Exited | Crashed | AwaitingHandle | AwaitingJob

  /** What happens to the handle after a `KeyError`. The source keeps it
      (`continue` skips the `put`); `ReturnOnSkip` puts it back. */
  datatype SkipPolicy = KeepOnSkip | ReturnOnSkip

  /** The end of one worker's run: its status, the handles left in its pool,
      the handles it took and never gave back, the jobs left in the queue,
      and what it sent to the progress queue, in order. */
  datatype Run<H, D> = Run(status: Status, pool: seq<H>, lost: seq<H>, jobs: seq<Job<D>>, signals: seq<Signal>)

  /** One worker's loop, started on `pool` and the queued `jobs`. */
  function RunWorker<H, D>(pool: seq<H>, jobs: seq<Job<D>>, index: D -> Outcome, policy: SkipPolicy): (r: Run<H, D>)
    ensures |r.jobs| <= |jobs| && r.jobs == jobs[|jobs| - |r.jobs|..]
    ensures r.status == AwaitingJob ==> r.jobs == []
    ensures r.status == AwaitingHandle ==> r.pool == []
    decreases |jobs|
  {
    if |pool| == 0 then Run(AwaitingHandle, pool, [], jobs, [])
    else
      var h := pool[0];
      if |jobs| == 0 then Run(AwaitingJob, pool[1..], [h], jobs, [])
      else
        match jobs[0]
        case Stop => Run(Exited, pool[1..], [h], jobs[1..], [Done])
        case Doc(d) =>
          match index(d)
          case Failed => Run(Crashed, pool[1..], [h], jobs[1..], [])
          case Skipped =>
            if policy == ReturnOnSkip then RunWorker(pool[1..] + [h], jobs[1..], index, policy)
            else
              var r := RunWorker(pool[1..], jobs[1..], index, policy);
              r.(lost := [h] + r.lost)
          case Indexed =>
            var r := RunWorker(pool[1..] + [h], jobs[1..], index, policy);
            r.(signals := [Tick] + r.signals)
  }

  /** The jobs a run took from the queue. */
  function Consumed<H, D>(jobs: seq<Job<D>>, r: Run<H, D>): seq<Job<D>>
    requires |r.jobs| <= |jobs|
  {
    jobs[..|jobs| - |r.jobs|]
  }

  /** Number of documents in `js` whose indexing has outcome `o`. */
  function CountOutcome<D>(js: seq<Job<D>>, index: D -> Outcome, o: Outcome): nat
  {
    if |js| == 0 then 0
    else (if js[0].Doc? && index(js[0].payload) == o then 1 else 0) + CountOutcome(js[1..], index, o)
  }

  /** `n` progress ticks. */
  function Ticks(n: nat): (t: seq<Signal>)
    ensures |t| == n && forall i :: 0 <= i < n ==> t[i] == Tick
  {
    if n == 0 then [] else [Tick] + Ticks(n - 1)
  }

  /** Job `k` is the first terminator in the queue. */
  predicate FirstStop<D>(jobs: seq<Job<D>>, k: int)
  {
    0 <= k < |jobs| && jobs[k] == Stop && forall i :: 0 <= i < k ==> jobs[i].Doc?
  }

  /** No document in `js` raises an exception other than `KeyError`. */
  predicate NoFailure<D>(js: seq<Job<D>>, index: D -> Outcome)
  {
    forall i :: 0 <= i < |js| && js[i].Doc? ==> index(js[i].payload) != Failed
  }

  /** The pool a worker continues with after indexing a document. */
  function NextPool<H>(pool: seq<H>, o: Outcome, policy: SkipPolicy): seq<H>
    requires |pool| > 0
  {
    if o == Indexed || policy == ReturnOnSkip then pool[1..] + [pool[0]] else pool[1..]
  }

  lemma PrefixCons<T>(s: seq<T>, m: nat)
    requires m < |s|
    ensures s[..|s| - m] == [s[0]] + s[1..][..|s| - 1 - m]
  {
  }

  /** One loop iteration over a document that does not crash the worker. */
  lemma Unfold<H, D>(pool: seq<H>, jobs: seq<Job<D>>, index: D -> Outcome, policy: SkipPolicy)
    requires |pool| > 0 && |jobs| > 0 && jobs[0].Doc? && index(jobs[0].payload) != Failed
    ensures var o := index(jobs[0].payload);
      var r := RunWorker(pool, jobs, index, policy);
      var r' := RunWorker(NextPool(pool, o, policy), jobs[1..], index, policy);
      && r.status == r'.status && r.pool == r'.pool && r.jobs == r'.jobs
      && r.signals == (if o == Indexed then [Tick] else []) + r'.signals
      && r.lost == (if o == Skipped && policy == KeepOnSkip then [pool[0]] else []) + r'.lost
      && Consumed(jobs, r) == [jobs[0]] + Consumed(jobs[1..], r')
  {
    var o := index(jobs[0].payload);
    var r := RunWorker(pool, jobs, index, policy);
    var r' := RunWorker(NextPool(pool, o, policy), jobs[1..], index, policy);
    if o == Indexed {
      assert r == r'.(signals := [Tick] + r'.signals);
    } else if policy == ReturnOnSkip {
      assert r == r';
    } else {
      assert r == r'.(lost := [pool[0]] + r'.lost);
    }
    PrefixCons(jobs, |r.jobs|);
  }

  /** The iteration that ends the loop: a terminator, or a document raising
      an exception other than `KeyError`. */
  lemma UnfoldLast<H, D>(pool: seq<H>, jobs: seq<Job<D>>, index: D -> Outcome, policy: SkipPolicy)
    requires |pool| > 0 && |jobs| > 0 && !(jobs[0].Doc? && index(jobs[0].payload) != Failed)
    ensures var r := RunWorker(pool, jobs, index, policy);
      && r.status == (if jobs[0] == Stop then Exited else Crashed)
      && r.lost == [pool[0]] && r.pool == pool[1..]
      && r.signals == (if jobs[0] == Stop then [Done] else [])
      && Consumed(jobs, r) == [jobs[0]]
  {
  }

  lemma CountOne<D>(j: Job<D>, index: D -> Outcome, o: Outcome)
    ensures CountOutcome([j], index, o) == (if j.Doc? && index(j.payload) == o then 1 else 0)
  {
  }

  lemma CountCons<D>(j: Job<D>, js: seq<Job<D>>, index: D -> Outcome, o: Outcome)
    ensures CountOutcome([j] + js, index, o) == (if j.Doc? && index(j.payload) == o then 1 else 0) + CountOutcome(js, index, o)
  {
    assert ([j] + js)[1..] == js;
  }

  /** No handle is created or duplicated: the handles left in the pool and
      the handles lost are exactly the handles the worker started with. */
  lemma {:induction false} HandlesConserved<H, D>(pool: seq<H>, jobs: seq<Job<D>>, index: D -> Outcome, policy: SkipPolicy)
    ensures var r := RunWorker(pool, jobs, index, policy);
      multiset(r.pool) + multiset(r.lost) == multiset(pool)
    decreases |jobs|
  {
    if |pool| > 0 {
      assert pool == [pool[0]] + pool[1..];
      if |jobs| > 0 && jobs[0].Doc? && index(jobs[0].payload) != Failed {
        var o := index(jobs[0].payload);
        Unfold(pool, jobs, index, policy);
        HandlesConserved(NextPool(pool, o, policy), jobs[1..], index, policy);
      }
    }
  }

  /** A run sends exactly one tick per document it indexed, in one block, and
      then one `None` if and only if it exited. */
  lemma {:induction false} RunSignals<H, D>(pool: seq<H>, jobs: seq<Job<D>>, index: D -> Outcome, policy: SkipPolicy)
    ensures var r := RunWorker(pool, jobs, index, policy);
      r.signals == Ticks(CountOutcome(Consumed(jobs, r), index, Indexed)) + (if r.status == Exited then [Done] else [])
    decreases |jobs|
  {
    var r := RunWorker(pool, jobs, index, policy);
    if |pool| > 0 && |jobs| > 0 {
      if jobs[0].Doc? && index(jobs[0].payload) != Failed {
        RunSignalsStep(pool, jobs, index, policy);
      } else {
        UnfoldLast(pool, jobs, index, policy);
        CountOne(jobs[0], index, Indexed);
      }
    } else if |pool| > 0 {
      assert Consumed(jobs, r) == [];
    }
  }

  lemma {:induction false} RunSignalsStep<H, D>(pool: seq<H>, jobs: seq<Job<D>>, index: D -> Outcome, policy: SkipPolicy)
    requires |pool| > 0 && |jobs| > 0 && jobs[0].Doc? && index(jobs[0].payload) != Failed
    ensures var r := RunWorker(pool, jobs, index, policy);
      r.signals == Ticks(CountOutcome(Consumed(jobs, r), index, Indexed)) + (if r.status == Exited then [Done] else [])
    decreases |jobs|, 0
  {
    var o := index(jobs[0].payload);
    var r := RunWorker(pool, jobs, index, policy);
    Unfold(pool, jobs, index, policy);
    var r' := RunWorker(NextPool(pool, o, policy), jobs[1..], index, policy);
    RunSignals(NextPool(pool, o, policy), jobs[1..], index, policy);
    CountCons(jobs[0], Consumed(jobs[1..], r'), index, Indexed);
    var n := CountOutcome(Consumed(jobs[1..], r'), index, Indexed);
    var tail: seq<Signal> := if r.status == Exited then [Done] else [];
    assert r'.signals == Ticks(n) + tail;
    if o == Indexed {
      assert r.signals == [Tick] + (Ticks(n) + tail);
      assert [Tick] + (Ticks(n) + tail) == Ticks(n + 1) + tail;
    } else {
      assert r.signals == [] + r'.signals;
    }
  }

  /** Handle accounting: a run loses one handle per skipped document under the
      source's policy, plus the one it holds when it exits, crashes or waits
      for a job; returning handles on skip leaves only the last. */
  lemma {:induction false} RunLosses<H, D>(pool: seq<H>, jobs: seq<Job<D>>, index: D -> Outcome, policy: SkipPolicy)
    ensures var r := RunWorker(pool, jobs, index, policy);
      |r.lost| == (if policy == KeepOnSkip then CountOutcome(Consumed(jobs, r), index, Skipped) else 0)
                  + (if r.status == AwaitingHandle then 0 else 1)
    decreases |jobs|
  {
    var r := RunWorker(pool, jobs, index, policy);
    if |pool| > 0 && |jobs| > 0 {
      if jobs[0].Doc? && index(jobs[0].payload) != Failed {
        RunLossesStep(pool, jobs, index, policy);
      } else {
        UnfoldLast(pool, jobs, index, policy);
        CountOne(jobs[0], index, Skipped);
      }
    } else if |pool| > 0 {
      assert Consumed(jobs, r) == [];
    }
  }

  lemma {:induction false} RunLossesStep<H, D>(pool: seq<H>, jobs: seq<Job<D>>, index: D -> Outcome, policy: SkipPolicy)
    requires |pool| > 0 && |jobs| > 0 && jobs[0].Doc? && index(jobs[0].payload) != Failed
    ensures var r := RunWorker(pool, jobs, index, policy);
      |r.lost| == (if policy == KeepOnSkip then CountOutcome(Consumed(jobs, r), index, Skipped) else 0)
                  + (if r.status == AwaitingHandle then 0 else 1)
    decreases |jobs|, 0
  {
    var o := index(jobs[0].payload);
    Unfold(pool, jobs, index, policy);
    var r' := RunWorker(NextPool(pool, o, policy), jobs[1..], index, policy);
    RunLosses(NextPool(pool, o, policy), jobs[1..], index, policy);
    CountCons(jobs[0], Consumed(jobs[1..], r'), index, Skipped);
  }

  /** A run that exits has consumed exactly the jobs up to and including the
      first terminator and left the rest queued. */
  lemma {:induction false} ExitStopsAtFirstStop<H, D>(pool: seq<H>, jobs: seq<Job<D>>, index: D -> Outcome, policy: SkipPolicy)
    requires RunWorker(pool, jobs, index, policy).status == Exited
    ensures exists k :: FirstStop(jobs, k) && RunWorker(pool, jobs, index, policy).jobs == jobs[k + 1..]
    decreases |jobs|
  {
    if jobs[0] == Stop {
      assert FirstStop(jobs, 0);
    } else {
      var h := pool[0];
      var d := jobs[0].payload;
      var p' := if index(d) == Indexed || policy == ReturnOnSkip then pool[1..] + [h] else pool[1..];
      ExitStopsAtFirstStop(p', jobs[1..], index, policy);
      var k :| FirstStop(jobs[1..], k) && RunWorker(p', jobs[1..], index, policy).jobs == jobs[1..][k + 1..];
      assert FirstStop(jobs, k + 1);
      assert jobs[1..][k + 1..] == jobs[k + 2..];
    }
  }

  /** Under the source's policy, a worker whose documents before the first
      terminator raise no other exception exits exactly when fewer of them are
      skipped than it has handles; it then leaves the later jobs queued and
      has spent one handle per skip plus one for the terminator. */
  lemma {:induction false} KeepOnSkipExits<H, D>(pool: seq<H>, jobs: seq<Job<D>>, index: D -> Outcome, k: nat)
    requires FirstStop(jobs, k) && NoFailure(jobs[..k], index)
    ensures var r := RunWorker(pool, jobs, index, KeepOnSkip);
      && (r.status == Exited <==> CountOutcome(jobs[..k], index, Skipped) < |pool|)
      && (r.status == Exited ==> r.jobs == jobs[k + 1..] && |r.pool| == |pool| - CountOutcome(jobs[..k], index, Skipped) - 1)
      && (r.status != Exited ==> r.status == AwaitingHandle && Stop in r.jobs)
    decreases k
  {
    var r := RunWorker(pool, jobs, index, KeepOnSkip);
    if |pool| == 0 {
      assert jobs[k] in r.jobs;
    } else if k == 0 {
      assert jobs[..0] == [];
    } else {
      var h := pool[0];
      var d := jobs[0].payload;
      assert jobs[..k][0] == jobs[0];
      assert index(d) != Failed;
      assert jobs[..k] == [jobs[0]] + jobs[1..][..k - 1];
      NoFailureTail(jobs, index, k);
      assert FirstStop(jobs[1..], k - 1);
      var p' := if index(d) == Indexed then pool[1..] + [h] else pool[1..];
      KeepOnSkipExits(p', jobs[1..], index, k - 1);
      assert jobs[1..][k..] == jobs[k + 1..];
    }
  }

  /** The deadlock: under the source's policy, once the skipped documents
      before the first terminator are as many as the worker's handles, the
      worker blocks forever on its empty pool and never reads the terminator. */
  lemma SkipsExhaustPool<H, D>(pool: seq<H>, jobs: seq<Job<D>>, index: D -> Outcome, k: nat)
    requires FirstStop(jobs, k) && NoFailure(jobs[..k], index)
    requires CountOutcome(jobs[..k], index, Skipped) >= |pool|
    ensures RunWorker(pool, jobs, index, KeepOnSkip).status == AwaitingHandle
    ensures RunWorker(pool, jobs, index, KeepOnSkip).pool == []
    ensures Stop in RunWorker(pool, jobs, index, KeepOnSkip).jobs
  {
    KeepOnSkipExits(pool, jobs, index, k);
  }

  lemma NoFailureTail<D>(jobs: seq<Job<D>>, index: D -> Outcome, k: nat)
    requires 0 < k <= |jobs| && NoFailure(jobs[..k], index)
    ensures NoFailure(jobs[1..][..k - 1], index)
  {
    var t := jobs[1..][..k - 1];
    forall i | 0 <= i < |t| && t[i].Doc?
      ensures index(t[i].payload) != Failed
    {
      assert t[i] == jobs[..k][i + 1];
    }
  }

  /** The smallest instance: one handle and a document that raises
      `KeyError`. The worker never reads the jobs after it, so with
      `rest == [Stop]` it never reaches its terminator. */
  lemma OneSkipDeadlocks<H, D>(h: H, d: D, rest: seq<Job<D>>, index: D -> Outcome)
    requires index(d) == Skipped
    ensures RunWorker([h], [Doc(d)] + rest, index, KeepOnSkip) == Run(AwaitingHandle, [], [h], rest, [])
  {
    var jobs := [Doc(d)] + rest;
    assert jobs[0] == Doc(d) && jobs[1..] == rest;
    assert [h][1..] == [];
    var r' := RunWorker<H, D>([], rest, index, KeepOnSkip);
    assert r' == Run(AwaitingHandle, [], [], rest, []);
    assert RunWorker([h], jobs, index, KeepOnSkip) == r'.(lost := [h] + r'.lost);
  }

  /** With handles returned on skip, a worker with at least one handle whose
      documents before the first terminator raise no other exception always
      exits, leaves the later jobs queued and spends exactly one handle. */
  lemma {:induction false} ReturnOnSkipExits<H, D>(pool: seq<H>, jobs: seq<Job<D>>, index: D -> Outcome, k: nat)
    requires |pool| > 0 && FirstStop(jobs, k) && NoFailure(jobs[..k], index)
    ensures var r := RunWorker(pool, jobs, index, ReturnOnSkip);
      r.status == Exited && r.jobs == jobs[k + 1..] && |r.pool| == |pool| - 1
    decreases k
  {
    if k > 0 {
      var h := pool[0];
      var d := jobs[0].payload;
      assert jobs[..k][0] == jobs[0];
      assert index(d) != Failed;
      NoFailureTail(jobs, index, k);
      assert FirstStop(jobs[1..], k - 1);
      ReturnOnSkipExits(pool[1..] + [h], jobs[1..], index, k - 1);
      assert jobs[1..][k..] == jobs[k + 1..];
    }
  }

  // ---------------------------------------------------------------------
  // The listener

  /** `for item in iter(q.get, None)`: the items before the first `None`; it
      blocks forever, uncounted further, when no `None` arrives. */
  datatype Listening = Listening(count: nat, stopped: bool)

  function Listen(signals: seq<Signal>): (l: Listening)
    ensures l.stopped <==> Done in signals
    ensures l.stopped ==> l.count < |signals| && signals[l.count] == Done && Done !in signals[..l.count]
    ensures !l.stopped ==> l.count == |signals|
  {
    if |signals| == 0 then Listening(0, false)
    else if signals[0] == Done then Listening(0, true)
    else
      var l := Listen(signals[1..]);
      assert signals[..l.count + 1] == [signals[0]] + signals[1..][..l.count];
      Listening(l.count + 1, l.stopped)
  }

  /** Listening to a worker that exited counts exactly the documents it indexed. */
  lemma ListenerCountsIndexed<H, D>(pool: seq<H>, jobs: seq<Job<D>>, index: D -> Outcome, policy: SkipPolicy)
    requires RunWorker(pool, jobs, index, policy).status == Exited
    ensures var r := RunWorker(pool, jobs, index, policy);
      Listen(r.signals) == Listening(CountOutcome(Consumed(jobs, r), index, Indexed), true)
  {
    var r := RunWorker(pool, jobs, index, policy);
    RunSignals(pool, jobs, index, policy);
    var n := CountOutcome(Consumed(jobs, r), index, Indexed);
    assert r.signals[..n] == Ticks(n);
    assert Done !in Ticks(n);
  }

  // ---------------------------------------------------------------------
  // The dispatcher and the pool of workers

  /** parser.py:130-136: every document in archive order, then one `None`
      per worker. */
  function DispatchJobs<D>(docs: seq<D>, workers: nat): (jobs: seq<Job<D>>)
    ensures |jobs| == |docs| + workers
    ensures forall i :: 0 <= i < |docs| ==> jobs[i] == Doc(docs[i])
    ensures forall i :: |docs| <= i < |jobs| ==> jobs[i] == Stop
  {
    Map(docs, (d: D) => Doc(d)) + seq(workers, _ => Stop)
  }

  /** Workers run one after another on the shared job queue, each from its
      own copy of the initial pool: the handle queue is a thread-level queue
      that every forked worker process inherits a copy of. */
  function RunAll<H, D>(workers: nat, pool: seq<H>, jobs: seq<Job<D>>, index: D -> Outcome, policy: SkipPolicy): (rs: seq<Run<H, D>>)
    ensures |rs| == workers
    ensures workers > 0 ==> rs[0] == RunWorker(pool, jobs, index, policy)
    decreases workers
  {
    if workers == 0 then []
    else
      var r := RunWorker(pool, jobs, index, policy);
      [r] + RunAll(workers - 1, pool, r.jobs, index, policy)
  }

  /** Every worker exits and the queue ends empty when handles are returned on
      skip: for any number of documents, W >= 1 workers with W terminators,
      and no exception other than `KeyError`. */
  lemma {:induction false} ReturnOnSkipPipelineTerminates<H, D>(workers: nat, pool: seq<H>, docs: seq<D>, index: D -> Outcome)
    requires workers >= 1 && |pool| > 0
    requires forall i :: 0 <= i < |docs| ==> index(docs[i]) != Failed
    ensures var rs := RunAll(workers, pool, DispatchJobs(docs, workers), index, ReturnOnSkip);
      && (forall i :: 0 <= i < workers ==> rs[i].status == Exited)
      && rs[workers - 1].jobs == []
  {
    var jobs := DispatchJobs(docs, workers);
    var k := |docs|;
    DispatchShape(docs, workers, index);
    ReturnOnSkipExits(pool, jobs, index, k);
    var r := RunWorker(pool, jobs, index, ReturnOnSkip);
    assert r.status == Exited && r.jobs == DispatchJobs<D>([], workers - 1);
    var rest := RunAll(workers - 1, pool, r.jobs, index, ReturnOnSkip);
    var rs := RunAll(workers, pool, jobs, index, ReturnOnSkip);
    assert rs == [r] + rest;
    if workers > 1 {
      ReturnOnSkipStopsOnly(workers - 1, pool, index);
      forall i | 0 <= i < workers
        ensures rs[i].status == Exited
      {
        if i > 0 {
          assert rs[i] == rest[i - 1];
        }
      }
      assert rs[workers - 1] == rest[workers - 2];
    } else {
      assert |r.jobs| == 0;
    }
  }

  /** The dispatched queue: its first terminator follows the documents, and
      after it come the other workers' terminators. */
  lemma DispatchShape<D>(docs: seq<D>, workers: nat, index: D -> Outcome)
    requires workers >= 1
    requires forall i :: 0 <= i < |docs| ==> index(docs[i]) != Failed
    ensures FirstStop(DispatchJobs(docs, workers), |docs|)
    ensures NoFailure(DispatchJobs(docs, workers)[..|docs|], index)
    ensures DispatchJobs(docs, workers)[|docs| + 1..] == DispatchJobs<D>([], workers - 1)
  {
    var jobs := DispatchJobs(docs, workers);
    var k := |docs|;
    assert forall i :: 0 <= i < k ==> jobs[..k][i] == Doc(docs[i]);
  }

  /** Workers facing only terminators each take one and exit. */
  lemma {:induction false} ReturnOnSkipStopsOnly<H, D>(workers: nat, pool: seq<H>, index: D -> Outcome)
    requires workers >= 1 && |pool| > 0
    ensures var rs := RunAll(workers, pool, DispatchJobs<D>([], workers), index, ReturnOnSkip);
      && (forall i :: 0 <= i < workers ==> rs[i].status == Exited)
      && rs[workers - 1].jobs == []
    decreases workers
  {
    var jobs := DispatchJobs<D>([], workers);
    assert jobs[0] == Stop;
    var r := RunWorker(pool, jobs, index, ReturnOnSkip);
    assert r.status == Exited && r.jobs == jobs[1..];
    var rest := RunAll(workers - 1, pool, jobs[1..], index, ReturnOnSkip);
    assert RunAll(workers, pool, jobs, index, ReturnOnSkip) == [r] + rest;
    if workers > 1 {
      assert jobs[1..] == DispatchJobs<D>([], workers - 1);
      ReturnOnSkipStopsOnly(workers - 1, pool, index);
    } else {
      assert r.jobs == [];
    }
  }
}
