/** Running a task function over items serially or on a pool of threads or
    processes. A task may read and change a shared world `W` (the file system,
    for the convert step) and either returns a result or raises.

    Pools are described by what their consumer sees. `schedule` is the order
    in which the pool runs the calls: a permutation of the item indices, chosen
    by the pool and not by the caller. Task effects on the world take place in
    that order, and `as_completed` hands out the calls in that order too. */
module Executors {
  import opened Base

  /** What a pool task ends with when it raises: the function's own exception, or
      the error of a task function that cannot be sent to a worker process. */
  datatype TaskError<E> = Raised(exc: E) | NotPicklable

  /** Why the stream of results ends early.
      - `Propagated`: a task's exception, re-raised as it is.
      - `TaskFailed`: `RuntimeError("Task failed for item: ...")` chained to
        a task's exception.
      - `InvalidMode`: `ValueError("Invalid mode: ...")`.
      - `InvalidWorkers`: `ValueError("max_workers must be greater than 0")`
        raised by the pool constructor. */
  datatype Failure<T, E> =
    | Propagated(cause: TaskError<E>)
    | TaskFailed(item: T, cause: TaskError<E>)
    | InvalidMode(mode: string)
    | InvalidWorkers(count: int)

  /** What a consumer of `execute` observes: the world afterwards, the results
      yielded before the stream ended, the exception it ended with, if any,
      and the indices of the items whose task was invoked, in invocation
      order. */
  datatype Outcome<W, T, R, E> = Outcome(world: W, yielded: seq<R>, failure: Option<Failure<T, E>>, invoked: seq<nat>)

  function Min(a: int, b: int): int
  {
    if a < b then a else b
  }

  function Max(a: int, b: int): int
  {
    if a < b then b else a
  }

  /** `os.cpu_count() or 1`: an unknown count (and a count of 0) reads as 1. */
  function CpuOrOne(cpuCount: Option<nat>): (c: nat)
    ensures c >= 1
    ensures cpuCount.Some? && cpuCount.value > 0 ==> c == cpuCount.value
  {
    if cpuCount.Some? && cpuCount.value > 0 then cpuCount.value else 1
  }

  /** `_default_workers`: a pool size that the pools accept, capped at 32 for
      threads and one per processor for processes. */
  function DefaultWorkers(mode: string, cpuCount: Option<nat>): (n: int)
    ensures n >= 1
    ensures mode == "thread" ==> 5 <= n <= 32 && (CpuOrOne(cpuCount) <= 28 ==> n == CpuOrOne(cpuCount) + 4)
                                               && (CpuOrOne(cpuCount) > 28 ==> n == 32)
    ensures mode == "process" ==> n == CpuOrOne(cpuCount)
    ensures mode != "thread" && mode != "process" ==> n == 1
  {
    var cpu := CpuOrOne(cpuCount);
    if mode == "thread" then Min(32, cpu + 4)
    else if mode == "process" then Max(1, cpu)
    else 1
  }

  /** `schedule` orders all of the indices `0 .. n-1`, each once. */
  predicate IsSchedule(schedule: seq<nat>, n: nat)
  {
    && |schedule| == n
    && (forall j :: 0 <= j < n ==> schedule[j] < n)
    && (forall j, k :: 0 <= j < k < n ==> schedule[j] != schedule[k])
    && (forall i :: 0 <= i < n ==> i in schedule)
  }

  function Iota(n: nat): (r: seq<nat>)
    ensures |r| == n && forall i :: 0 <= i < n ==> r[i] == i
  {
    if n == 0 then [] else Iota(n - 1) + [n - 1]
  }

  /** The serial branch over the first `n` items: call the function on each item
      in turn and stop at the first exception. */
  function SerialPrefix<W, T, R, E>(f: (W, T) -> (W, Result<R, E>), w: W, items: seq<T>, n: nat): Outcome<W, T, R, E>
    requires n <= |items|
  {
    if n == 0 then Outcome(w, [], None, [])
    else
      var o := SerialPrefix(f, w, items, n - 1);
      if o.failure.Some? then o
      else
        var (w', r) := f(o.world, items[n - 1]);
        if r.Err? then Outcome(w', o.yielded, Some(Propagated(Raised(r.error))), o.invoked + [n - 1])
        else Outcome(w', o.yielded + [r.value], None, o.invoked + [n - 1])
  }

  /** The pool runs every task, in schedule order; the world is threaded
      through them and each item's result is kept. */
  function RunScheduled<W, T, R, E>(f: (W, T) -> (W, Result<R, E>), w: W, items: seq<T>, schedule: seq<nat>, n: nat)
    : (r: (W, map<nat, Result<R, TaskError<E>>>))
    requires n <= |schedule| && forall j :: 0 <= j < |schedule| ==> schedule[j] < |items|
    ensures forall j :: 0 <= j < n ==> schedule[j] in r.1
    ensures forall i :: i in r.1 ==> i < |items|
  {
    if n == 0 then (w, map[])
    else
      var (w1, results) := RunScheduled(f, w, items, schedule, n - 1);
      var k := schedule[n - 1];
      var (w2, res) := f(w1, items[k]);
      (w2, results[k := Wrap(res)])
  }

  /** A future's outcome: the function's value, or the exception it raised. */
  function Wrap<R, E>(r: Result<R, E>): Result<R, TaskError<E>>
  {
    if r.Ok? then Ok(r.value) else Err(Raised(r.error))
  }

  /** What the consumer takes from the pool, in the order it asks: for
      `ordered`, the futures in item order with their exceptions as they are;
      otherwise the futures as they complete, each exception wrapped with its
      item. */
  function Stream<T, R, E>(results: map<nat, Result<R, TaskError<E>>>, items: seq<T>, schedule: seq<nat>, ordered: bool)
    : (rs: seq<Result<R, Failure<T, E>>>)
    requires IsSchedule(schedule, |items|)
    requires forall i :: 0 <= i < |items| ==> i in results
    ensures |rs| == |items|
  {
    seq(|items|, j requires 0 <= j < |items| =>
      var k := if ordered then j else schedule[j];
      var r := results[k];
      if r.Ok? then Ok(r.value)
      else if ordered then Err(Propagated(r.error))
      else Err(TaskFailed(items[k], r.error)))
  }

  /** Consuming the first `n` entries of a stream: values are yielded until
      the first failure, which ends it. */
  function Consume<T, R, E>(rs: seq<Result<R, Failure<T, E>>>, n: nat): (seq<R>, Option<Failure<T, E>>)
    requires n <= |rs|
  {
    if n == 0 then ([], None)
    else
      var (ys, failure) := Consume(rs, n - 1);
      if failure.Some? then (ys, failure)
      else if rs[n - 1].Err? then (ys, Some(rs[n - 1].error))
      else (ys + [rs[n - 1].value], None)
  }

  /** The results when the function cannot be pickled: every
      future fails without the function having run. */
  function Unpicklable<R, E>(n: nat): (r: map<nat, Result<R, TaskError<E>>>)
    ensures forall i :: 0 <= i < n ==> i in r && r[i] == Err(NotPicklable)
  {
    if n == 0 then map[] else Unpicklable(n - 1)[n - 1 := Err(NotPicklable)]
  }

  /** What `execute` amounts to, as seen by a consumer that reads the whole
      stream. `portable` says whether `f` can be pickled for a process pool. */
  function ExecuteSpec<W, T, R, E>(f: (W, T) -> (W, Result<R, E>), portable: bool, w: W, items: seq<T>,
                                   mode: string, workers: Option<int>, ordered: bool,
                                   cpuCount: Option<nat>, schedule: seq<nat>): Outcome<W, T, R, E>
    requires IsSchedule(schedule, |items|)
  {
    if mode == "serial" then SerialPrefix(f, w, items, |items|)
    else if mode != "thread" && mode != "process" then Outcome(w, [], Some(InvalidMode(mode)), [])
    else
      var n := if workers.Some? then workers.value else DefaultWorkers(mode, cpuCount);
      if n <= 0 then Outcome(w, [], Some(InvalidWorkers(n)), [])
      else if mode == "process" && !portable then
        var (ys, failure) := Consume(Stream(Unpicklable(|items|), items, schedule, ordered), |items|);
        Outcome(w, ys, failure, [])
      else
        var (w', results) := RunScheduled(f, w, items, schedule, |items|);
        CoveredIndices(schedule, |items|, results);
        var (ys, failure) := Consume(Stream(results, items, schedule, ordered), |items|);
        Outcome(w', ys, failure, schedule)
  }

  /** `execute`. */
  method Execute<W, T, R, E>(f: (W, T) -> (W, Result<R, E>), portable: bool, w: W, items: seq<T>,
                             mode: string, workers: Option<int>, ordered: bool,
                             cpuCount: Option<nat>, schedule: seq<nat>) returns (o: Outcome<W, T, R, E>)
    requires IsSchedule(schedule, |items|)
    ensures o == ExecuteSpec(f, portable, w, items, mode, workers, ordered, cpuCount, schedule)
  {
    if mode == "serial" {
      o := RunSerial(f, w, items);
      return;
    }
    if mode != "thread" && mode != "process" {
      return Outcome(w, [], Some(InvalidMode(mode)), []);
    }
    var n := if workers.Some? then workers.value else DefaultWorkers(mode, cpuCount);
    if n <= 0 {
      return Outcome(w, [], Some(InvalidWorkers(n)), []);
    }
    var world := w;
    var results: map<nat, Result<R, TaskError<E>>>;
    var invoked: seq<nat> := [];
    if mode == "process" && !portable {
      results := Unpicklable(|items|);
    } else {
      results := map[];
      for j := 0 to |items|
        invariant RunScheduled(f, w, items, schedule, j) == (world, results)
        invariant invoked == schedule[..j]
      {
        var k := schedule[j];
        var (w', res) := f(world, items[k]);
        world := w';
        results := results[k := Wrap(res)];
        invoked := invoked + [k];
        assert schedule[..j + 1] == schedule[..j] + [k];
      }
      assert schedule[..|items|] == schedule;
      CoveredIndices(schedule, |items|, results);
    }
    var yielded, failure := Drain(results, items, schedule, ordered);
    return Outcome(world, yielded, failure, invoked);
  }

  /** The serial branch. */
  method RunSerial<W, T, R, E>(f: (W, T) -> (W, Result<R, E>), w: W, items: seq<T>) returns (o: Outcome<W, T, R, E>)
    ensures o == SerialPrefix(f, w, items, |items|)
  {
    var world := w;
    var yielded: seq<R> := [];
    var invoked: seq<nat> := [];
    for i := 0 to |items|
      invariant SerialPrefix(f, w, items, i) == Outcome(world, yielded, None, invoked)
    {
      var (w', r) := f(world, items[i]);
      world := w';
      invoked := invoked + [i];
      if r.Err? {
        SerialFailureSticks(f, w, items, i + 1);
        return Outcome(world, yielded, Some(Propagated(Raised(r.error))), invoked);
      }
      yielded := yielded + [r.value];
    }
    return Outcome(world, yielded, None, invoked);
  }

  /** The consumer's loop over the futures of a pool. */
  method Drain<T, R, E>(results: map<nat, Result<R, TaskError<E>>>, items: seq<T>, schedule: seq<nat>, ordered: bool)
    returns (yielded: seq<R>, failure: Option<Failure<T, E>>)
    requires IsSchedule(schedule, |items|)
    requires forall i :: 0 <= i < |items| ==> i in results
    ensures (yielded, failure) == Consume(Stream(results, items, schedule, ordered), |items|)
  {
    ghost var rs := Stream(results, items, schedule, ordered);
    yielded := [];
    failure := None;
    for j := 0 to |items|
      invariant Consume(rs, j) == (yielded, None)
    {
      var k := if ordered then j else schedule[j];
      var r := results[k];
      if r.Err? {
        failure := Some(if ordered then Propagated(r.error) else TaskFailed(items[k], r.error));
        ConsumeFailureSticks(rs, j + 1);
        return;
      }
      yielded := yielded + [r.value];
    }
  }

  /** Once the serial run has failed, later items change nothing. */
  lemma {:induction false} SerialFailureSticks<W, T, R, E>(f: (W, T) -> (W, Result<R, E>), w: W, items: seq<T>, n: nat)
    requires n <= |items| && SerialPrefix(f, w, items, n).failure.Some?
    ensures SerialPrefix(f, w, items, |items|) == SerialPrefix(f, w, items, n)
    decreases |items| - n
  {
    if n < |items| {
      SerialFailureSticks(f, w, items, n + 1);
    }
  }

  /** Once a stream has failed, later entries change nothing. */
  lemma {:induction false} ConsumeFailureSticks<T, R, E>(rs: seq<Result<R, Failure<T, E>>>, n: nat)
    requires n <= |rs| && Consume(rs, n).1.Some?
    ensures Consume(rs, |rs|) == Consume(rs, n)
    decreases |rs| - n
  {
    if n < |rs| {
      ConsumeFailureSticks(rs, n + 1);
    }
  }

  /** Serially, item `i` is invoked `i`-th and only after every earlier item
      succeeded: either all items are invoked and all results yielded, or the
      run stops right after the first item that raised, whose exception
      propagates unwrapped. */
  lemma {:induction false} SerialShape<W, T, R, E>(f: (W, T) -> (W, Result<R, E>), w: W, items: seq<T>, n: nat)
    requires n <= |items|
    ensures var o := SerialPrefix(f, w, items, n);
      && o.invoked == Iota(|o.invoked|)
      && (o.failure.None? ==> |o.invoked| == n && |o.yielded| == n)
      && (o.failure.Some? ==> |o.invoked| == |o.yielded| + 1 <= n && o.failure.value.Propagated? && o.failure.value.cause.Raised?)
  {
    if n > 0 {
      SerialShape(f, w, items, n - 1);
    }
  }

  /** A task that neither reads nor changes the world. */
  function Lift<W, T, R, E>(g: T -> Result<R, E>): (W, T) -> (W, Result<R, E>)
  {
    (w: W, t: T) => (w, g(t))
  }

  /** Serially, the results are the function's results on the items in input
      order, up to the first item that raises. */
  lemma {:induction false} SerialResults<W, T, R, E>(g: T -> Result<R, E>, w: W, items: seq<T>, n: nat)
    requires n <= |items|
    ensures var o := SerialPrefix(Lift(g), w, items, n);
      && |o.yielded| <= n
      && o.world == w
      && (forall i :: 0 <= i < |o.yielded| ==> g(items[i]) == Ok(o.yielded[i]))
      && (o.failure.None? ==> |o.yielded| == n)
      && (o.failure.Some? ==> |o.yielded| < n && g(items[|o.yielded|]).Err?
                              && o.failure == Some(Propagated(Raised(g(items[|o.yielded|]).error))))
  {
    if n > 0 {
      SerialResults(g, w, items, n - 1);
    }
  }

  /** A pool runs the function on every item, whatever fails. */
  lemma {:induction false} PoolResults<W, T, R, E>(g: T -> Result<R, E>, w: W, items: seq<T>, schedule: seq<nat>, n: nat)
    requires n <= |schedule| && forall j :: 0 <= j < |schedule| ==> schedule[j] < |items|
    requires forall j, k :: 0 <= j < k < |schedule| ==> schedule[j] != schedule[k]
    ensures var (w', results) := RunScheduled(Lift(g), w, items, schedule, n);
      && w' == w
      && forall j :: 0 <= j < n ==> results[schedule[j]] == Wrap(g(items[schedule[j]]))
  {
    if n > 0 {
      PoolResults(g, w, items, schedule, n - 1);
    }
  }

  /** Consuming a stream in item order sees what the serial branch sees. */
  lemma {:induction false} OrderedConsumeIsSerial<W, T, R, E>(g: T -> Result<R, E>, w: W, items: seq<T>,
                                                             rs: seq<Result<R, Failure<T, E>>>, n: nat)
    requires n <= |items| == |rs|
    requires forall i :: 0 <= i < |items| ==> rs[i] == (if g(items[i]).Ok? then Ok(g(items[i]).value) else Err(Propagated(Raised(g(items[i]).error))))
    ensures Consume(rs, n) == (SerialPrefix(Lift(g), w, items, n).yielded, SerialPrefix(Lift(g), w, items, n).failure)
  {
    if n > 0 {
      OrderedConsumeIsSerial(g, w, items, rs, n - 1);
      SerialResults(g, w, items, n - 1);
    }
  }

  /** A pool that is able to run the function (a thread pool, or a process pool
      with a picklable task): every item's task is invoked, in schedule
      order, and in ordered mode the consumer sees exactly what the serial
      branch would have yielded and raised. */
  lemma OrderedPoolIsSerial<W, T, R, E>(g: T -> Result<R, E>, portable: bool, w: W, items: seq<T>,
                                       mode: string, workers: Option<int>, cpuCount: Option<nat>, schedule: seq<nat>)
    requires IsSchedule(schedule, |items|)
    requires mode == "thread" || (mode == "process" && portable)
    requires workers.None? || workers.value > 0
    ensures var o := ExecuteSpec(Lift(g), portable, w, items, mode, workers, true, cpuCount, schedule);
      var s := SerialPrefix(Lift(g), w, items, |items|);
      && o.yielded == s.yielded && o.failure == s.failure
      && o.invoked == schedule && o.world == w
  {
    var (w', results) := RunScheduled(Lift(g), w, items, schedule, |items|);
    PoolResults(g, w, items, schedule, |items|);
    CoveredIndices(schedule, |items|, results);
    forall i | 0 <= i < |items|
      ensures results[i] == Wrap(g(items[i]))
    {
      assert i in schedule;
      var j :| 0 <= j < |schedule| && schedule[j] == i;
    }
    var rs := Stream(results, items, schedule, true);
    OrderedConsumeIsSerial(g, w, items, rs, |items|);
  }

  /** Consuming a stream in completion order: the values yielded are the
      results of the first tasks to complete, and a failure names the item
      whose task raised. */
  lemma {:induction false} UnorderedConsume<T, R, E>(g: T -> Result<R, E>, items: seq<T>, schedule: seq<nat>,
                                                    rs: seq<Result<R, Failure<T, E>>>, n: nat)
    requires IsSchedule(schedule, |items|) && n <= |items| == |rs|
    requires forall j :: 0 <= j < |items| ==> rs[j] == (if g(items[schedule[j]]).Ok? then Ok(g(items[schedule[j]]).value)
                                                        else Err(TaskFailed(items[schedule[j]], Raised(g(items[schedule[j]]).error))))
    ensures var (ys, failure) := Consume(rs, n);
      && |ys| <= n
      && (forall j :: 0 <= j < |ys| ==> g(items[schedule[j]]) == Ok(ys[j]))
      && (failure.None? ==> |ys| == n)
      && (failure.Some? ==>
            && |ys| < n
            && g(items[schedule[|ys|]]).Err?
            && failure == Some(TaskFailed(items[schedule[|ys|]], Raised(g(items[schedule[|ys|]]).error))))
  {
    if n > 0 {
      UnorderedConsume(g, items, schedule, rs, n - 1);
    }
  }

  /** In unordered mode the results are those of the calls in completion
      order: when no task raises they are the same multiset as the function's
      results on the items; when one does, the stream ends with a RuntimeError
      naming an item whose task raised. Every task is invoked either way. */
  lemma UnorderedPoolResults<W, T, R, E>(g: T -> Result<R, E>, portable: bool, w: W, items: seq<T>,
                                        mode: string, workers: Option<int>, cpuCount: Option<nat>, schedule: seq<nat>)
    requires IsSchedule(schedule, |items|)
    requires mode == "thread" || (mode == "process" && portable)
    requires workers.None? || workers.value > 0
    ensures var o := ExecuteSpec(Lift(g), portable, w, items, mode, workers, false, cpuCount, schedule);
      && o.invoked == schedule && o.world == w
      && (o.failure.Some? ==> exists i :: 0 <= i < |items| && g(items[i]).Err? && o.failure == Some(TaskFailed(items[i], Raised(g(items[i]).error))))
      && ((forall i :: 0 <= i < |items| ==> g(items[i]).Ok?) ==>
            o.failure.None? && multiset(o.yielded) == multiset(seq(|items|, i requires 0 <= i < |items| => g(items[i]).value)))
  {
    var (w', results) := RunScheduled(Lift(g), w, items, schedule, |items|);
    PoolResults(g, w, items, schedule, |items|);
    CoveredIndices(schedule, |items|, results);
    var rs := Stream(results, items, schedule, false);
    UnorderedConsume(g, items, schedule, rs, |items|);
    var o := ExecuteSpec(Lift(g), portable, w, items, mode, workers, false, cpuCount, schedule);
    if o.failure.Some? {
      var i := schedule[|o.yielded|];
      assert g(items[i]).Err? && o.failure == Some(TaskFailed(items[i], Raised(g(items[i]).error)));
    }
    if forall i :: 0 <= i < |items| ==> g(items[i]).Ok? {
      var v := seq(|items|, i requires 0 <= i < |items| => g(items[i]).value);
      assert o.yielded == Permute(v, schedule);
      PermutedMultiset(v, schedule);
    }
  }

  /** `v` read in the order `p` gives. */
  function Permute<R>(v: seq<R>, p: seq<nat>): (r: seq<R>)
    requires forall j :: 0 <= j < |p| ==> p[j] < |v|
    ensures |r| == |p| && forall j :: 0 <= j < |p| ==> r[j] == v[p[j]]
  {
    seq(|p|, j requires 0 <= j < |p| => v[p[j]])
  }

  /** Reordering a sequence by a permutation keeps its multiset. */
  lemma {:induction false} PermutedMultiset<R>(v: seq<R>, p: seq<nat>)
    requires IsSchedule(p, |v|)
    ensures multiset(Permute(v, p)) == multiset(v)
    decreases |v|
  {
    if |v| > 0 {
      var a, b := SplitAtLast(p);
      PermutedMultiset(v[..|v| - 1], a + b);
      PermuteLast(v, a, b);
    }
  }

  /** A schedule is some schedule of the other indices with the last index
      put in somewhere. */
  lemma SplitAtLast(p: seq<nat>) returns (a: seq<nat>, b: seq<nat>)
    requires |p| > 0 && IsSchedule(p, |p|)
    ensures p == a + [|p| - 1] + b
    ensures IsSchedule(a + b, |p| - 1)
    ensures forall j :: 0 <= j < |a| ==> a[j] < |p| - 1
    ensures forall j :: 0 <= j < |b| ==> b[j] < |p| - 1
  {
    var n := |p|;
    assert n - 1 in p;
    var m :| 0 <= m < n && p[m] == n - 1;
    a, b := p[..m], p[m + 1..];
    DropLast(p, m);
    assert p == a + [n - 1] + b;
    assert forall j :: 0 <= j < |a| ==> a[j] == (a + b)[j];
    assert forall j :: 0 <= j < |b| ==> b[j] == (a + b)[|a| + j];
  }

  /** The step of `PermutedMultiset`: putting the last element back in. */
  lemma PermuteLast<R>(v: seq<R>, a: seq<nat>, b: seq<nat>)
    requires |v| > 0
    requires forall j :: 0 <= j < |a| ==> a[j] < |v| - 1
    requires forall j :: 0 <= j < |b| ==> b[j] < |v| - 1
    requires forall j :: 0 <= j < |a + b| ==> (a + b)[j] < |v| - 1
    requires multiset(Permute(v[..|v| - 1], a + b)) == multiset(v[..|v| - 1])
    ensures multiset(Permute(v, a + [|v| - 1] + b)) == multiset(v)
  {
    var n := |v|;
    var v' := v[..n - 1];
    PermuteSplit(v, v', a, b);
    PermuteSplit(v, v, a + [n - 1], b);
    PermuteSplit(v, v, a, [n - 1]);
    var A, L, B := Permute(v, a), Permute(v, [n - 1]), Permute(v, b);
    assert L == [v[n - 1]];
    assert Permute(v, a + [n - 1] + b) == A + L + B;
    assert multiset(A + L + B) == multiset(A) + multiset(L) + multiset(B);
    assert multiset(Permute(v', a + b)) == multiset(A) + multiset(B);
    assert v == v' + L;
    assert multiset(v) == multiset(v') + multiset(L);
  }

  /** Taking the last index out of a schedule leaves a schedule of the rest. */
  lemma DropLast(p: seq<nat>, m: nat)
    requires 0 <= m < |p| && IsSchedule(p, |p|) && p[m] == |p| - 1
    ensures IsSchedule(p[..m] + p[m + 1..], |p| - 1)
  {
    var n := |p|;
    var p' := p[..m] + p[m + 1..];
    assert forall j :: 0 <= j < n - 1 ==> p'[j] == (if j < m then p[j] else p[j + 1]);
    forall i | 0 <= i < n - 1 ensures i in p' {
      assert i in p;
      var j :| 0 <= j < n && p[j] == i;
      if j < m { assert p'[j] == i; } else { assert p'[j - 1] == i; }
    }
  }

  /** Reading `v` along `a + b` reads along `a`, then along `b`; and indices
      below `|u|` read the same in `v` as in its prefix `u`. */
  lemma PermuteSplit<R>(v: seq<R>, u: seq<R>, a: seq<nat>, b: seq<nat>)
    requires |u| <= |v| && u == v[..|u|]
    requires forall j :: 0 <= j < |a| ==> a[j] < |u|
    requires forall j :: 0 <= j < |b| ==> b[j] < |u|
    ensures Permute(u, a + b) == Permute(v, a) + Permute(v, b)
  {
    var l, r := Permute(u, a + b), Permute(v, a) + Permute(v, b);
    forall j | 0 <= j < |l| ensures l[j] == r[j] {
      if j < |a| {
        assert (a + b)[j] == a[j];
      } else {
        assert (a + b)[j] == b[j - |a|];
      }
    }
  }

  /** A full schedule that reaches every index covers all of them. */
  lemma CoveredIndices<X>(schedule: seq<nat>, n: nat, m: map<nat, X>)
    requires IsSchedule(schedule, n)
    requires forall j :: 0 <= j < n ==> schedule[j] in m
    ensures forall i :: 0 <= i < n ==> i in m
  {
    forall i | 0 <= i < n ensures i in m {
      assert i in schedule;
    }
  }

  /** A process pool given a task it cannot pickle runs no task at all: the
      stream ends at once with the pickling error, in ordered mode as it is
      and in unordered mode wrapped with the first item. */
  lemma UnpicklableRunsNothing<W, T, R, E>(f: (W, T) -> (W, Result<R, E>), w: W, items: seq<T>,
                                           workers: Option<int>, ordered: bool, cpuCount: Option<nat>, schedule: seq<nat>)
    requires IsSchedule(schedule, |items|) && |items| > 0
    requires workers.None? || workers.value > 0
    ensures var o := ExecuteSpec(f, false, w, items, "process", workers, ordered, cpuCount, schedule);
      && o.world == w && o.invoked == [] && o.yielded == []
      && o.failure == Some(if ordered then Propagated(NotPicklable) else TaskFailed(items[schedule[0]], NotPicklable))
  {
    var rs := Stream(Unpicklable<R, E>(|items|), items, schedule, ordered);
    assert Consume(rs, 1).1.Some?;
    ConsumeFailureSticks(rs, 1);
  }
}
