// The check queue of src/checkqueue.h as a state machine. One step is one region executed under the
// mutex, or the execution of one batch outside it. Thread 0 is the master; the others are workers.
//
// Condition variables may wake a waiting thread at any time, so a wake-up is a step that needs no
// notification; whether the master has been notified is recorded to state that it is never forgotten.
module CheckQueues {

  datatype Option<T> = None | Some(value: T)

  /** Where a thread is in Loop. */
  datatype Place<C> =
    | Outside                              // not in Loop (workers before they start, the master between calls)
    | Entering                             // has called Loop, has not yet taken the mutex
    | Waiting(notified: bool)              // blocked on its condition variable
    | Working(batch: seq<C>, doWork: bool) // holds a batch that has not been executed
    | Finished(batch: seq<C>, doWork: bool) // has gone through its batch, will take the mutex again
  {
    function Batch(): seq<C> { if Working? || Finished? then batch else [] }
  }

  /** A thread with its variable local_result, which survives from one batch to the next. */
  datatype Thread<C, R> = Thread(place: Place<C>, local: Option<R>)

  /** What one call of Complete returned, for which checks, and which of them were invoked. */
  datatype Session<C, R> = Session(checks: seq<C>, ran: multiset<C>, result: Option<R>)

  datatype State<C, R> = State(
    queue: seq<C>, nIdle: int, nTotal: int, nTodo: int, result: Option<R>, threads: seq<Thread<C, R>>,
    // The checks added since Complete last returned, those accounted for, those invoked, and the log of sessions.
    checks: seq<C>, done: multiset<C>, ran: multiset<C>, log: seq<Session<C, R>>)

  /** The queue, the checks and the outcome each check has when it is invoked. */
  datatype Config<!C, !R> = Config(batchSize: nat, run: C -> Option<R>)

  // ---------------------------------------------------------------- steps

  function Init<C, R>(workers: nat): State<C, R> {
    State([], 0, 0, 0, None, seq(workers + 1, i => Thread(if i == 0 then Outside else Entering, None)), [], multiset{}, multiset{}, [])
  }

  /** The master adds a batch of checks; an empty one changes nothing. */
  function Add<C, R>(s: State<C, R>, cs: seq<C>): State<C, R> {
    s.(queue := s.queue + cs, nTodo := s.nTodo + |cs|, checks := s.checks + cs)
  }

  /** The master calls Complete. */
  function Call<C, R>(s: State<C, R>): State<C, R>
    requires s.threads != []
  {
    s.(threads := s.threads[0 := Thread(Entering, None)])
  }

  function Max(a: int, b: int): int { if a < b then b else a }

  function Min(a: int, b: int): int { if a < b then a else b }

  /** How many checks a thread takes from a queue of the given length. */
  function BatchSize(batchSize: nat, length: nat, nTotal: int, nIdle: int): (n: nat)
    requires nTotal + nIdle + 1 > 0 && length > 0
    ensures 1 <= n <= length && n <= Max(1, batchSize)
  {
    DivNoLarger(length, nTotal + nIdle + 1);
    Max(1, Min(batchSize, length / (nTotal + nIdle + 1)))
  }

  lemma DivNoLarger(a: nat, b: nat)
    requires b > 0
    ensures 0 <= a / b <= a
  {
    NoSmaller(b, a / b);
  }

  lemma {:induction false} NoSmaller(b: nat, q: nat)
    requires b > 0
    ensures b * q >= q
  {
    if b > 1 {
      NoSmaller(b - 1, q);
      assert b * q == (b - 1) * q + q;
    }
  }

  /** The part of a critical section after the clean-up: return, wait, or take a batch from the back of the queue. */
  function Proceed<C, R>(k: Config<C, R>, s: State<C, R>, t: nat): State<C, R>
    requires t < |s.threads| && s.nTotal + s.nIdle + 1 > 0
  {
    var th := s.threads[t];
    if s.queue == [] then
      if t == 0 && s.nTodo == 0 then
        s.(nTotal := s.nTotal - 1, result := None, threads := s.threads[0 := Thread(Outside, None)],
           checks := [], done := multiset{}, ran := multiset{}, log := s.log + [Session(s.checks, s.ran, s.result)])
      else
        s.(nIdle := s.nIdle + 1, threads := s.threads[t := th.(place := Waiting(false))])
    else
      var n := BatchSize(k.batchSize, |s.queue|, s.nTotal, s.nIdle);
      var rest := |s.queue| - n;
      s.(queue := s.queue[..rest], threads := s.threads[t := th.(place := Working(s.queue[rest..], s.result.None?))])
  }

  /** First iteration of Loop. */
  function Enter<C, R>(k: Config<C, R>, s: State<C, R>, t: nat): State<C, R>
    requires t < |s.threads| && s.nTotal + 1 + s.nIdle + 1 > 0
  {
    Proceed(k, s.(nTotal := s.nTotal + 1), t)
  }

  /** A waiting thread wakes up and looks at the queue again. */
  function Wake<C, R>(k: Config<C, R>, s: State<C, R>, t: nat): State<C, R>
    requires t < |s.threads| && s.nTotal + s.nIdle > 0
  {
    Proceed(k, Woken(s, t), t)
  }

  function Woken<C, R>(s: State<C, R>, t: nat): State<C, R>
    requires t < |s.threads|
  {
    s.(nIdle := s.nIdle - 1, threads := s.threads[t := s.threads[t].(place := Entering)])
  }

  /** The first outcome that is an error, if any. */
  function FirstError<C, R>(k: Config<C, R>, batch: seq<C>): Option<R> {
    if batch == [] then None
    else if k.run(batch[0]).Some? then k.run(batch[0])
    else FirstError(k, batch[1..])
  }

  /** The checks invoked when a batch is executed: up to and including the first that fails. */
  function Invoked<C, R>(k: Config<C, R>, batch: seq<C>): multiset<C> {
    if batch == [] then multiset{}
    else if k.run(batch[0]).Some? then multiset{batch[0]}
    else multiset{batch[0]} + Invoked(k, batch[1..])
  }

  /** A thread goes through its batch outside the mutex. */
  function Execute<C, R>(k: Config<C, R>, s: State<C, R>, t: nat): State<C, R>
    requires t < |s.threads| && s.threads[t].place.Working?
  {
    var p := s.threads[t].place;
    var local := if p.doWork then FirstError(k, p.batch) else s.threads[t].local;
    s.(ran := if p.doWork then s.ran + Invoked(k, p.batch) else s.ran,
       threads := s.threads[t := Thread(Finished(p.batch, p.doWork), local)])
  }

  /** Hands the local result over if there is none yet; the two are swapped. */
  function Deliver<C, R>(s: State<C, R>, t: nat): State<C, R>
    requires t < |s.threads| && s.threads[t].place.Finished?
  {
    var th := s.threads[t];
    var swap := th.local.Some? && s.result.None?;
    var nTodo := s.nTodo - |th.place.batch|;
    var threads := s.threads[t := Thread(Entering, if swap then s.result else th.local)];
    // A worker that processed the last check notifies the master.
    var notify := nTodo == 0 && t != 0 && threads[0].place.Waiting?;
    s.(result := if swap then th.local else s.result, nTodo := nTodo, done := s.done + multiset(th.place.batch),
       threads := if notify then threads[0 := threads[0].(place := Waiting(true))] else threads)
  }

  /** Clean-up of a finished batch and what follows it in the same critical section. */
  function CleanUp<C, R>(k: Config<C, R>, s: State<C, R>, t: nat): State<C, R>
    requires t < |s.threads| && s.threads[t].place.Finished? && s.nTotal + s.nIdle + 1 > 0
  {
    Proceed(k, Deliver(s, t), t)
  }

  datatype Step<C> = AddStep(cs: seq<C>) | CallStep | EnterStep(t: nat) | WakeStep(t: nat) | ExecuteStep(t: nat) | CleanUpStep(t: nat)

  ghost predicate Enabled<C, R>(s: State<C, R>, step: Step<C>) {
    match step
    case AddStep(_) => s.threads != [] && s.threads[0].place.Outside?
    case CallStep => s.threads != [] && s.threads[0].place.Outside?
    case EnterStep(t) => t < |s.threads| && s.threads[t].place.Entering?
    case WakeStep(t) => t < |s.threads| && s.threads[t].place.Waiting?
    case ExecuteStep(t) => t < |s.threads| && s.threads[t].place.Working?
    case CleanUpStep(t) => t < |s.threads| && s.threads[t].place.Finished?
  }

  // ---------------------------------------------------------------- totals over threads

  /** All checks in the batches of threads. */
  function InFlight<C, R>(ts: seq<Thread<C, R>>): multiset<C> {
    if ts == [] then multiset{} else multiset(ts[0].place.Batch()) + InFlight(ts[1..])
  }

  function ByThread<C, R>(k: Config<C, R>, t: Thread<C, R>): multiset<C> {
    if t.place.Finished? && t.place.doWork then Invoked(k, t.place.batch) else multiset{}
  }

  /** All checks invoked by threads that have not yet cleaned up. */
  function InvokedBy<C, R>(k: Config<C, R>, ts: seq<Thread<C, R>>): multiset<C> {
    if ts == [] then multiset{} else ByThread(k, ts[0]) + InvokedBy(k, ts[1..])
  }

  function One<C, R>(t: Thread<C, R>, waiting: bool): nat {
    if waiting then (if t.place.Waiting? then 1 else 0)
    else (if t.place.Working? || t.place.Finished? then 1 else 0)
  }

  /** Number of threads in Loop that wait, or that hold a batch. */
  function Count<C, R>(ts: seq<Thread<C, R>>, waiting: bool): nat {
    if ts == [] then 0 else One(ts[0], waiting) + Count(ts[1..], waiting)
  }

  lemma CancelRight<C>(a: multiset<C>, b: multiset<C>, c: multiset<C>)
    requires a + c == b + c
    ensures a == b
  {
    forall x ensures a[x] == b[x] { assert (a + c)[x] == a[x] + c[x] && (b + c)[x] == b[x] + c[x]; }
  }

  lemma AddLeft<C>(m: multiset<C>, a: multiset<C>, b: multiset<C>, c: multiset<C>, d: multiset<C>)
    requires a + b == c + d
    ensures (m + a) + b == (m + c) + d
  {
    assert (m + a) + b == m + (a + b);
    assert (m + c) + d == m + (c + d);
  }

  lemma {:induction false} InFlightUpdate<C, R>(ts: seq<Thread<C, R>>, i: nat, x: Thread<C, R>)
    requires i < |ts|
    ensures InFlight(ts[i := x]) + multiset(ts[i].place.Batch()) == InFlight(ts) + multiset(x.place.Batch())
  {
    var us := ts[i := x];
    if i == 0 {
      assert us[1..] == ts[1..];
    } else {
      InFlightUpdate(ts[1..], i - 1, x);
      assert us[1..] == ts[1..][i - 1 := x];
      AddLeft(multiset(ts[0].place.Batch()), InFlight(us[1..]), multiset(ts[i].place.Batch()), InFlight(ts[1..]), multiset(x.place.Batch()));
    }
  }

  lemma {:induction false} InvokedUpdate<C, R>(k: Config<C, R>, ts: seq<Thread<C, R>>, i: nat, x: Thread<C, R>)
    requires i < |ts|
    ensures InvokedBy(k, ts[i := x]) + ByThread(k, ts[i]) == InvokedBy(k, ts) + ByThread(k, x)
  {
    var us := ts[i := x];
    if i == 0 {
      assert us[1..] == ts[1..];
    } else {
      InvokedUpdate(k, ts[1..], i - 1, x);
      assert us[1..] == ts[1..][i - 1 := x];
      AddLeft(ByThread(k, ts[0]), InvokedBy(k, us[1..]), ByThread(k, ts[i]), InvokedBy(k, ts[1..]), ByThread(k, x));
    }
  }

  lemma {:induction false} CountUpdate<C, R>(ts: seq<Thread<C, R>>, i: nat, x: Thread<C, R>, waiting: bool)
    requires i < |ts|
    ensures Count(ts[i := x], waiting) + One(ts[i], waiting) == Count(ts, waiting) + One(x, waiting)
  {
    var us := ts[i := x];
    if i == 0 {
      assert us[1..] == ts[1..];
    } else {
      CountUpdate(ts[1..], i - 1, x, waiting);
      assert us[1..] == ts[1..][i - 1 := x];
    }
  }

  lemma {:induction false} InFlightHas<C, R>(ts: seq<Thread<C, R>>, i: nat)
    requires i < |ts|
    ensures multiset(ts[i].place.Batch()) <= InFlight(ts)
  {
    if i > 0 { InFlightHas(ts[1..], i - 1); }
  }

  lemma {:induction false} CountZero<C, R>(ts: seq<Thread<C, R>>)
    requires forall i :: 0 <= i < |ts| ==> ts[i].place.Batch() == []
    ensures InFlight(ts) == multiset{}
  {
    if ts != [] {
      assert ts[0].place.Batch() == [];
      forall i | 0 <= i < |ts[1..]| ensures ts[1..][i].place.Batch() == [] { assert ts[1..][i] == ts[i + 1]; }
      CountZero(ts[1..]);
    }
  }

  // ---------------------------------------------------------------- the invariant

  /** A session is right: no result exactly when all its checks were invoked and passed, otherwise an error of one of them. */
  ghost predicate Right<C, R>(k: Config<C, R>, e: Session<C, R>) {
    && (e.result.None? <==> e.ran == multiset(e.checks) && forall c :: c in e.checks ==> k.run(c).None?)
    && (e.result.Some? ==> exists c :: c in e.checks && k.run(c) == e.result)
  }

  ghost predicate LogOk<C, R>(k: Config<C, R>, log: seq<Session<C, R>>) {
    forall i :: 0 <= i < |log| ==> Right(k, log[i])
  }

  /** A thread's own state: a batch is not empty; after work the local result is that of the batch. */
  ghost predicate ThreadOk<C, R>(k: Config<C, R>, t: Thread<C, R>, result: Option<R>) {
    && (t.place.Working? || t.place.Finished? ==> t.place.batch != [] && (!t.place.doWork ==> result.Some?))
    && (t.place.Finished? && t.place.doWork ==> t.local == FirstError(k, t.place.batch))
  }

  ghost predicate ThreadsOk<C, R>(k: Config<C, R>, s: State<C, R>) {
    forall i :: 0 <= i < |s.threads| ==> ThreadOk(k, s.threads[i], s.result)
  }

  /** Every check of the session is queued, in a batch, or done, and nTodo counts those not done. */
  ghost predicate Accounted<C, R>(s: State<C, R>) {
    && multiset(s.checks) == multiset(s.queue) + InFlight(s.threads) + s.done
    && s.nTodo == |s.queue| + |InFlight(s.threads)|
  }

  /** As long as there is no result, everything done was invoked and passed; a result is that of a check of the session. */
  ghost predicate ResultOk<C, R>(k: Config<C, R>, s: State<C, R>) {
    && (s.result.None? ==> s.ran == s.done + InvokedBy(k, s.threads) && forall c :: c in s.done ==> k.run(c).None?)
    && (s.result.Some? ==> exists c :: c in s.checks && k.run(c) == s.result)
  }

  /** A waiting master has an empty queue before it, and has been notified if nothing is left to do. */
  ghost predicate MasterOk<C, R>(s: State<C, R>) {
    s.threads != [] && (s.threads[0].place.Waiting? ==> s.queue == [] && (s.threads[0].place.notified || s.nTodo > 0))
  }

  ghost predicate Counted<C, R>(s: State<C, R>, inside: int) {
    s.nIdle == Count(s.threads, true) && s.nTotal == Count(s.threads, true) + Count(s.threads, false) + inside
  }

  ghost predicate Base<C, R>(k: Config<C, R>, s: State<C, R>) {
    LogOk(k, s.log) && ThreadsOk(k, s) && Accounted(s) && ResultOk(k, s) && MasterOk(s)
  }

  ghost predicate Inv<C, R>(k: Config<C, R>, s: State<C, R>) {
    Base(k, s) && Counted(s, 0)
  }

  /** Inside a critical section, between the clean-up and what follows: thread t holds nothing. */
  ghost predicate Mid<C, R>(k: Config<C, R>, s: State<C, R>, t: nat) {
    Base(k, s) && Counted(s, 1) && t < |s.threads| && s.threads[t].place.Entering?
  }

  lemma {:induction false} InitTotals<C, R>(k: Config<C, R>, ts: seq<Thread<C, R>>)
    requires forall i :: 0 <= i < |ts| ==> ts[i].place.Outside? || ts[i].place.Entering?
    ensures InFlight(ts) == multiset{} && InvokedBy(k, ts) == multiset{} && Count(ts, true) == 0 == Count(ts, false)
  {
    if ts != [] {
      forall i | 0 <= i < |ts[1..]| ensures ts[1..][i].place.Outside? || ts[1..][i].place.Entering? { assert ts[1..][i] == ts[i + 1]; }
      InitTotals(k, ts[1..]);
    }
  }

  lemma InitInv<C, R>(k: Config<C, R>, workers: nat)
    ensures Inv(k, Init<C, R>(workers))
  {
    InitTotals(k, Init<C, R>(workers).threads);
  }

  lemma AddInv<C, R>(k: Config<C, R>, s: State<C, R>, cs: seq<C>)
    requires Inv(k, s) && s.threads[0].place.Outside?
    ensures Inv(k, Add(s, cs))
  {
    assert multiset(s.queue + cs) == multiset(s.queue) + multiset(cs);
    assert multiset(s.checks + cs) == multiset(s.checks) + multiset(cs);
    if s.result.Some? {
      var c :| c in s.checks && k.run(c) == s.result;
      assert c in s.checks + cs;
    }
  }

  /** Replaces a thread by one with the same batch and invoked checks. */
  lemma SameTotals<C, R>(k: Config<C, R>, ts: seq<Thread<C, R>>, t: nat, x: Thread<C, R>)
    requires t < |ts| && ts[t].place.Batch() == x.place.Batch() && ByThread(k, ts[t]) == ByThread(k, x)
    ensures InFlight(ts[t := x]) == InFlight(ts) && InvokedBy(k, ts[t := x]) == InvokedBy(k, ts)
  {
    InFlightUpdate(ts, t, x);
    InvokedUpdate(k, ts, t, x);
    CancelRight(InFlight(ts[t := x]), InFlight(ts), multiset(x.place.Batch()));
    CancelRight(InvokedBy(k, ts[t := x]), InvokedBy(k, ts), ByThread(k, x));
  }

  lemma CallInv<C, R>(k: Config<C, R>, s: State<C, R>)
    requires Inv(k, s) && s.threads[0].place.Outside?
    ensures Inv(k, Call(s))
  {
    var x := Thread(Entering, None);
    SameTotals(k, s.threads, 0, x);
    CountUpdate(s.threads, 0, x, true);
    CountUpdate(s.threads, 0, x, false);
  }

  lemma EnterMid<C, R>(k: Config<C, R>, s: State<C, R>, t: nat)
    requires Inv(k, s) && t < |s.threads| && s.threads[t].place.Entering?
    ensures Mid(k, s.(nTotal := s.nTotal + 1), t)
  {}

  lemma WokenMid<C, R>(k: Config<C, R>, s: State<C, R>, t: nat)
    requires Inv(k, s) && t < |s.threads| && s.threads[t].place.Waiting?
    ensures Mid(k, Woken(s, t), t)
  {
    var x := s.threads[t].(place := Entering);
    SameTotals(k, s.threads, t, x);
    CountUpdate(s.threads, t, x, true);
    CountUpdate(s.threads, t, x, false);
  }

  // ---------------------------------------------------------------- executing a batch

  lemma {:induction false} FirstErrorOf<C, R>(k: Config<C, R>, batch: seq<C>)
    ensures FirstError(k, batch).None? ==> Invoked(k, batch) == multiset(batch) && forall c :: c in batch ==> k.run(c).None?
    ensures FirstError(k, batch).Some? ==> exists c :: c in batch && k.run(c) == FirstError(k, batch)
  {
    if batch != [] {
      FirstErrorOf(k, batch[1..]);
      assert batch == [batch[0]] + batch[1..];
      if k.run(batch[0]).None? && FirstError(k, batch).Some? {
        var c :| c in batch[1..] && k.run(c) == FirstError(k, batch[1..]);
        assert c in batch;
      }
    }
  }

  lemma ExecuteInv<C, R>(k: Config<C, R>, s: State<C, R>, t: nat)
    requires Inv(k, s) && t < |s.threads| && s.threads[t].place.Working?
    ensures Inv(k, Execute(k, s, t))
  {
    hide Right, FirstError, Invoked, InFlight, InvokedBy, Count, ByThread;
    var s' := Execute(k, s, t);
    var x := s'.threads[t];
    assert ThreadOk(k, s.threads[t], s.result);
    ExecuteTotals(k, s.threads, t, x);
    assert s.ran == s.done + InvokedBy(k, s.threads) ==> s.ran + ByThread(k, x) == s.done + InvokedBy(k, s'.threads);
    assert s'.result.None? ==> s'.ran == s.ran + ByThread(k, x) by { ExecuteRan(k, s, t); }
    forall i | 0 <= i < |s'.threads| ensures ThreadOk(k, s'.threads[i], s'.result) { if i != t { assert ThreadOk(k, s.threads[i], s.result); } }
  }

  lemma ExecuteRan<C, R>(k: Config<C, R>, s: State<C, R>, t: nat)
    requires t < |s.threads| && s.threads[t].place.Working?
    ensures Execute(k, s, t).ran == s.ran + ByThread(k, Execute(k, s, t).threads[t])
  {}

  lemma ExecuteTotals<C, R>(k: Config<C, R>, ts: seq<Thread<C, R>>, t: nat, x: Thread<C, R>)
    requires t < |ts| && ts[t].place.Working? && x.place == Finished(ts[t].place.batch, ts[t].place.doWork)
    ensures InFlight(ts[t := x]) == InFlight(ts) && InvokedBy(k, ts[t := x]) == InvokedBy(k, ts) + ByThread(k, x)
    ensures Count(ts[t := x], true) == Count(ts, true) && Count(ts[t := x], false) == Count(ts, false)
  {
    InFlightUpdate(ts, t, x);
    CancelRight(InFlight(ts[t := x]), InFlight(ts), multiset(x.place.Batch()));
    InvokedUpdate(k, ts, t, x);
    CountUpdate(ts, t, x, true);
    CountUpdate(ts, t, x, false);
  }

  // ---------------------------------------------------------------- cleaning up

  /** Delivering a local result installs one of this session, never one left over from an earlier one. */
  lemma DeliverMid<C, R>(k: Config<C, R>, s: State<C, R>, t: nat)
    requires Inv(k, s) && t < |s.threads| && s.threads[t].place.Finished?
    ensures Mid(k, Deliver(s, t), t)
  {
    hide Right, FirstError, Invoked, ResultOk, Accounted, InFlight, InvokedBy, Count;
    var th := s.threads[t];
    var swap := th.local.Some? && s.result.None?;
    var x := Thread(Entering, if swap then s.result else th.local);
    var ts := s.threads[t := x];
    assert ThreadOk(k, th, s.result);
    DeliverTotals(k, s.threads, t, x);
    var s1 := s.(result := if swap then th.local else s.result, nTodo := s.nTodo - |th.place.batch|,
                 done := s.done + multiset(th.place.batch), threads := ts);
    DeliverAccounted(s, t, s1);
    DeliverResult(k, s, t, s1);
    forall i | 0 <= i < |ts| ensures ThreadOk(k, ts[i], s1.result) { if i != t { assert ThreadOk(k, s.threads[i], s.result); } }
    if s.threads[0].place.Waiting? { assert t != 0; }
    Notified(k, s1, t, Deliver(s, t));
  }

  lemma DeliverAccounted<C, R>(s: State<C, R>, t: nat, s': State<C, R>)
    requires Accounted(s) && t < |s.threads| && s.threads[t].place.Finished?
    requires s'.queue == s.queue && s'.checks == s.checks && s'.nTodo == s.nTodo - |s.threads[t].place.batch|
    requires s'.done == s.done + multiset(s.threads[t].place.batch)
    requires InFlight(s'.threads) + multiset(s.threads[t].place.batch) == InFlight(s.threads)
    ensures Accounted(s')
  {
    hide InFlight;
    var b := multiset(s.threads[t].place.batch);
    assert |InFlight(s.threads)| == |InFlight(s'.threads)| + |b|;
    assert multiset(s.queue) + (InFlight(s'.threads) + b) + s.done == multiset(s.queue) + InFlight(s'.threads) + (s.done + b);
  }

  lemma DeliverResult<C, R>(k: Config<C, R>, s: State<C, R>, t: nat, s': State<C, R>)
    requires ResultOk(k, s) && Accounted(s) && t < |s.threads| && s.threads[t].place.Finished? && ThreadOk(k, s.threads[t], s.result)
    requires s'.checks == s.checks && s'.ran == s.ran && s'.done == s.done + multiset(s.threads[t].place.batch)
    requires s'.result == if s.threads[t].local.Some? && s.result.None? then s.threads[t].local else s.result
    requires InvokedBy(k, s'.threads) + ByThread(k, s.threads[t]) == InvokedBy(k, s.threads)
    ensures ResultOk(k, s')
  {
    hide FirstError, Invoked, InFlight, InvokedBy;
    var th := s.threads[t];
    var batch := th.place.batch;
    FirstErrorOf(k, batch);
    if s.result.None? {
      assert th.place.doWork && th.local == FirstError(k, batch);
      if th.local.Some? {
        var c :| c in batch && k.run(c) == th.local;
        InFlightHas(s.threads, t);
        BatchInSession(s, t, c);
      } else {
        assert s.done + (InvokedBy(k, s'.threads) + multiset(batch)) == s'.done + InvokedBy(k, s'.threads);
        forall c | c in s'.done ensures k.run(c).None? { assert c in s.done || c in multiset(batch); }
      }
    }
  }

  lemma BatchInSession<C, R>(s: State<C, R>, t: nat, c: C)
    requires Accounted(s) && t < |s.threads| && c in s.threads[t].place.Batch()
    ensures c in s.checks
  {
    InFlightHas(s.threads, t);
    assert c in multiset(s.threads[t].place.Batch());
    assert c in InFlight(s.threads);
    assert c in multiset(s.checks);
  }

  lemma DeliverTotals<C, R>(k: Config<C, R>, ts: seq<Thread<C, R>>, t: nat, x: Thread<C, R>)
    requires t < |ts| && ts[t].place.Finished? && x.place.Entering?
    ensures InFlight(ts[t := x]) + multiset(ts[t].place.batch) == InFlight(ts)
    ensures InvokedBy(k, ts[t := x]) + ByThread(k, ts[t]) == InvokedBy(k, ts)
    ensures Count(ts[t := x], true) == Count(ts, true) && Count(ts[t := x], false) + 1 == Count(ts, false)
  {
    InFlightUpdate(ts, t, x);
    InvokedUpdate(k, ts, t, x);
    CountUpdate(ts, t, x, true);
    CountUpdate(ts, t, x, false);
  }

  /** Notifying the master changes nothing but its flag. */
  lemma Notified<C, R>(k: Config<C, R>, s: State<C, R>, t: nat, s': State<C, R>)
    requires LogOk(k, s.log) && ThreadsOk(k, s) && Accounted(s) && ResultOk(k, s) && Counted(s, 1)
    requires t < |s.threads| && s.threads[t].place.Entering?
    requires s.threads[0].place.Waiting? ==> s.queue == []
    requires s' == if s.nTodo == 0 && t != 0 && s.threads[0].place.Waiting?
                   then s.(threads := s.threads[0 := s.threads[0].(place := Waiting(true))]) else s
    requires s.threads[0].place.Waiting? && !s.threads[0].place.notified ==> s.nTodo > 0 || t != 0
    ensures Mid(k, s', t)
  {
    var x := s.threads[0].(place := Waiting(true));
    if s.nTodo == 0 && t != 0 && s.threads[0].place.Waiting? {
      SameTotals(k, s.threads, 0, x);
      CountUpdate(s.threads, 0, x, true);
      CountUpdate(s.threads, 0, x, false);
    }
  }

  // ---------------------------------------------------------------- proceeding

  lemma ProceedInv<C, R>(k: Config<C, R>, s: State<C, R>, t: nat)
    requires Mid(k, s, t)
    ensures s.nTotal + s.nIdle + 1 > 0 && Inv(k, Proceed(k, s, t))
  {
    hide Base, Inv, Count, InFlight, InvokedBy, BatchSize;
    if s.queue == [] && t == 0 && s.nTodo == 0 {
      ReturnInv(k, s);
    } else if s.queue == [] {
      WaitInv(k, s, t);
    } else {
      TakeInv(k, s, t);
    }
  }

  lemma WaitInv<C, R>(k: Config<C, R>, s: State<C, R>, t: nat)
    requires Mid(k, s, t) && s.queue == [] && (t != 0 || s.nTodo != 0) && s.nTotal + s.nIdle + 1 > 0
    ensures Inv(k, Proceed(k, s, t))
  {
    hide Right, FirstError, Invoked, BatchSize, InFlight, InvokedBy;
    var x := s.threads[t].(place := Waiting(false));
    SameTotals(k, s.threads, t, x);
    CountUpdate(s.threads, t, x, true);
    CountUpdate(s.threads, t, x, false);
    assert Proceed(k, s, t).threads == s.threads[t := x];
  }

  lemma TakeInv<C, R>(k: Config<C, R>, s: State<C, R>, t: nat)
    requires Mid(k, s, t) && s.queue != [] && s.nTotal + s.nIdle + 1 > 0
    ensures Inv(k, Proceed(k, s, t))
  {
    hide Right, FirstError, Invoked, BatchSize, InFlight, InvokedBy, Count, Accounted;
    var s' := Proceed(k, s, t);
    var x := s'.threads[t];
    TakeTotals(k, s.threads, t, x);
    TakeAccounted(s, x.place.batch, s');
    forall i | 0 <= i < |s'.threads| ensures ThreadOk(k, s'.threads[i], s'.result) { if i != t { assert ThreadOk(k, s.threads[i], s.result); } }
  }

  lemma TakeTotals<C, R>(k: Config<C, R>, ts: seq<Thread<C, R>>, t: nat, x: Thread<C, R>)
    requires t < |ts| && ts[t].place.Entering? && x.place.Working?
    ensures InFlight(ts[t := x]) == InFlight(ts) + multiset(x.place.batch) && InvokedBy(k, ts[t := x]) == InvokedBy(k, ts)
    ensures Count(ts[t := x], true) == Count(ts, true) && Count(ts[t := x], false) == Count(ts, false) + 1
  {
    InFlightUpdate(ts, t, x);
    InvokedUpdate(k, ts, t, x);
    CancelRight(InvokedBy(k, ts[t := x]), InvokedBy(k, ts), multiset{});
    CountUpdate(ts, t, x, true);
    CountUpdate(ts, t, x, false);
  }

  lemma TakeAccounted<C, R>(s: State<C, R>, batch: seq<C>, s': State<C, R>)
    requires Accounted(s) && s.queue == s'.queue + batch && s'.checks == s.checks && s'.done == s.done && s'.nTodo == s.nTodo
    requires InFlight(s'.threads) == InFlight(s.threads) + multiset(batch)
    ensures Accounted(s')
  {
    hide InFlight;
    assert multiset(s.queue) == multiset(s'.queue) + multiset(batch);
  }

  /** When Complete returns, every check of the session is done, and the session is right. */
  lemma ReturnInv<C, R>(k: Config<C, R>, s: State<C, R>)
    requires Mid(k, s, 0) && s.queue == [] && s.nTodo == 0 && s.nTotal + s.nIdle + 1 > 0
    ensures Inv(k, Proceed(k, s, 0))
    ensures s.done == multiset(s.checks) && forall i :: 0 <= i < |s.threads| ==> s.threads[i].place.Batch() == []
  {
    hide FirstError, Invoked;
    var s' := Proceed(k, s, 0);
    assert InFlight(s.threads) == multiset{};
    forall i | 0 <= i < |s.threads| ensures s.threads[i].place.Batch() == [] {
      InFlightHas(s.threads, i);
      assert |multiset(s.threads[i].place.Batch())| == 0;
    }
    NoneInvoked(k, s.threads);
    var x := Thread(Outside, None);
    SameTotals(k, s.threads, 0, x);
    CountUpdate(s.threads, 0, x, true);
    CountUpdate(s.threads, 0, x, false);
    SessionRight(k, s);
    forall i | 0 <= i < |s'.threads| ensures ThreadOk(k, s'.threads[i], s'.result) {
      if i > 0 { assert s.threads[i].place.Batch() == [] && ThreadOk(k, s.threads[i], s.result); }
    }
  }

  lemma {:induction false} NoneInvoked<C, R>(k: Config<C, R>, ts: seq<Thread<C, R>>)
    requires forall i :: 0 <= i < |ts| ==> ts[i].place.Batch() == []
    ensures InvokedBy(k, ts) == multiset{}
  {
    if ts != [] {
      assert ts[0].place.Batch() == [];
      forall i | 0 <= i < |ts[1..]| ensures ts[1..][i].place.Batch() == [] { assert ts[1..][i] == ts[i + 1]; }
      NoneInvoked(k, ts[1..]);
    }
  }

  lemma SessionRight<C, R>(k: Config<C, R>, s: State<C, R>)
    requires ResultOk(k, s) && s.done == multiset(s.checks) && InvokedBy(k, s.threads) == multiset{}
    ensures Right(k, Session(s.checks, s.ran, s.result))
  {
    forall c | c in s.checks ensures c in s.done { assert c in multiset(s.checks); }
  }

  // ---------------------------------------------------------------- runs

  /** What the length of the queue is divided by in a step that looks at the queue. */
  function Divisor<C, R>(s: State<C, R>, step: Step<C>): int {
    match step
    case EnterStep(_) => s.nTotal + s.nIdle + 2
    case WakeStep(_) => s.nTotal + s.nIdle
    case CleanUpStep(_) => s.nTotal + s.nIdle + 1
    case _ => 1
  }

  ghost function Apply<C, R>(k: Config<C, R>, s: State<C, R>, step: Step<C>): State<C, R>
    requires Enabled(s, step) && Divisor(s, step) > 0
  {
    match step
    case AddStep(cs) => Add(s, cs)
    case CallStep => Call(s)
    case EnterStep(t) => Enter(k, s, t)
    case WakeStep(t) => Wake(k, s, t)
    case ExecuteStep(t) => Execute(k, s, t)
    case CleanUpStep(t) => CleanUp(k, s, t)
  }

  lemma StepDefined<C, R>(k: Config<C, R>, s: State<C, R>, step: Step<C>)
    requires Inv(k, s) && Enabled(s, step)
    ensures Divisor(s, step) > 0
  {
    hide Base;
    if step.WakeStep? { CountUpdate(s.threads, step.t, s.threads[step.t].(place := Entering), true); }
  }

  /** Every step keeps the invariant, and none divides by zero. */
  lemma StepInv<C, R>(k: Config<C, R>, s: State<C, R>, step: Step<C>)
    requires Inv(k, s) && Enabled(s, step)
    ensures Divisor(s, step) > 0 && Inv(k, Apply(k, s, step))
  {
    hide Inv, Mid, Proceed, Deliver, Execute, Add, Call, Woken;
    StepDefined(k, s, step);
    match step
    case AddStep(cs) => AddInv(k, s, cs);
    case CallStep => CallInv(k, s);
    case EnterStep(t) => EnterMid(k, s, t); ProceedInv(k, s.(nTotal := s.nTotal + 1), t);
    case WakeStep(t) => WokenMid(k, s, t); ProceedInv(k, Woken(s, t), t);
    case ExecuteStep(t) => ExecuteInv(k, s, t);
    case CleanUpStep(t) => DeliverMid(k, s, t); ProceedInv(k, Deliver(s, t), t);
  }

  /** A run from the initial state; what follows a division by zero is arbitrary. */
  ghost predicate IsRun<C(!new), R(!new)>(k: Config<C, R>, workers: nat, run: seq<State<C, R>>) {
    && run != [] && run[0] == Init(workers)
    && forall i :: 0 <= i < |run| - 1 ==> Follows(k, run[i], run[i + 1])
  }

  ghost predicate Follows<C(!new), R(!new)>(k: Config<C, R>, s: State<C, R>, s': State<C, R>) {
    exists step: Step<C> :: Enabled(s, step) && (Divisor(s, step) > 0 ==> Apply(k, s, step) == s')
  }

  lemma {:induction false} RunInv<C(!new), R(!new)>(k: Config<C, R>, workers: nat, run: seq<State<C, R>>)
    requires IsRun(k, workers, run)
    ensures Inv(k, run[|run| - 1])
    decreases |run|
  {
    hide Inv, Apply, Enabled, Divisor, Init;
    if |run| == 1 {
      InitInv(k, workers);
    } else {
      var init := run[..|run| - 1];
      forall i | 0 <= i < |init| - 1 ensures Follows(k, init[i], init[i + 1]) { assert Follows(k, run[i], run[i + 1]); }
      RunInv(k, workers, init);
      var s := run[|run| - 2];
      assert Follows(k, run[|run| - 2], run[|run| - 2 + 1]);
      var step: Step<C> :| Enabled(s, step) && (Divisor(s, step) > 0 ==> Apply(k, s, step) == run[|run| - 1]);
      StepInv(k, s, step);
    }
  }

  /** In every interleaving, whatever Complete returned was right for exactly the checks added before it. */
  lemma CompleteIsRight<C(!new), R(!new)>(k: Config<C, R>, workers: nat, run: seq<State<C, R>>, i: nat)
    requires IsRun(k, workers, run) && i < |run[|run| - 1].log|
    ensures Right(k, run[|run| - 1].log[i])
  {
    hide Right, ThreadsOk, Accounted, ResultOk, MasterOk, Counted, Init, Follows;
    RunInv(k, workers, run);
  }

  // ---------------------------------------------------------------- progress

  function Weight<C>(p: Place<C>): nat {
    match p
    case Outside => 0
    case Entering => 2
    case Waiting(notified) => if notified then 1 else 0
    case Working(_, _) => 3
    case Finished(_, _) => 2
  }

  function Load<C, R>(ts: seq<Thread<C, R>>): nat {
    if ts == [] then 0 else Weight(ts[0].place) + Load(ts[1..])
  }

  /** Bounds the number of steps that can still change something while nothing is added. */
  function Work<C, R>(s: State<C, R>): nat { 5 * |s.queue| + Load(s.threads) }

  lemma {:induction false} LoadUpdate<C, R>(ts: seq<Thread<C, R>>, i: nat, x: Thread<C, R>)
    requires i < |ts|
    ensures Load(ts[i := x]) + Weight(ts[i].place) == Load(ts) + Weight(x.place)
  {
    var us := ts[i := x];
    if i == 0 {
      assert us[1..] == ts[1..];
    } else {
      LoadUpdate(ts[1..], i - 1, x);
      assert us[1..] == ts[1..][i - 1 := x];
    }
  }

  lemma ProceedWork<C, R>(k: Config<C, R>, s: State<C, R>, t: nat)
    requires t < |s.threads| && s.nTotal + s.nIdle + 1 > 0 && s.threads[t].place.Entering?
    ensures Work(Proceed(k, s, t)) + 2 <= Work(s)
  {
    hide BatchSize;
    var s' := Proceed(k, s, t);
    LoadUpdate(s.threads, t, s'.threads[t]);
  }

  lemma DeliverWork<C, R>(s: State<C, R>, t: nat)
    requires t < |s.threads| && s.threads[t].place.Finished?
    ensures Work(Deliver(s, t)) <= Work(s) + 1
  {
    var th := s.threads[t];
    var x := Thread(Entering, if th.local.Some? && s.result.None? then s.result else th.local);
    LoadUpdate(s.threads, t, x);
    var ts := s.threads[t := x];
    LoadUpdate(ts, 0, ts[0].(place := Waiting(true)));
  }

  /** A step of Loop leaves less work, unless it is a wake-up that finds nothing to do and changes nothing. */
  lemma StepWork<C, R>(k: Config<C, R>, s: State<C, R>, step: Step<C>)
    requires Inv(k, s) && Enabled(s, step) && Divisor(s, step) > 0 && !step.AddStep? && !step.CallStep?
    ensures Work(Apply(k, s, step)) < Work(s) || (Apply(k, s, step) == s && step.WakeStep?)
  {
    hide Inv, Load, InFlight, InvokedBy, Count, BatchSize, Proceed, Deliver, FirstError, Invoked;
    match step
    case EnterStep(t) => ProceedWork(k, s.(nTotal := s.nTotal + 1), t);
    case WakeStep(t) => WakeWork(k, s, t);
    case ExecuteStep(t) => LoadUpdate(s.threads, t, Execute(k, s, t).threads[t]);
    case CleanUpStep(t) => DeliverWork(s, t); DeliverEnters(s, t); ProceedWork(k, Deliver(s, t), t);
  }

  lemma DeliverEnters<C, R>(s: State<C, R>, t: nat)
    requires t < |s.threads| && s.threads[t].place.Finished?
    ensures |Deliver(s, t).threads| == |s.threads| && Deliver(s, t).threads[t].place.Entering?
    ensures Deliver(s, t).nTotal == s.nTotal && Deliver(s, t).nIdle == s.nIdle
  {}

  lemma WakeWork<C, R>(k: Config<C, R>, s: State<C, R>, t: nat)
    requires Inv(k, s) && t < |s.threads| && s.threads[t].place.Waiting? && s.nTotal + s.nIdle > 0
    ensures Work(Wake(k, s, t)) < Work(s) || Wake(k, s, t) == s
  {
    hide Load, InFlight, InvokedBy, Count, BatchSize, FirstError, Invoked, LogOk, ThreadsOk, Accounted, ResultOk, Counted;
    var s' := Wake(k, s, t);
    LoadUpdate(s.threads, t, s'.threads[t]);
    var ts := Woken(s, t).threads;
    assert ts[t := s'.threads[t]] == s.threads[t := s'.threads[t]];
    if s.queue == [] && !s.threads[t].place.notified {
      assert t == 0 ==> s.nTodo > 0;
      assert s'.threads == s.threads;
    }
  }

  /** A master that sleeps without having been notified has a worker that still holds a batch. */
  lemma SleepingMaster<C, R>(k: Config<C, R>, s: State<C, R>)
    requires Inv(k, s) && s.threads[0].place == Waiting(false)
    ensures exists i :: 0 < i < |s.threads| && (s.threads[i].place.Working? || s.threads[i].place.Finished?)
  {
    if forall i :: 0 < i < |s.threads| ==> !(s.threads[i].place.Working? || s.threads[i].place.Finished?) {
      CountZero(s.threads);
    }
  }

  /** No wake-up is lost: while the master is inside Loop, some step that needs no luck leaves less work. */
  lemma Progress<C(!new), R(!new)>(k: Config<C, R>, s: State<C, R>)
    requires Inv(k, s) && !s.threads[0].place.Outside?
    ensures exists step: Step<C> :: Enabled(s, step) && Divisor(s, step) > 0 && (step.WakeStep? ==> s.threads[step.t].place.notified)
                                    && Work(Apply(k, s, step)) < Work(s)
  {
    hide Inv, Work, Proceed, Deliver, Execute;
    var step := NextStep(k, s);
    StepDefined(k, s, step);
    StepWork(k, s, step);
    if step.WakeStep? { NotifiedWork(k, s, step.t); }
  }

  lemma NotifiedWork<C, R>(k: Config<C, R>, s: State<C, R>, t: nat)
    requires t < |s.threads| && s.threads[t].place == Waiting(true) && s.nTotal + s.nIdle > 0
    ensures Wake(k, s, t) != s
  {
    hide BatchSize;
    assert Wake(k, s, t).threads[t].place != Waiting(true);
  }

  lemma NextStep<C, R>(k: Config<C, R>, s: State<C, R>) returns (step: Step<C>)
    requires Inv(k, s) && !s.threads[0].place.Outside?
    ensures Enabled(s, step) && !step.AddStep? && !step.CallStep? && (step.WakeStep? ==> s.threads[step.t].place == Waiting(true))
  {
    hide Count, InFlight, InvokedBy, LogOk, ThreadsOk, Accounted, ResultOk, Counted;
    var p := s.threads[0].place;
    if p == Waiting(false) {
      SleepingMaster(k, s);
      var i: nat :| 0 < i < |s.threads| && (s.threads[i].place.Working? || s.threads[i].place.Finished?);
      step := if s.threads[i].place.Working? then ExecuteStep(i) else CleanUpStep(i);
    } else {
      step := if p.Entering? then EnterStep(0) else if p.Waiting? then WakeStep(0)
      else if p.Working? then ExecuteStep(0) else CleanUpStep(0);
    }
  }

  /** States that follow one another by steps of Loop, each different from the one before. */
  ghost predicate Busy<C(!new), R(!new)>(k: Config<C, R>, run: seq<State<C, R>>) {
    forall i :: 0 <= i < |run| - 1 ==> run[i + 1] != run[i] && LoopStep(k, run[i], run[i + 1])
  }

  ghost predicate LoopStep<C(!new), R(!new)>(k: Config<C, R>, s: State<C, R>, s': State<C, R>) {
    exists step: Step<C> :: Enabled(s, step) && !step.AddStep? && !step.CallStep? && Divisor(s, step) > 0 && Apply(k, s, step) == s'
  }

  /** Complete cannot run forever: the number of steps that change anything is bounded by the work there is. */
  lemma {:induction false} CompleteTerminates<C(!new), R(!new)>(k: Config<C, R>, run: seq<State<C, R>>)
    requires run != [] && Inv(k, run[0]) && Busy(k, run)
    ensures |run| - 1 <= Work(run[0])
    decreases |run|
  {
    hide Inv, Apply, Enabled, Divisor, Work;
    if |run| > 1 {
      var rest := run[1..];
      assert run[0 + 1] != run[0] && LoopStep(k, run[0], run[0 + 1]);
      var step: Step<C> :| Enabled(run[0], step) && !step.AddStep? && !step.CallStep? && Divisor(run[0], step) > 0 && Apply(k, run[0], step) == run[1];
      StepInv(k, run[0], step);
      StepWork(k, run[0], step);
      forall i | 0 <= i < |rest| - 1 ensures rest[i + 1] != rest[i] && LoopStep(k, rest[i], rest[i + 1]) {
        assert run[i + 1 + 1] != run[i + 1] && LoopStep(k, run[i + 1], run[i + 1 + 1]);
      }
      CompleteTerminates(k, rest);
    }
  }
}
