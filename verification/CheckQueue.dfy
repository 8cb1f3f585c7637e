/**
 The parallel check queue: one master adds batches of checks, the workers and
 finally the master evaluate them, and Wait reports whether all were valid.

 The protocol is a state machine.  Every critical section of the mutex is one
 atomic step; evaluating one check outside the mutex is another.  Any thread
 may be scheduled at any time, and any sleeping thread may wake spuriously.
 */
module CheckQueue {
  import opened Numbers

  // A check and what calling it returns.
  datatype Check = Check(id: nat, valid: bool)

  /** Where a thread is inside Loop. */
  datatype Thread =
    | Away                                              // outside Loop
    | Entering                                          // in Loop, before the first lock
    | Asleep(notified: bool)                            // in cond.wait
    | Working(batch: seq<Check>, next: nat, fOk: bool)  // outside the lock, with a batch

  // `threads[0]` is the master.  `added` and `done` record the checks of the
  // current session: all of them, and those accounted for in fAllOk.
  datatype State = State(queue: seq<Check>, nIdle: int, nTotal: int, fAllOk: bool, nTodo: int,
                         threads: seq<Thread>, added: multiset<Check>, done: multiset<Check>)

  /** What the master's caller can observe of a step. */
  datatype Event = Added(checks: seq<Check>) | Returned(result: bool) | Internal

  ghost predicate AllValid(m: multiset<Check>) {
    forall c | c in m :: c.valid
  }

  // ---------------------------------------------------------------- the steps

  ghost predicate Init(s: State) {
    && s.queue == [] && s.nIdle == 0 && s.nTotal == 0 && s.fAllOk && s.nTodo == 0
    && |s.threads| >= 1 && (forall i | 0 <= i < |s.threads| :: s.threads[i] == Away)
    && s.added == multiset{} && s.done == multiset{}
  }

  // Waking changes nothing but the notified mark of sleeping workers: of none
  // for an empty batch, of one for a single check if there is one, else of all.
  ghost predicate WorkersNotified(before: seq<Thread>, nChecks: nat, after: seq<Thread>) {
    && |before| == |after|
    && (forall i | 0 <= i < |before| ::
          after[i] == before[i] || (i > 0 && nChecks > 0 && before[i].Asleep? && after[i] == Asleep(true)))
    && (nChecks == 1 ==> forall i, j | 0 <= i < j < |before| :: after[i] == before[i] || after[j] == before[j])
    && (nChecks == 1 && (exists i :: 0 < i < |before| && before[i] == Asleep(false)) ==>
          exists i :: 0 <= i < |before| && after[i] != before[i])
    && (nChecks > 1 ==> forall i | 0 < i < |before| && before[i].Asleep? :: after[i] == Asleep(true))
  }

  // CCheckQueue::Add.
  ghost predicate AddStep(s: State, checks: seq<Check>, s': State) {
    && |s.threads| >= 1 && s.threads[0].Away?
    && WorkersNotified(s.threads, |checks|, s'.threads)
    && s' == s.(queue := s.queue + checks, nTodo := s.nTodo + |checks|, threads := s'.threads,
                added := s.added + multiset(checks))
  }

  // A thread calls Loop.
  ghost predicate EnterStep(s: State, i: nat, s': State) {
    i < |s.threads| && s.threads[i].Away? && s' == s.(threads := s.threads[i := Entering])
  }

  // One check of the batch; skipped once a failure is known.
  ghost predicate EvaluateStep(s: State, i: nat, s': State) {
    && i < |s.threads| && s.threads[i].Working? && s.threads[i].next < |s.threads[i].batch|
    && var t := s.threads[i];
       s' == s.(threads := s.threads[i := t.(next := t.next + 1, fOk := t.fOk && t.batch[t.next].valid)])
  }

  // A thread may take the mutex unless it still has checks to evaluate.
  predicate CanLock(t: Thread) {
    t.Entering? || t.Asleep? || (t.Working? && t.next == |t.batch|)
  }

  // The first part of a critical section: clean up after the previous batch,
  // register in the pool, or come back from waiting.
  function CleanUp(s: State, i: nat): State
    requires i < |s.threads| && CanLock(s.threads[i])
  {
    match s.threads[i]
    case Entering => s.(nTotal := s.nTotal + 1)
    case Asleep(_) => s.(nIdle := s.nIdle - 1)
    case Working(batch, _, fOk) =>
      var nTodo := s.nTodo - |batch|;
      var wakeMaster := nTodo == 0 && i != 0 && s.threads[0].Asleep?;
      s.(fAllOk := s.fAllOk && fOk, nTodo := nTodo, done := s.done + multiset(batch),
         threads := if wakeMaster then s.threads[0 := Asleep(true)] else s.threads)
  }

  // How many checks a thread takes at once.
  function BatchCount(s: State, nBatchSize: nat): int
    requires 0 < s.nTotal + s.nIdle + 1
  {
    Max(1, Min(nBatchSize, |s.queue| / (s.nTotal + s.nIdle + 1)))
  }

  function Reverse<T>(xs: seq<T>): seq<T> {
    if xs == [] then [] else Reverse(xs[1..]) + [xs[0]]
  }

  // The second part: wait for work, take a batch from the back of the queue,
  // or, for the master, return.
  ghost predicate Proceed(s: State, i: nat, nBatchSize: nat, e: Event, s': State)
    requires 0 < |s.threads| && i < |s.threads|
  {
    if s.queue == [] && i == 0 && s.nTodo == 0 then
      && e == Returned(s.fAllOk)
      && s' == s.(nTotal := s.nTotal - 1, fAllOk := true, threads := s.threads[i := Away],
                  added := multiset{}, done := multiset{})
    else if s.queue == [] then
      e == Internal && s' == s.(nIdle := s.nIdle + 1, threads := s.threads[i := Asleep(false)])
    else
      && e == Internal && 0 < s.nTotal + s.nIdle + 1
      && var rest := |s.queue| - BatchCount(s, nBatchSize);
         && 0 <= rest <= |s.queue|
         && s' == s.(queue := s.queue[..rest], threads := s.threads[i := Working(Reverse(s.queue[rest..]), 0, s.fAllOk)])
  }

  ghost predicate LockStep(s: State, i: nat, nBatchSize: nat, e: Event, s': State) {
    && i < |s.threads| && CanLock(s.threads[i])
    && Proceed(CleanUp(s, i), i, nBatchSize, e, s')
  }

  ghost predicate Next(s: State, nBatchSize: nat, e: Event, s': State) {
    || (e.Added? && AddStep(s, e.checks, s'))
    || (e.Internal? && exists i: nat :: EnterStep(s, i, s') || EvaluateStep(s, i, s'))
    || (exists i: nat :: LockStep(s, i, nBatchSize, e, s'))
  }

  // ------------------------------------------------------------- the invariant

  /** What the threads contribute to the shared counters. */
  datatype Tally = Tally(inFlight: nat, asleep: nat, inPool: nat)

  function Count(threads: seq<Thread>): Tally {
    if threads == [] then Tally(0, 0, 0) else
    var rest := Count(threads[1..]);
    match threads[0]
    case Asleep(_) => Tally(rest.inFlight, rest.asleep + 1, rest.inPool + 1)
    case Working(batch, _, _) => Tally(rest.inFlight + |batch|, rest.asleep, rest.inPool + 1)
    case _ => rest
  }

  function Held(t: Thread, c: Check): nat {
    if t.Working? then multiset(t.batch)[c] else 0
  }

  // How often a check is in some thread's batch.
  function Copies(threads: seq<Thread>, c: Check): nat {
    if threads == [] then 0 else Held(threads[0], c) + Copies(threads[1..], c)
  }

  lemma {:induction false} CountUpdate(threads: seq<Thread>, i: nat, t: Thread)
    requires i < |threads|
    ensures var a, b, x, y := Count(threads), Count(threads[i := t]), Count([threads[i]]), Count([t]);
            && b.inFlight + x.inFlight == a.inFlight + y.inFlight
            && b.asleep + x.asleep == a.asleep + y.asleep
            && b.inPool + x.inPool == a.inPool + y.inPool
  {
    if i == 0 {
      assert threads[i := t][1..] == threads[1..];
    } else {
      CountUpdate(threads[1..], i - 1, t);
      assert threads[i := t][1..] == threads[1..][i - 1 := t];
    }
  }

  lemma {:induction false} CopiesUpdate(threads: seq<Thread>, i: nat, t: Thread, c: Check)
    requires i < |threads|
    ensures Copies(threads[i := t], c) + Held(threads[i], c) == Copies(threads, c) + Held(t, c)
  {
    if i == 0 {
      assert threads[i := t][1..] == threads[1..];
    } else {
      CopiesUpdate(threads[1..], i - 1, t, c);
      assert threads[i := t][1..] == threads[1..][i - 1 := t];
    }
  }

  // Notifications leave every contribution as it was.
  lemma {:induction false} NotifiedSame(a: seq<Thread>, b: seq<Thread>)
    requires |a| == |b| && forall i | 0 <= i < |a| :: a[i] == b[i] || (a[i].Asleep? && b[i].Asleep?)
    ensures Count(a) == Count(b) && forall c :: Copies(a, c) == Copies(b, c)
  {
    if a != [] {
      NotifiedSame(a[1..], b[1..]);
      forall c
        ensures Copies(a, c) == Copies(b, c)
      {
        assert Copies(a[1..], c) == Copies(b[1..], c);
      }
    }
  }

  // A positive number of checks in flight means that some thread is working.
  lemma {:induction false} SomeoneWorks(threads: seq<Thread>) returns (i: nat)
    requires Count(threads).inFlight > 0
    ensures i < |threads| && threads[i].Working?
  {
    if threads[0].Working? {
      i := 0;
    } else {
      i := SomeoneWorks(threads[1..]);
      i := i + 1;
    }
  }

  // A batch knows of a failure exactly if it has seen one, or one was known.
  ghost predicate BatchHonest(t: Thread, fAllOk: bool) {
    t.Working? ==>
      && 0 < |t.batch| && t.next <= |t.batch|
      && (t.fOk ==> forall k | 0 <= k < t.next :: t.batch[k].valid)
      && (!t.fOk && fAllOk ==> exists k | 0 <= k < t.next :: !t.batch[k].valid)
  }

  ghost predicate Inv(s: State) {
    && |s.threads| >= 1
    && s.nTodo == |s.queue| + Count(s.threads).inFlight
    && s.nIdle == Count(s.threads).asleep
    && s.nTotal == Count(s.threads).inPool
    && (forall c :: s.added[c] == multiset(s.queue)[c] + Copies(s.threads, c) + s.done[c])
    && (s.fAllOk <==> AllValid(s.done))
    && (forall i | 0 <= i < |s.threads| :: BatchHonest(s.threads[i], s.fAllOk))
    && (s.threads[0].Asleep? ==> s.queue == [])
    && (s.threads[0] == Asleep(false) ==> s.nTodo > 0)
  }

  lemma {:induction false} IdleCount(threads: seq<Thread>)
    requires forall i | 0 <= i < |threads| :: threads[i] == Away
    ensures Count(threads) == Tally(0, 0, 0) && forall c :: Copies(threads, c) == 0
  {
    if threads != [] {
      IdleCount(threads[1..]);
    }
  }

  lemma InvInit(s: State)
    requires Init(s)
    ensures Inv(s)
  {
    IdleCount(s.threads);
  }

  lemma InvAdd(s: State, checks: seq<Check>, s': State)
    requires Inv(s) && AddStep(s, checks, s')
    ensures Inv(s')
  {
    NotifiedSame(s.threads, s'.threads);
  }

  lemma InvEnter(s: State, i: nat, s': State)
    requires Inv(s) && EnterStep(s, i, s')
    ensures Inv(s')
  {
    CountUpdate(s.threads, i, Entering);
    forall c ensures Copies(s'.threads, c) == Copies(s.threads, c) { CopiesUpdate(s.threads, i, Entering, c); }
  }

  lemma InvEvaluate(s: State, i: nat, s': State)
    requires Inv(s) && EvaluateStep(s, i, s')
    ensures Inv(s')
  {
    hide AllValid, Copies;
    var t, t' := s.threads[i], s'.threads[i];
    CountUpdate(s.threads, i, t');
    forall c ensures Copies(s'.threads, c) == Copies(s.threads, c) { CopiesUpdate(s.threads, i, t', c); }
    assert BatchHonest(t, s.fAllOk);
    if !t'.fOk && s.fAllOk && t.fOk {
      assert !t'.batch[t.next].valid;
    }
  }

  // A state in the middle of thread i's critical section, with i taken out.
  function Detached(s: State, i: nat): State
    requires i < |s.threads| && CanLock(s.threads[i])
  {
    var c := CleanUp(s, i);
    c.(threads := c.threads[i := Away], nTotal := c.nTotal - 1)
  }

  lemma DetachedCopies(s: State, i: nat, c: Check)
    requires Inv(s) && i < |s.threads| && CanLock(s.threads[i])
    ensures Detached(s, i).added[c] ==
              multiset(Detached(s, i).queue)[c] + Copies(Detached(s, i).threads, c) + Detached(s, i).done[c]
  {
    CopiesUpdate(s.threads, i, Away, c);
    CopiesUpdate(s.threads, 0, Asleep(true), c);
    CopiesUpdate(CleanUp(s, i).threads, i, Away, c);
  }

  // Cleaning up a finished batch keeps fAllOk exact.
  lemma DetachedOk(s: State, i: nat)
    requires Inv(s) && i < |s.threads| && CanLock(s.threads[i])
    ensures Detached(s, i).fAllOk <==> AllValid(Detached(s, i).done)
    ensures Detached(s, i).fAllOk ==> s.fAllOk
  {
    var t := s.threads[i];
    assert BatchHonest(t, s.fAllOk);
    if t.Working? {
      assert forall c | c in multiset(t.batch) :: c in t.batch;
      if !t.fOk && s.fAllOk {
        var k :| 0 <= k < t.next && !t.batch[k].valid;
        assert t.batch[k] in multiset(t.batch);
      }
    }
  }

  lemma DetachedCounts(s: State, i: nat)
    requires Inv(s) && i < |s.threads| && CanLock(s.threads[i])
    ensures var d := Detached(s, i);
            && d.nTodo == |d.queue| + Count(d.threads).inFlight
            && d.nIdle == Count(d.threads).asleep
            && d.nTotal == Count(d.threads).inPool
  {
    hide BatchHonest, AllValid, Copies;
    CountUpdate(s.threads, i, Away);
    CountUpdate(s.threads, 0, Asleep(true));
    CountUpdate(CleanUp(s, i).threads, i, Away);
  }

  lemma DetachedHonest(s: State, i: nat, k: nat)
    requires Inv(s) && i < |s.threads| && CanLock(s.threads[i]) && k < |s.threads|
    ensures BatchHonest(Detached(s, i).threads[k], Detached(s, i).fAllOk)
  {
    hide Count, Copies, AllValid;
    assert BatchHonest(s.threads[k], s.fAllOk);
  }

  lemma InvDetached(s: State, i: nat)
    requires Inv(s) && i < |s.threads| && CanLock(s.threads[i])
    ensures Inv(Detached(s, i))
  {
    hide Count, Copies, AllValid, BatchHonest;
    var d := Detached(s, i);
    DetachedCounts(s, i);
    DetachedOk(s, i);
    forall c
      ensures d.added[c] == multiset(d.queue)[c] + Copies(d.threads, c) + d.done[c]
    {
      DetachedCopies(s, i, c);
    }
    forall k | 0 <= k < |d.threads|
      ensures BatchHonest(d.threads[k], d.fAllOk)
    {
      DetachedHonest(s, i, k);
    }
  }

  lemma {:induction false} ReverseSame<T>(xs: seq<T>)
    ensures |Reverse(xs)| == |xs| && multiset(Reverse(xs)) == multiset(xs)
  {
    if xs != [] {
      ReverseSame(xs[1..]);
      assert xs == [xs[0]] + xs[1..];
    }
  }

  // The master or a worker goes to sleep.
  lemma InvSleep(d: State, i: nat)
    requires Inv(d) && i < |d.threads| && d.threads[i].Away? && d.queue == [] && (i == 0 ==> d.nTodo != 0)
    ensures Inv(d.(nTotal := d.nTotal + 1, nIdle := d.nIdle + 1, threads := d.threads[i := Asleep(false)]))
  {
    CountUpdate(d.threads, i, Asleep(false));
    forall c
      ensures Copies(d.threads[i := Asleep(false)], c) == Copies(d.threads, c)
    {
      CopiesUpdate(d.threads, i, Asleep(false), c);
    }
  }

  lemma TakeCopies(d: State, i: nat, rest: nat, c: Check)
    requires i < |d.threads| && d.threads[i].Away? && rest < |d.queue|
    ensures multiset(d.queue[..rest])[c] +
            Copies(d.threads[i := Working(Reverse(d.queue[rest..]), 0, d.fAllOk)], c) ==
            multiset(d.queue)[c] + Copies(d.threads, c)
  {
    CopiesUpdate(d.threads, i, Working(Reverse(d.queue[rest..]), 0, d.fAllOk), c);
    ReverseSame(d.queue[rest..]);
    assert d.queue == d.queue[..rest] + d.queue[rest..];
  }

  // A thread takes the last checks of the queue as its batch.
  lemma InvTake(d: State, i: nat, rest: nat)
    requires Inv(d) && i < |d.threads| && d.threads[i].Away? && rest < |d.queue|
    ensures Inv(d.(nTotal := d.nTotal + 1, queue := d.queue[..rest],
                   threads := d.threads[i := Working(Reverse(d.queue[rest..]), 0, d.fAllOk)]))
  {
    hide AllValid, Copies, Reverse;
    var t := Working(Reverse(d.queue[rest..]), 0, d.fAllOk);
    CountUpdate(d.threads, i, t);
    ReverseSame(d.queue[rest..]);
    forall c
      ensures multiset(d.queue[..rest])[c] + Copies(d.threads[i := t], c) == multiset(d.queue)[c] + Copies(d.threads, c)
    {
      TakeCopies(d, i, rest, c);
    }
  }

  lemma {:induction false} NothingHeld(threads: seq<Thread>)
    requires Count(threads).inFlight == 0
    ensures forall c :: Copies(threads, c) == 0
    ensures forall i | 0 <= i < |threads| && threads[i].Working? :: threads[i].batch == []
  {
    if threads != [] {
      NothingHeld(threads[1..]);
    }
  }

  // The master returns: the result is exact, and nothing is left over.
  lemma InvReturn(d: State)
    requires Inv(d) && d.threads[0].Away? && d.queue == [] && d.nTodo == 0
    ensures d.fAllOk <==> AllValid(d.added)
    ensures Inv(d.(fAllOk := true, added := multiset{}, done := multiset{}))
  {
    NothingHeld(d.threads);
    forall c
      ensures d.added[c] == d.done[c]
    {
      assert Copies(d.threads, c) == 0;
    }
    assert d.added == d.done;
  }

  // ------------------------------------------------------------ the theorems

  lemma LockReturns(s: State, nBatchSize: nat, e: Event, s': State)
    requires Inv(s) && LockStep(s, 0, nBatchSize, e, s') && e.Returned?
    ensures Inv(s') && (e.result <==> AllValid(s.added))
  {
    hide Inv, AllValid, Reverse, BatchCount;
    InvDetached(s, 0);
    InvReturn(Detached(s, 0));
  }

  lemma LockGoesOn(s: State, i: nat, nBatchSize: nat, e: Event, s': State)
    requires Inv(s) && LockStep(s, i, nBatchSize, e, s') && e.Internal?
    ensures Inv(s')
  {
    hide Inv, AllValid, Reverse;
    var d := Detached(s, i);
    InvDetached(s, i);
    if d.queue == [] {
      InvSleep(d, i);
    } else {
      InvTake(d, i, |d.queue| - BatchCount(CleanUp(s, i), nBatchSize));
    }
    AttachAgain(s, i, s'.threads[i]);
  }

  lemma AttachAgain(s: State, i: nat, t: Thread)
    requires i < |s.threads| && CanLock(s.threads[i])
    ensures var c, d := CleanUp(s, i), Detached(s, i);
            && c.nTotal == d.nTotal + 1 && |c.threads| == |d.threads|
            && c.threads[i := t] == d.threads[i := t]
  {
  }

  lemma InvLock(s: State, i: nat, nBatchSize: nat, e: Event, s': State)
    requires Inv(s) && LockStep(s, i, nBatchSize, e, s')
    ensures Inv(s')
    ensures e.Returned? ==> (e.result <==> AllValid(s.added))
  {
    hide Inv, AllValid, Reverse, CleanUp, BatchCount;
    if e.Returned? {
      LockReturns(s, nBatchSize, e, s');
    } else {
      LockGoesOn(s, i, nBatchSize, e, s');
    }
  }

  // Every step keeps the invariant, and Wait returns true exactly when every
  // check of the session is valid.
  lemma InvNext(s: State, nBatchSize: nat, e: Event, s': State)
    requires Inv(s) && Next(s, nBatchSize, e, s')
    ensures Inv(s')
    ensures e.Returned? ==> (e.result <==> AllValid(s.added))
  {
    hide Inv, AllValid, AddStep, EnterStep, EvaluateStep, LockStep;
    if e.Added? && AddStep(s, e.checks, s') {
      InvAdd(s, e.checks, s');
    } else if i: nat :| LockStep(s, i, nBatchSize, e, s') {
      InvLock(s, i, nBatchSize, e, s');
    } else {
      var i: nat :| EnterStep(s, i, s') || EvaluateStep(s, i, s');
      if EnterStep(s, i, s') {
        InvEnter(s, i, s');
      } else {
        InvEvaluate(s, i, s');
      }
    }
  }

  /** A run: what was observed between its states. */
  ghost predicate IsRun(states: seq<State>, events: seq<Event>, nBatchSize: nat) {
    && |states| == |events| + 1 && Init(states[0])
    && (forall k | 0 <= k < |events| :: Next(states[k], nBatchSize, events[k], states[k + 1]))
  }

  // The checks added after the last return.
  ghost function Session(events: seq<Event>): multiset<Check> {
    if events == [] then multiset{} else
    var before := Session(events[..|events| - 1]);
    match events[|events| - 1]
    case Added(checks) => before + multiset(checks)
    case Returned(_) => multiset{}
    case Internal => before
  }

  lemma NextSession(s: State, nBatchSize: nat, e: Event, s': State)
    requires Next(s, nBatchSize, e, s')
    ensures s'.added == (match e case Added(checks) => s.added + multiset(checks) case Returned(_) => multiset{} case Internal => s.added)
  {
    if i: nat :| LockStep(s, i, nBatchSize, e, s') {
      assert CleanUp(s, i).added == s.added;
    }
  }

  lemma {:induction false} RunInvariant(states: seq<State>, events: seq<Event>, nBatchSize: nat)
    requires IsRun(states, events, nBatchSize)
    ensures Inv(states[|events|]) && states[|events|].added == Session(events)
    decreases |events|
  {
    hide Inv, Next;
    if events == [] {
      InvInit(states[0]);
    } else {
      var k := |events| - 1;
      RunInvariant(states[..k + 1], events[..k], nBatchSize);
      InvNext(states[k], nBatchSize, events[k], states[k + 1]);
      NextSession(states[k], nBatchSize, events[k], states[k + 1]);
    }
  }

  // Over every interleaving: a Wait that returns reports whether every check
  // added since the previous Wait is valid, and nothing of other sessions.
  lemma WaitIsExact(states: seq<State>, events: seq<Event>, nBatchSize: nat, k: nat)
    requires IsRun(states, events, nBatchSize) && k < |events| && events[k].Returned?
    ensures events[k].result <==> AllValid(Session(events[..k]))
    ensures states[k + 1].queue == [] && states[k + 1].nTodo == 0 && states[k + 1].fAllOk
    ensures forall t | t in states[k + 1].threads :: !t.Working?
  {
    RunInvariant(states[..k + 1], events[..k], nBatchSize);
    InvNext(states[k], nBatchSize, events[k], states[k + 1]);
    NothingHeld(states[k + 1].threads);
  }

  // The master never sleeps unnoticed: while it does, a worker holds a batch
  // and will notify it.
  lemma NoLostWakeup(s: State) returns (i: nat)
    requires Inv(s) && s.threads[0] == Asleep(false)
    ensures 0 < i < |s.threads| && s.threads[i].Working?
  {
    i := SomeoneWorks(s.threads);
  }

  // ---------------------------------------------------------------- progress

  // A thread that will go on by itself, without a spurious wakeup.
  predicate Runnable(t: Thread) {
    t.Entering? || t == Asleep(true) || t.Working?
  }

  // Thread i, runnable, takes its next step.
  ghost predicate RunStep(s: State, i: nat, nBatchSize: nat, e: Event, s': State) {
    && i < |s.threads| && Runnable(s.threads[i])
    && (LockStep(s, i, nBatchSize, e, s') || (e == Internal && EvaluateStep(s, i, s')))
  }

  // While Wait has not returned, some thread can run.
  lemma WaitCanProceed(s: State, nBatchSize: nat) returns (i: nat, e: Event, s': State)
    requires Inv(s) && !s.threads[0].Away?
    ensures RunStep(s, i, nBatchSize, e, s')
  {
    i := 0;
    if s.threads[0] == Asleep(false) {
      i := NoLostWakeup(s);
    }
    e, s' := EnabledStep(s, i, nBatchSize);
  }

  lemma BatchFits(s: State, nBatchSize: nat)
    requires 0 < s.nTotal + s.nIdle + 1 && s.queue != []
    ensures 1 <= BatchCount(s, nBatchSize) <= |s.queue|
  {
    QuotientAtMost(|s.queue|, s.nTotal + s.nIdle + 1);
  }

  // A runnable thread always has a next step; in particular the batch size is
  // well defined and never exceeds the queue.
  lemma EnabledStep(s: State, i: nat, nBatchSize: nat) returns (e: Event, s': State)
    requires Inv(s) && i < |s.threads| && Runnable(s.threads[i])
    ensures RunStep(s, i, nBatchSize, e, s')
  {
    hide Copies, AllValid, BatchCount;
    var t := s.threads[i];
    assert BatchHonest(t, s.fAllOk);
    e := Internal;
    if t.Working? && t.next < |t.batch| {
      s' := s.(threads := s.threads[i := t.(next := t.next + 1, fOk := t.fOk && t.batch[t.next].valid)]);
    } else {
      var c := CleanUp(s, i);
      InvDetached(s, i);
      if c.queue == [] && i == 0 && c.nTodo == 0 {
        e := Returned(c.fAllOk);
        s' := c.(nTotal := c.nTotal - 1, fAllOk := true, threads := c.threads[i := Away],
                 added := multiset{}, done := multiset{});
      } else if c.queue == [] {
        s' := c.(nIdle := c.nIdle + 1, threads := c.threads[i := Asleep(false)]);
      } else {
        BatchFits(c, nBatchSize);
        var rest := |c.queue| - BatchCount(c, nBatchSize);
        s' := c.(queue := c.queue[..rest], threads := c.threads[i := Working(Reverse(c.queue[rest..]), 0, c.fAllOk)]);
      }
    }
  }

  // Checks in the queue are pursued: some thread will go on by itself, unless
  // none is in Loop at all.
  ghost predicate WorkPursued(s: State) {
    s.queue != [] ==>
      || (exists i :: 0 <= i < |s.threads| && Runnable(s.threads[i]))
      || forall i | 0 <= i < |s.threads| :: s.threads[i].Away?
  }

  lemma AddPursued(s: State, checks: seq<Check>, s': State)
    requires WorkPursued(s) && AddStep(s, checks, s')
    ensures WorkPursued(s')
  {
    if i :| 0 <= i < |s.threads| && Runnable(s.threads[i]) {
      assert Runnable(s'.threads[i]);
    } else if i :| 0 <= i < |s.threads| && !s.threads[i].Away? {
      assert s.threads[i] == Asleep(false);
      if |checks| == 1 {
        var k :| 0 <= k < |s.threads| && s'.threads[k] != s.threads[k];
        assert Runnable(s'.threads[k]);
      } else if |checks| > 1 {
        assert Runnable(s'.threads[i]);
      }
    } else {
      assert forall i | 0 <= i < |s'.threads| :: s'.threads[i] == s.threads[i];
    }
  }

  lemma LockPursued(s: State, i: nat, nBatchSize: nat, e: Event, s': State)
    requires LockStep(s, i, nBatchSize, e, s')
    ensures WorkPursued(s')
  {
    hide BatchCount, Reverse;
    var c := CleanUp(s, i);
    hide CleanUp;
    assert s'.queue != [] ==> Runnable(s'.threads[i]);
  }

  lemma MovePursued(s: State, i: nat, s': State)
    requires EnterStep(s, i, s') || EvaluateStep(s, i, s')
    ensures WorkPursued(s')
  {
    assert Runnable(s'.threads[i]);
  }

  // Every step leaves the work pursued.
  lemma PursuedNext(s: State, nBatchSize: nat, e: Event, s': State)
    requires WorkPursued(s) && Next(s, nBatchSize, e, s')
    ensures WorkPursued(s')
  {
    hide AddStep, LockStep, EnterStep, EvaluateStep, WorkPursued;
    if e.Added? && AddStep(s, e.checks, s') {
      AddPursued(s, e.checks, s');
    } else if i: nat :| LockStep(s, i, nBatchSize, e, s') {
      LockPursued(s, i, nBatchSize, e, s');
    } else {
      var i: nat :| EnterStep(s, i, s') || EvaluateStep(s, i, s');
      MovePursued(s, i, s');
    }
  }

  // In every state of every run, nobody sleeps over a queue that has checks.
  lemma {:induction false} WorkNeverIgnored(states: seq<State>, events: seq<Event>, nBatchSize: nat, k: nat)
    requires IsRun(states, events, nBatchSize) && k <= |events|
    ensures WorkPursued(states[k])
  {
    hide Next, WorkPursued;
    if k == 0 {
      NothingToPursue(states[0]);
    } else {
      WorkNeverIgnored(states, events, nBatchSize, k - 1);
      PursuedNext(states[k - 1], nBatchSize, events[k - 1], states[k - 1 + 1]);
    }
  }

  lemma NothingToPursue(s: State)
    requires Init(s)
    ensures WorkPursued(s)
  {
  }

  // A batch is one check, or at most nBatchSize and the share of the queue that
  // falls to each thread, idle ones counted twice, and one more; and no smaller.
  lemma BatchShare(s: State, nBatchSize: nat)
    requires 0 < s.nTotal + s.nIdle + 1
    ensures var n, shares := BatchCount(s, nBatchSize), s.nTotal + s.nIdle + 1;
            && n >= 1 && (n == 1 || (n <= nBatchSize && n * shares <= |s.queue|))
            && (n + 1 > nBatchSize || (n + 1) * shares > |s.queue|)
  {
    var n, shares := BatchCount(s, nBatchSize), s.nTotal + s.nIdle + 1;
    var q := |s.queue| / shares;
    QuotientRemainder(|s.queue|, shares);
    ProductMonotone(shares, n, if n <= q then q else n);
    ProductMonotone(shares, if n < q then n + 1 else q + 1, n + 1);
  }

  function Effort(t: Thread): nat {
    match t
    case Entering => 1
    case Asleep(notified) => if notified then 1 else 0
    case Working(batch, next, _) => if next <= |batch| then 2 + |batch| - next else 2
    case Away => 0
  }

  function TotalEffort(threads: seq<Thread>): nat {
    if threads == [] then 0 else Effort(threads[0]) + TotalEffort(threads[1..])
  }

  lemma {:induction false} EffortUpdate(threads: seq<Thread>, i: nat, t: Thread)
    requires i < |threads|
    ensures TotalEffort(threads[i := t]) + Effort(threads[i]) == TotalEffort(threads) + Effort(t)
  {
    if i == 0 {
      assert threads[i := t][1..] == threads[1..];
    } else {
      EffortUpdate(threads[1..], i - 1, t);
      assert threads[i := t][1..] == threads[1..][i - 1 := t];
    }
  }

  // A bound on the steps that are left before everyone has come to rest.
  function StepsLeft(s: State): nat {
    4 * |s.queue| + TotalEffort(s.threads)
  }

  lemma CleanUpEffort(s: State, i: nat)
    requires i < |s.threads| && CanLock(s.threads[i]) && Runnable(s.threads[i])
    ensures TotalEffort(CleanUp(s, i).threads) < TotalEffort(s.threads) + Effort(s.threads[i])
    ensures CleanUp(s, i).threads[i] == s.threads[i]
  {
    EffortUpdate(s.threads, 0, Asleep(true));
  }

  lemma RunStepDescends(s: State, i: nat, nBatchSize: nat, e: Event, s': State)
    requires RunStep(s, i, nBatchSize, e, s')
    ensures StepsLeft(s') < StepsLeft(s)
  {
    hide TotalEffort, CleanUp;
    if LockStep(s, i, nBatchSize, e, s') {
      var c := CleanUp(s, i);
      CleanUpEffort(s, i);
      CleanUpQueue(s, i);
      EffortUpdate(c.threads, i, s'.threads[i]);
      if c.queue != [] {
        var rest := |c.queue| - BatchCount(c, nBatchSize);
        ReverseSame(c.queue[rest..]);
      }
    } else {
      EffortUpdate(s.threads, i, s'.threads[i]);
    }
  }

  lemma CleanUpQueue(s: State, i: nat)
    requires i < |s.threads| && CanLock(s.threads[i])
    ensures CleanUp(s, i).queue == s.queue && |CleanUp(s, i).threads| == |s.threads|
  {
  }

  /** Who takes a step: a runnable thread, one that enters Loop, one that wakes
      up spuriously, or the master that adds checks. */
  datatype Move = Runs(i: nat) | Enters(i: nat) | Wakes(i: nat) | Adds

  ghost predicate Moves(s: State, m: Move, nBatchSize: nat, e: Event, s': State) {
    match m
    case Runs(i) => RunStep(s, i, nBatchSize, e, s')
    case Enters(i) => e == Internal && EnterStep(s, i, s')
    case Wakes(i) => i < |s.threads| && s.threads[i] == Asleep(false) && LockStep(s, i, nBatchSize, e, s')
    case Adds => e.Added? && AddStep(s, e.checks, s')
  }

  // Every step of the queue is one of these moves, and they are steps.
  lemma NextMoves(s: State, nBatchSize: nat, e: Event, s': State)
    ensures Next(s, nBatchSize, e, s') <==> exists m :: Moves(s, m, nBatchSize, e, s')
  {
    hide Proceed, AddStep;
    if Next(s, nBatchSize, e, s') {
      if e.Added? && AddStep(s, e.checks, s') {
        assert Moves(s, Adds, nBatchSize, e, s');
      } else if i: nat :| LockStep(s, i, nBatchSize, e, s') {
        assert Moves(s, Runs(i), nBatchSize, e, s') || Moves(s, Wakes(i), nBatchSize, e, s');
      } else {
        var i: nat :| EnterStep(s, i, s') || EvaluateStep(s, i, s');
        assert Moves(s, Runs(i), nBatchSize, e, s') || Moves(s, Enters(i), nBatchSize, e, s');
      }
    }
  }

  // What a move adds to the steps that are left.
  function Brought(m: Move, e: Event, nThreads: nat): nat {
    match m
    case Runs(_) => 0
    case Enters(_) => 1
    case Wakes(_) => 0
    case Adds => if e.Added? && e.checks != [] then 4 * |e.checks| + nThreads else 0
  }

  lemma {:induction false} NotifiedEffort(before: seq<Thread>, after: seq<Thread>)
    requires |before| == |after| && forall i | 0 <= i < |before| :: Effort(after[i]) <= Effort(before[i]) + 1
    ensures TotalEffort(after) <= TotalEffort(before) + |before|
  {
    if before != [] {
      NotifiedEffort(before[1..], after[1..]);
    }
  }

  // A thread that wakes up for nothing sleeps again or takes over work.
  lemma WakeAddsNothing(s: State, i: nat, nBatchSize: nat, e: Event, s': State)
    requires i < |s.threads| && s.threads[i] == Asleep(false) && LockStep(s, i, nBatchSize, e, s')
    ensures StepsLeft(s') <= StepsLeft(s) && |s'.threads| == |s.threads|
  {
    hide TotalEffort;
    EffortUpdate(s.threads, i, s'.threads[i]);
    if s.queue != [] {
      ReverseSame(s.queue[|s.queue| - BatchCount(CleanUp(s, i), nBatchSize)..]);
    }
  }

  lemma AddBrings(s: State, checks: seq<Check>, s': State)
    requires AddStep(s, checks, s')
    ensures StepsLeft(s') <= StepsLeft(s) + Brought(Adds, Added(checks), |s.threads|) && |s'.threads| == |s.threads|
  {
    if checks == [] {
      assert s'.threads == s.threads;
    } else {
      NotifiedEffort(s.threads, s'.threads);
    }
  }

  lemma MoveDescends(s: State, m: Move, nBatchSize: nat, e: Event, s': State)
    requires Moves(s, m, nBatchSize, e, s')
    ensures StepsLeft(s') + (if m.Runs? then 1 else 0) <= StepsLeft(s) + Brought(m, e, |s.threads|)
    ensures |s'.threads| == |s.threads|
  {
    match m
    case Runs(i) =>
      RunStepDescends(s, i, nBatchSize, e, s');
      RunStepThreads(s, i, nBatchSize, e, s');
    case Enters(i) => EffortUpdate(s.threads, i, Entering);
    case Wakes(i) => WakeAddsNothing(s, i, nBatchSize, e, s');
    case Adds => AddBrings(s, e.checks, s');
  }

  lemma RunStepThreads(s: State, i: nat, nBatchSize: nat, e: Event, s': State)
    requires RunStep(s, i, nBatchSize, e, s')
    ensures |s'.threads| == |s.threads|
  {
    hide BatchCount, Reverse;
  }

  // The runs among the moves, and what all of them add.
  function RunCount(moves: seq<Move>): nat {
    if moves == [] then 0 else RunCount(moves[..|moves| - 1]) + if moves[|moves| - 1].Runs? then 1 else 0
  }

  function AllBrought(moves: seq<Move>, events: seq<Event>, nThreads: nat): nat
    requires |moves| == |events|
  {
    if moves == [] then 0 else
    var k := |moves| - 1;
    AllBrought(moves[..k], events[..k], nThreads) + Brought(moves[k], events[k], nThreads)
  }

  // In any run, the runnable threads take no more steps than were left at its
  // start and were brought in the meantime.
  lemma {:induction false} RunIsBounded(states: seq<State>, moves: seq<Move>, events: seq<Event>, nBatchSize: nat)
    requires |states| == |moves| + 1 == |events| + 1 && Inv(states[0])
    requires forall k | 0 <= k < |events| :: Moves(states[k], moves[k], nBatchSize, events[k], states[k + 1])
    ensures Inv(states[|events|]) && |states[|events|].threads| == |states[0].threads|
    ensures RunCount(moves) + StepsLeft(states[|events|]) <= StepsLeft(states[0]) + AllBrought(moves, events, |states[0].threads|)
    decreases |events|
  {
    hide Inv, StepsLeft, Moves;
    if events != [] {
      var k := |events| - 1;
      RunIsBounded(states[..k + 1], moves[..k], events[..k], nBatchSize);
      MoveDescends(states[k], moves[k], nBatchSize, events[k], states[k + 1]);
      NextMoves(states[k], nBatchSize, events[k], states[k + 1]);
      InvNext(states[k], nBatchSize, events[k], states[k + 1]);
    }
  }

  // Every run that stops only when no thread can go on by itself returns from
  // Wait, whatever threads enter or wake up spuriously on the way, and the first
  // return reports on the checks that were in the queue's hands when it began.
  lemma WaitReturns(states: seq<State>, moves: seq<Move>, events: seq<Event>, nBatchSize: nat) returns (k: nat)
    requires |states| == |moves| + 1 == |events| + 1 && Inv(states[0]) && InLoop(states[0])
    requires forall j | 0 <= j < |events| :: Moves(states[j], moves[j], nBatchSize, events[j], states[j + 1])
    requires forall i: nat, e, s' :: !RunStep(states[|events|], i, nBatchSize, e, s')
    ensures k < |events|
    ensures RunCount(moves) <= StepsLeft(states[0]) + AllBrought(moves, events, |states[0].threads|)
    ensures events[k].Returned? && (events[k].result <==> AllValid(states[0].added))
    ensures forall j | 0 <= j < k :: !events[j].Returned? && !moves[j].Adds?
  {
    hide Inv, StepsLeft, RunStep, AllValid, Moves;
    RunIsBounded(states, moves, events, nBatchSize);
    k := 0;
    while k < |events| && !events[k].Returned?
      invariant k <= |events| && Inv(states[k]) && InLoop(states[k]) && states[k].added == states[0].added
      invariant forall j | 0 <= j < k :: !events[j].Returned? && !moves[j].Adds?
    {
      StaysInLoop(states[k], moves[k], nBatchSize, events[k], states[k + 1]);
      NextMoves(states[k], nBatchSize, events[k], states[k + 1]);
      InvNext(states[k], nBatchSize, events[k], states[k + 1]);
      k := k + 1;
    }
    if k == |events| {
      var i, e, s' := WaitCanProceed(states[k], nBatchSize);
    }
    NextMoves(states[k], nBatchSize, events[k], states[k + 1]);
    InvNext(states[k], nBatchSize, events[k], states[k + 1]);
  }

  // The master has called Wait.
  predicate InLoop(s: State) {
    |s.threads| > 0 && !s.threads[0].Away?
  }

  // Only returning takes the master out of Loop, and only Add brings checks.
  lemma StaysInLoop(s: State, m: Move, nBatchSize: nat, e: Event, s': State)
    requires InLoop(s) && Moves(s, m, nBatchSize, e, s') && !e.Returned?
    ensures InLoop(s') && s'.added == s.added && !m.Adds?
  {
    hide BatchCount, Reverse, WorkersNotified;
  }
}
