/** Scheduler::run as a transition system: any number of workers share a queue of jobs, and
    every critical section, counter update and context switch is one step, interleaved
    in any way with the others and with schedule() calls from outside. */
module RunLoop {
  import opened Options

  datatype Job = FiberJob(id: nat) | CallbackJob(id: nat)

  /** FiberAndThread; no thread means any thread. */
  datatype Entry = Entry(job: Job, thread: Option<nat>)

  datatype FiberState = INIT | HOLD | EXEC | TERM | READY | EXCEPT

  /** Where a worker is in the body of the loop. */
  datatype Phase =
    | Top                         // before the critical section
    | Took(entry: Entry)          // took an entry and counted itself active
    | Running(fiber: nat)         // switched into a fiber
    | Back(fiber: nat)            // the fiber switched back
    | Settling(fiber: nat)        // no longer counted, about to look at the fiber's state
    | Idling                      // found nothing to do
  {
    predicate Counted() {
      Took? || Running? || Back?
    }
  }

  datatype Sys = Sys(
    queue: seq<Entry>,
    workers: map<nat, Phase>,
    fibers: map<nat, FiberState>,
    active: int,
    autostop: bool,
    stop: bool,
    given: multiset<Entry>,      // every entry ever put into the queue
    taken: multiset<Entry>)      // every entry ever taken out

  // ---------------------------------------------------------------- taking an entry

  predicate PinnedElsewhere(e: Entry, thread: nat) {
    e.thread.Some? && e.thread.value != thread
  }

  predicate Executing(fibers: map<nat, FiberState>, e: Entry) {
    e.job.FiberJob? && e.job.id in fibers && fibers[e.job.id] == EXEC
  }

  predicate Eligible(fibers: map<nat, FiberState>, e: Entry, thread: nat) {
    !PinnedElsewhere(e, thread) && !Executing(fibers, e)
  }

  /** The index of the first entry the thread may take, or the length of the queue. */
  function FirstEligible(fibers: map<nat, FiberState>, q: seq<Entry>, thread: nat): (i: nat)
    ensures i <= |q|
    ensures forall j :: 0 <= j < i ==> !Eligible(fibers, q[j], thread)
    ensures i < |q| ==> Eligible(fibers, q[i], thread)
  {
    if q == [] || Eligible(fibers, q[0], thread) then 0 else 1 + FirstEligible(fibers, q[1..], thread)
  }

  function Without<T>(q: seq<T>, i: nat): seq<T>
    requires i < |q|
  {
    q[..i] + q[i + 1..]
  }

  // ---------------------------------------------------------------- steps

  datatype Step =
    | Schedule(entry: Entry)              // schedule() from anywhere
    | Take(w: nat)                        // the critical section of the loop
    | Begin(w: nat, spare: nat)           // swapIn; a callback runs in the new fiber `spare`
    | Yield(w: nat, to: FiberState)       // the fiber gives up the thread, or ends
    | Decrement(w: nat)
    | Settle(w: nat)                      // requeue a READY fiber, park another
    | Resume(w: nat)                      // the idle fiber gives up the thread
    | Stop

  predicate Queued(s: Sys, f: nat) {
    exists e :: e in s.queue && e.job == FiberJob(f)
  }

  /** The fiber a worker has in hand. */
  function Hand(p: Phase): Option<nat> {
    match p
    case Took(e) => if e.job.FiberJob? then Some(e.job.id) else None
    case Running(f) => Some(f)
    case Back(f) => Some(f)
    case Settling(f) => Some(f)
    case _ => None
  }

  predicate Held(s: Sys, f: nat) {
    exists w :: w in s.workers && Hand(s.workers[w]) == Some(f)
  }

  predicate Unknown(s: Sys, f: nat) {
    f !in s.fibers && !Queued(s, f) && !Held(s, f)
  }

  /** A step that stops the process is not enabled: swapIn asserts the fiber is not running. */
  predicate Enabled(s: Sys, step: Step) {
    match step
    case Schedule(_) => true
    case Take(w) => w in s.workers && s.workers[w] == Top
    case Begin(w, spare) =>
      && w in s.workers && s.workers[w].Took?
      && (s.workers[w].entry.job.CallbackJob? ==> Unknown(s, spare))
      && !Executing(s.fibers, s.workers[w].entry)
    case Yield(w, to) => w in s.workers && s.workers[w].Running? && to in {READY, HOLD, TERM}
    case Decrement(w) => w in s.workers && s.workers[w].Back?
    case Settle(w) => w in s.workers && s.workers[w].Settling?
    case Resume(w) => w in s.workers && s.workers[w] == Idling
    case Stop => true
  }

  /** scheduleNoLock: at the end of the queue. */
  function Enqueue(s: Sys, e: Entry): Sys {
    s.(queue := s.queue + [e], given := s.given + multiset{e})
  }

  function StateOf(s: Sys, fiber: nat): FiberState {
    if fiber in s.fibers then s.fibers[fiber] else INIT
  }

  function Next(s: Sys, step: Step): Sys
    requires Enabled(s, step)
  {
    match step
    case Schedule(e) => Enqueue(s, e)
    case Take(w) =>
      var i := FirstEligible(s.fibers, s.queue, w);
      if i < |s.queue|
      then s.(queue := Without(s.queue, i), workers := s.workers[w := Took(s.queue[i])], active := s.active + 1,
               taken := s.taken + multiset{s.queue[i]})
      else s.(workers := s.workers[w := Idling])
    case Begin(w, spare) =>
      var job := s.workers[w].entry.job;
      if job.FiberJob? && StateOf(s, job.id) in {TERM, EXCEPT}
      then s.(workers := s.workers[w := Idling], active := s.active - 1)
      else
        var f := if job.FiberJob? then job.id else spare;
        s.(workers := s.workers[w := Running(f)], fibers := s.fibers[f := EXEC])
    case Yield(w, to) =>
      var f := s.workers[w].fiber;
      s.(workers := s.workers[w := Back(f)], fibers := s.fibers[f := to])
    case Decrement(w) =>
      s.(workers := s.workers[w := Settling(s.workers[w].fiber)], active := s.active - 1)
    case Settle(w) =>
      var f := s.workers[w].fiber;
      var s' := s.(workers := s.workers[w := Top]);
      if StateOf(s, f) == READY then Enqueue(s', Entry(FiberJob(f), None))
      else if StateOf(s, f) in {TERM, EXCEPT} then s'
      else s'.(fibers := s.fibers[f := HOLD])
    case Resume(w) => s.(workers := s.workers[w := Top])
    case Stop => s.(autostop := true, stop := true)
  }

  /** Scheduler::stopping. */
  predicate Stopping(s: Sys) {
    s.autostop && s.stop && s.queue == [] && s.active == 0
  }

  function Start(threads: set<nat>): Sys {
    Sys([], map w | w in threads :: Top, map[], 0, false, false, multiset{}, multiset{})
  }

  // ---------------------------------------------------------------- the counter

  function CountedWorkers(workers: map<nat, Phase>): set<nat> {
    set w | w in workers && workers[w].Counted()
  }

  /** The counter is the number of workers between taking an entry and the decrement. */
  predicate Counts(s: Sys) {
    s.active == |CountedWorkers(s.workers)|
  }

  lemma CountChange(workers: map<nat, Phase>, w: nat, p: Phase)
    requires w in workers
    ensures |CountedWorkers(workers[w := p])| == |CountedWorkers(workers)|
              + (if p.Counted() then 1 else 0) - (if workers[w].Counted() then 1 else 0)
  {
    var before, after := CountedWorkers(workers), CountedWorkers(workers[w := p]);
    if p.Counted() {
      assert after == before + {w};
    } else {
      assert after == before - {w};
    }
  }

  lemma NextCounts(s: Sys, step: Step)
    requires Counts(s) && Enabled(s, step)
    ensures Counts(Next(s, step)) && Next(s, step).active >= 0
  {
    hide CountedWorkers, FirstEligible, Without, StateOf, Unknown, Executing;
    var s' := Next(s, step);
    if !step.Schedule? && !step.Stop? {
      CountChange(s.workers, step.w, s'.workers[step.w]);
    }
  }

  // ---------------------------------------------------------------- runs

  predicate EnabledRun(s: Sys, steps: seq<Step>)
    decreases |steps|
  {
    steps == [] || (Enabled(s, steps[0]) && EnabledRun(Next(s, steps[0]), steps[1..]))
  }

  function Run(s: Sys, steps: seq<Step>): Sys
    requires EnabledRun(s, steps)
    decreases |steps|
  {
    if steps == [] then s else Run(Next(s, steps[0]), steps[1..])
  }

  /** Under every interleaving the counter is exact and never negative. */
  lemma {:induction false} RunCounts(s: Sys, steps: seq<Step>)
    requires Counts(s) && EnabledRun(s, steps)
    ensures Counts(Run(s, steps)) && Run(s, steps).active >= 0
    decreases |steps|
  {
    if steps != [] {
      NextCounts(s, steps[0]);
      RunCounts(Next(s, steps[0]), steps[1..]);
    }
  }

  /** When the scheduler reports that it can stop, no entry is queued and no worker holds one
      it has not finished with; all that can be left is a fiber being settled. */
  lemma StoppingIsQuiet(threads: set<nat>, steps: seq<Step>)
    requires EnabledRun(Start(threads), steps) && Stopping(Run(Start(threads), steps))
    ensures var s := Run(Start(threads), steps);
      s.queue == [] && forall w :: w in s.workers ==> s.workers[w].Top? || s.workers[w].Idling? || s.workers[w].Settling?
  {
    assert CountedWorkers(Start(threads).workers) == {};
    RunCounts(Start(threads), steps);
    var s := Run(Start(threads), steps);
    assert CountedWorkers(s.workers) == {};
    forall w | w in s.workers
      ensures !s.workers[w].Counted()
    {
      assert w !in CountedWorkers(s.workers);
    }
  }

  // ---------------------------------------------------------------- the queue

  /** Every entry given to the scheduler is taken once or still queued, and a worker only
      holds an entry that may run on its thread. */
  predicate Delivered(s: Sys) {
    && s.given == multiset(s.queue) + s.taken
    && (forall w :: w in s.workers && s.workers[w].Took? ==> !PinnedElsewhere(s.workers[w].entry, w))
  }

  /** Taking removes the first entry the thread may take and keeps the order of the rest. */
  lemma TakesFirst(s: Sys, w: nat) returns (before: seq<Entry>, after: seq<Entry>)
    requires Enabled(s, Take(w))
    ensures var s' := Next(s, Take(w));
      if exists e :: e in s.queue && Eligible(s.fibers, e, w)
      then
        && s'.workers[w].Took? && Eligible(s.fibers, s'.workers[w].entry, w)
        && s.queue == before + [s'.workers[w].entry] + after && s'.queue == before + after
        && forall e :: e in before ==> !Eligible(s.fibers, e, w)
      else s'.workers[w] == Idling && s'.queue == s.queue
  {
    hide Eligible;
    var i := FirstEligible(s.fibers, s.queue, w);
    if i < |s.queue| {
      before, after := s.queue[..i], s.queue[i + 1..];
      assert s.queue[i] in s.queue;
      assert s.queue == before + [s.queue[i]] + after;
    } else {
      before, after := [], [];
    }
  }

  lemma WithoutMembers(q: seq<Entry>, i: nat)
    requires i < |q|
    ensures multiset(q) == multiset(Without(q, i)) + multiset{q[i]}
    ensures forall x :: x in Without(q, i) ==> x in q
  {
    assert q == q[..i] + [q[i]] + q[i + 1..];
  }

  lemma TakeDelivers(s: Sys, w: nat)
    requires Delivered(s) && Enabled(s, Take(w))
    ensures Delivered(Next(s, Take(w)))
  {
    hide FirstEligible, Without, Executing;
    var i := FirstEligible(s.fibers, s.queue, w);
    if i < |s.queue| {
      WithoutMembers(s.queue, i);
    }
  }

  lemma EnqueueDelivers(s: Sys, e: Entry)
    requires Delivered(s)
    ensures Delivered(Enqueue(s, e))
  {
  }

  lemma PhaseDelivers(s: Sys, s': Sys, w: nat, p: Phase)
    requires Delivered(s) && s'.queue == s.queue && s'.given == s.given && s'.taken == s.taken
    requires s'.workers == s.workers[w := p] && !p.Took?
    ensures Delivered(s')
  {
  }

  lemma SettleDelivers(s: Sys, w: nat)
    requires Delivered(s) && Enabled(s, Settle(w))
    ensures Delivered(Next(s, Settle(w)))
  {
    hide Delivered, StateOf, Enqueue;
    var t := s.(workers := s.workers[w := Top]);
    PhaseDelivers(s, t, w, Top);
    EnqueueDelivers(t, Entry(FiberJob(s.workers[w].fiber), None));
    PhaseDelivers(s, t.(fibers := s.fibers[s.workers[w].fiber := HOLD]), w, Top);
  }

  lemma NextDelivers(s: Sys, step: Step)
    requires Delivered(s) && Enabled(s, step)
    ensures Delivered(Next(s, step))
  {
    hide Delivered, FirstEligible, Without, Executing, Unknown, StateOf, Enqueue;
    var s' := Next(s, step);
    match step
    case Schedule(e) => EnqueueDelivers(s, e);
    case Take(w) => TakeDelivers(s, w);
    case Settle(w) => SettleDelivers(s, w);
    case Stop => StopDelivers(s);
    case _ => PhaseDelivers(s, s', step.w, s'.workers[step.w]);
  }

  lemma StopDelivers(s: Sys)
    requires Delivered(s)
    ensures Delivered(Next(s, Stop))
  {
  }

  lemma {:induction false} RunDelivers(s: Sys, steps: seq<Step>)
    requires Delivered(s) && EnabledRun(s, steps)
    ensures Delivered(Run(s, steps))
    decreases |steps|
  {
    if steps != [] {
      NextDelivers(s, steps[0]);
      RunDelivers(Next(s, steps[0]), steps[1..]);
    }
  }

  // ---------------------------------------------------------------- one worker per fiber

  /** A fiber is scheduled only while it is neither queued nor in some worker's hands. */
  predicate Disciplined(s: Sys, step: Step) {
    step.Schedule? && step.entry.job.FiberJob? ==> !Queued(s, step.entry.job.id) && !Held(s, step.entry.job.id)
  }

  /** Every fiber is in one place, a queue entry or a worker's hands, and a fiber is EXEC
      exactly while some worker runs it. */
  ghost predicate OnePlace(s: Sys) {
    DistinctFibers(s.queue) && DistinctHands(s.workers) && HandsNotQueued(s) && RunnersExec(s) && ExecHasRunner(s)
  }

  predicate DistinctFibers(q: seq<Entry>) {
    forall i, j :: 0 <= i < j < |q| && q[i].job.FiberJob? ==> q[i].job != q[j].job
  }

  predicate DistinctHands(workers: map<nat, Phase>) {
    forall v, w :: v in workers && w in workers && v != w && Hand(workers[v]).Some? ==> Hand(workers[v]) != Hand(workers[w])
  }

  predicate HandsNotQueued(s: Sys) {
    forall w :: w in s.workers && Hand(s.workers[w]).Some? ==> !Queued(s, Hand(s.workers[w]).value)
  }

  predicate RunnersExec(s: Sys) {
    forall w :: w in s.workers && s.workers[w].Running? ==> StateOf(s, s.workers[w].fiber) == EXEC
  }

  ghost predicate ExecHasRunner(s: Sys) {
    forall f :: f in s.fibers && s.fibers[f] == EXEC ==> HasRunner(s.workers, f)
  }

  ghost predicate HasRunner(workers: map<nat, Phase>, f: nat) {
    exists w :: w in workers && workers[w] == Running(f)
  }

  lemma EnqueueKeeps(s: Sys, e: Entry)
    requires OnePlace(s) && (e.job.FiberJob? ==> !Queued(s, e.job.id) && !Held(s, e.job.id))
    ensures OnePlace(Enqueue(s, e))
  {
    hide HasRunner;
    var s' := Enqueue(s, e);
    forall i, j | 0 <= i < j < |s'.queue| && s'.queue[i].job.FiberJob?
      ensures s'.queue[i].job != s'.queue[j].job
    {
      assert s.queue[i] in s.queue;
    }
    assert forall f :: Queued(s', f) ==> Queued(s, f) || e.job == FiberJob(f);
  }

  lemma WithoutDistinct(q: seq<Entry>, i: nat)
    requires i < |q| && DistinctFibers(q)
    ensures DistinctFibers(Without(q, i))
    ensures q[i].job.FiberJob? ==> forall x :: x in Without(q, i) ==> x.job != q[i].job
  {
    var r := Without(q, i);
    assert forall j :: 0 <= j < |r| ==> r[j] == q[if j < i then j else j + 1];
  }

  lemma RunnersStay(workers: map<nat, Phase>, w: nat, p: Phase, f: nat)
    requires w in workers && HasRunner(workers, f) && workers[w] != Running(f)
    ensures HasRunner(workers[w := p], f)
  {
    var v :| v in workers && workers[v] == Running(f);
    assert workers[w := p][v] == Running(f);
  }

  /** What a step of worker w must respect: the fiber it takes in hand is in no other hand
      and not queued, and it neither abandons a running fiber nor runs one twice. */
  lemma StepKeeps(s: Sys, s': Sys, w: nat, p: Phase)
    requires OnePlace(s) && w in s.workers && s'.workers == s.workers[w := p]
    requires DistinctFibers(s'.queue) && forall f :: Queued(s', f) ==> Queued(s, f)
    requires Hand(p).Some? ==> !Queued(s', Hand(p).value)
    requires forall v :: v in s.workers && v != w && Hand(p).Some? ==> Hand(s.workers[v]) != Hand(p)
    requires p.Running? ==> StateOf(s', p.fiber) == EXEC
    requires forall f: nat :: Some(f) != Hand(s.workers[w]) && Some(f) != Hand(p) ==> StateOf(s', f) == StateOf(s, f)
    requires forall f: nat :: StateOf(s', f) == EXEC && (Some(f) == Hand(s.workers[w]) || Some(f) == Hand(p)) ==> p == Running(f)
    ensures OnePlace(s')
  {
    hide DistinctFibers, Queued;
    assert DistinctHands(s'.workers);
    assert HandsNotQueued(s');
    assert RunnersExec(s');
    forall f | f in s'.fibers && s'.fibers[f] == EXEC
      ensures HasRunner(s'.workers, f)
    {
      if p == Running(f) {
        assert s'.workers[w] == Running(f);
      } else {
        assert StateOf(s', f) == EXEC && StateOf(s, f) == EXEC;
        RunnersStay(s.workers, w, p, f);
      }
    }
  }

  lemma TakeKeeps(s: Sys, w: nat)
    requires OnePlace(s) && Enabled(s, Take(w))
    ensures OnePlace(Next(s, Take(w)))
  {
    hide FirstEligible, Without, DistinctFibers, DistinctHands, RunnersExec, HasRunner;
    var s' := Next(s, Take(w));
    var i := FirstEligible(s.fibers, s.queue, w);
    if i < |s.queue| {
      TakenKeeps(s, s', w, i);
    } else {
      assert forall f :: Queued(s', f) ==> Queued(s, f);
      StepKeeps(s, s', w, Idling);
    }
  }

  lemma TakenKeeps(s: Sys, s': Sys, w: nat, i: nat)
    requires OnePlace(s) && w in s.workers && s.workers[w] == Top && i < |s.queue| && s'.fibers == s.fibers
    requires !Executing(s.fibers, s.queue[i])
    requires s'.queue == Without(s.queue, i) && s'.workers == s.workers[w := Took(s.queue[i])]
    ensures OnePlace(s')
  {
    hide Without, DistinctFibers, DistinctHands, RunnersExec, HasRunner;
    var e := s.queue[i];
    WithoutMembers(s.queue, i);
    WithoutDistinct(s.queue, i);
    assert e in s.queue;
    assert e.job.FiberJob? ==> Queued(s, e.job.id) && !Queued(s', e.job.id);
    assert forall f :: Queued(s', f) ==> Queued(s, f);
    StepKeeps(s, s', w, Took(e));
  }

  lemma BeginKeeps(s: Sys, w: nat, spare: nat)
    requires OnePlace(s) && Enabled(s, Begin(w, spare))
    ensures OnePlace(Next(s, Begin(w, spare)))
  {
    hide DistinctFibers, RunnersExec, HasRunner;
    var s' := Next(s, Begin(w, spare));
    assert forall f :: Queued(s', f) <==> Queued(s, f);
    StepKeeps(s, s', w, s'.workers[w]);
  }

  lemma YieldKeeps(s: Sys, w: nat, to: FiberState)
    requires OnePlace(s) && Enabled(s, Yield(w, to))
    ensures OnePlace(Next(s, Yield(w, to)))
  {
    hide DistinctFibers, RunnersExec, HasRunner;
    var s' := Next(s, Yield(w, to));
    assert forall f :: Queued(s', f) <==> Queued(s, f);
    StepKeeps(s, s', w, Back(s.workers[w].fiber));
  }

  lemma HandNotExec(s: Sys, w: nat)
    requires OnePlace(s) && w in s.workers && Hand(s.workers[w]).Some? && !s.workers[w].Running?
    ensures StateOf(s, Hand(s.workers[w]).value) != EXEC
  {
    hide DistinctFibers, Queued;
    var f := Hand(s.workers[w]).value;
    forall v | v in s.workers
      ensures s.workers[v] != Running(f)
    {
      assert v != w ==> Hand(s.workers[v]) != Some(f);
    }
    assert !HasRunner(s.workers, f);
  }

  /** Steps of one worker that leave the queue and the fibers alone. */
  lemma PhaseKeeps(s: Sys, s': Sys, w: nat, p: Phase)
    requires OnePlace(s) && w in s.workers && !s.workers[w].Running? && !p.Running?
    requires s'.queue == s.queue && s'.fibers == s.fibers && s'.workers == s.workers[w := p]
    requires Hand(p) == None || Hand(p) == Hand(s.workers[w])
    ensures OnePlace(s')
  {
    hide DistinctFibers, RunnersExec, HasRunner;
    assert forall f :: Queued(s', f) <==> Queued(s, f);
    if Hand(s.workers[w]).Some? {
      HandNotExec(s, w);
    }
    StepKeeps(s, s', w, p);
  }

  lemma SettleKeeps(s: Sys, w: nat)
    requires OnePlace(s) && Enabled(s, Settle(w))
    ensures OnePlace(Next(s, Settle(w)))
  {
    hide DistinctFibers, RunnersExec, HasRunner;
    var f := s.workers[w].fiber;
    var s' := s.(workers := s.workers[w := Top]);
    if StateOf(s, f) == READY {
      PhaseKeeps(s, s', w, Top);
      assert !Held(s', f);
      assert !Queued(s', f);
      EnqueueKeeps(s', Entry(FiberJob(f), None));
    } else if StateOf(s, f) in {TERM, EXCEPT} {
      PhaseKeeps(s, s', w, Top);
    } else {
      var s'' := s'.(fibers := s.fibers[f := HOLD]);
      assert forall g :: Queued(s'', g) <==> Queued(s, g);
      StepKeeps(s, s'', w, Top);
    }
  }

  lemma NextKeeps(s: Sys, step: Step)
    requires OnePlace(s) && Enabled(s, step) && Disciplined(s, step)
    ensures OnePlace(Next(s, step))
  {
    hide FirstEligible, Without, DistinctFibers, DistinctHands, RunnersExec, HasRunner, Executing;
    var s' := Next(s, step);
    match step
    case Schedule(e) => EnqueueKeeps(s, e);
    case Take(w) => TakeKeeps(s, w);
    case Begin(w, spare) => BeginKeeps(s, w, spare);
    case Yield(w, to) => YieldKeeps(s, w, to);
    case Decrement(w) => PhaseKeeps(s, s', w, Settling(s.workers[w].fiber));
    case Settle(w) => SettleKeeps(s, w);
    case Resume(w) => PhaseKeeps(s, s', w, Top);
    case Stop => StopKeeps(s);
  }

  lemma StopKeeps(s: Sys)
    requires OnePlace(s)
    ensures OnePlace(Next(s, Stop))
  {
    hide HasRunner;
    assert forall f :: Queued(Next(s, Stop), f) <==> Queued(s, f);
  }

  /** A fiber scheduled while it is queued or in hand is in two places. */
  lemma UndisciplinedBreaks(s: Sys, e: Entry)
    requires OnePlace(s) && !Disciplined(s, Schedule(e))
    ensures !OnePlace(Enqueue(s, e))
  {
    hide HasRunner, RunnersExec, DistinctHands;
    var s' := Enqueue(s, e);
    assert s'.queue[|s.queue|] == e;
    if Queued(s, e.job.id) {
      var i :| 0 <= i < |s.queue| && s.queue[i].job == e.job;
      assert s'.queue[i].job == s'.queue[|s.queue|].job;
    } else {
      var w :| w in s.workers && Hand(s.workers[w]) == Some(e.job.id);
      assert e in s'.queue && Queued(s', e.job.id);
    }
  }

  /** Every step keeps one place per fiber exactly when it is disciplined. */
  lemma OnePlaceStep(s: Sys, step: Step)
    requires OnePlace(s) && Enabled(s, step)
    ensures OnePlace(Next(s, step)) <==> Disciplined(s, step)
  {
    hide OnePlace, FirstEligible, Without, Executing, Queued, Held;
    if Disciplined(s, step) {
      NextKeeps(s, step);
    } else {
      UndisciplinedBreaks(s, step.entry);
    }
  }

  predicate DisciplinedRun(s: Sys, steps: seq<Step>)
    requires EnabledRun(s, steps)
    decreases |steps|
  {
    steps == [] || (Disciplined(s, steps[0]) && DisciplinedRun(Next(s, steps[0]), steps[1..]))
  }

  /** One place per fiber in every state of a run. */
  ghost predicate OnePlaceRun(s: Sys, steps: seq<Step>)
    requires EnabledRun(s, steps)
    decreases |steps|
  {
    OnePlace(s) && (steps == [] || OnePlaceRun(Next(s, steps[0]), steps[1..]))
  }

  lemma {:induction false} RunKeeps(s: Sys, steps: seq<Step>)
    requires OnePlace(s) && EnabledRun(s, steps)
    ensures OnePlaceRun(s, steps) <==> DisciplinedRun(s, steps)
    ensures OnePlaceRun(s, steps) ==> OnePlace(Run(s, steps))
    decreases |steps|
  {
    hide OnePlace, Disciplined, Enabled, Next;
    if steps != [] {
      OnePlaceStep(s, steps[0]);
      if OnePlace(Next(s, steps[0])) {
        RunKeeps(Next(s, steps[0]), steps[1..]);
      } else {
        NotOnePlace(Next(s, steps[0]), steps[1..]);
      }
    }
  }

  lemma NotOnePlace(s: Sys, steps: seq<Step>)
    requires EnabledRun(s, steps) && !OnePlace(s)
    ensures !OnePlaceRun(s, steps)
  {
    hide OnePlace;
  }

  /** Under every interleaving: every fiber is in one place in every state of a run exactly
      when every schedule() call of it was for a fiber neither queued nor in hand. */
  lemma OnePlaceExactly(threads: set<nat>, steps: seq<Step>)
    requires EnabledRun(Start(threads), steps)
    ensures OnePlaceRun(Start(threads), steps) <==> DisciplinedRun(Start(threads), steps)
  {
    assert OnePlace(Start(threads));
    hide OnePlace, EnabledRun, DisciplinedRun;
    RunKeeps(Start(threads), steps);
  }

  /** With disciplined scheduling no fiber ever runs on two workers, and the assertion in
      swapIn never fails: an entry a worker has taken is never for a running fiber. */
  lemma OneWorkerPerFiber(threads: set<nat>, steps: seq<Step>)
    requires EnabledRun(Start(threads), steps) && DisciplinedRun(Start(threads), steps)
    ensures var s := Run(Start(threads), steps);
      && (forall v, w :: v in s.workers && w in s.workers && s.workers[v].Running? && s.workers[v] == s.workers[w] ==> v == w)
      && (forall w :: w in s.workers && s.workers[w].Took? ==> !Executing(s.fibers, s.workers[w].entry))
  {
    assert OnePlace(Start(threads));
    RunKeeps(Start(threads), steps);
    var s := Run(Start(threads), steps);
    hide EnabledRun, DisciplinedRun, OnePlaceRun, Run, HandsNotQueued, DistinctFibers, RunnersExec, ExecHasRunner;
    forall v, w | v in s.workers && w in s.workers && s.workers[v].Running? && s.workers[v] == s.workers[w]
      ensures v == w
    {
      assert Hand(s.workers[v]) == Hand(s.workers[w]);
    }
    forall w | w in s.workers && s.workers[w].Took?
      ensures !Executing(s.fibers, s.workers[w].entry)
    {
      if s.workers[w].entry.job.FiberJob? {
        HandNotExec(s, w);
      }
    }
  }

  // ---------------------------------------------------------------- what discipline is for

  lemma RunCons(s: Sys, step: Step, steps: seq<Step>)
    requires Enabled(s, step) && EnabledRun(Next(s, step), steps)
    ensures EnabledRun(s, [step] + steps) && Run(s, [step] + steps) == Run(Next(s, step), steps)
  {
    assert ([step] + steps)[1..] == steps;
  }

  /** The state once worker w runs fiber f, scheduled on an otherwise empty queue. */
  function PickedUp(s: Sys, w: nat, f: nat): Sys {
    var e := Entry(FiberJob(f), None);
    s.(workers := s.workers[w := Running(f)], fibers := s.fibers[f := EXEC], active := s.active + 1,
       given := s.given + multiset{e}, taken := s.taken + multiset{e})
  }

  function PickUpSteps(w: nat, f: nat, rest: seq<Step>): seq<Step> {
    [Schedule(Entry(FiberJob(f), None))] + ([Take(w)] + ([Begin(w, 0)] + rest))
  }

  /** A whole turn of the loop up to the context switch. */
  lemma PickUp(s: Sys, w: nat, f: nat, rest: seq<Step>)
    requires w in s.workers && s.workers[w] == Top && s.queue == [] && StateOf(s, f) in {INIT, HOLD}
    requires EnabledRun(PickedUp(s, w, f), rest)
    ensures EnabledRun(s, PickUpSteps(w, f, rest))
    ensures Run(s, PickUpSteps(w, f, rest)) == Run(PickedUp(s, w, f), rest)
  {
    hide *;
    PickUpNext(s, w, f);
    var s1 := Next(s, Schedule(Entry(FiberJob(f), None)));
    var s2 := Next(s1, Take(w));
    RunCons(s2, Begin(w, 0), rest);
    RunCons(s1, Take(w), [Begin(w, 0)] + rest);
    RunCons(s, Schedule(Entry(FiberJob(f), None)), [Take(w)] + ([Begin(w, 0)] + rest));
    PickUpStepsAre(w, f, rest);
  }

  lemma PickUpStepsAre(w: nat, f: nat, rest: seq<Step>)
    ensures PickUpSteps(w, f, rest) == [Schedule(Entry(FiberJob(f), None))] + ([Take(w)] + ([Begin(w, 0)] + rest))
  {
  }

  lemma PickUpNext(s: Sys, w: nat, f: nat)
    requires w in s.workers && s.workers[w] == Top && s.queue == [] && StateOf(s, f) in {INIT, HOLD}
    ensures var e := Entry(FiberJob(f), None);
      && Enabled(s, Schedule(e))
      && Enabled(Next(s, Schedule(e)), Take(w))
      && Enabled(Next(Next(s, Schedule(e)), Take(w)), Begin(w, 0))
      && Next(Next(Next(s, Schedule(e)), Take(w)), Begin(w, 0)) == PickedUp(s, w, f)
  {
    var e := Entry(FiberJob(f), None);
    hide *;
    FreeEligible(s, f, w);
    TakeOnly(s, w, e);
    PickedUpIs(s, w, f);
    BeginFiber(Taken(s, w, e), w, f);
  }

  function Taken(s: Sys, w: nat, e: Entry): Sys {
    s.(workers := s.workers[w := Took(e)], active := s.active + 1, given := s.given + multiset{e}, taken := s.taken + multiset{e})
  }

  lemma PickedUpIs(s: Sys, w: nat, f: nat)
    ensures var s2 := Taken(s, w, Entry(FiberJob(f), None));
      && w in s2.workers && s2.workers[w] == Took(Entry(FiberJob(f), None)) && s2.fibers == s.fibers
      && StateOf(s2, f) == StateOf(s, f)
      && s2.(workers := s2.workers[w := Running(f)], fibers := s2.fibers[f := EXEC]) == PickedUp(s, w, f)
  {
    var s2 := Taken(s, w, Entry(FiberJob(f), None));
    assert s2.workers[w := Running(f)] == s.workers[w := Running(f)];
  }

  lemma BeginFiber(s: Sys, w: nat, f: nat)
    requires w in s.workers && s.workers[w] == Took(Entry(FiberJob(f), None)) && StateOf(s, f) in {INIT, HOLD}
    ensures Enabled(s, Begin(w, 0))
    ensures Next(s, Begin(w, 0)) == s.(workers := s.workers[w := Running(f)], fibers := s.fibers[f := EXEC])
  {
    hide Queued, Held, Unknown, FirstEligible, Without, Enqueue;
  }

  lemma TakeOnly(s: Sys, w: nat, e: Entry)
    requires w in s.workers && s.workers[w] == Top && s.queue == [] && Eligible(s.fibers, e, w)
    ensures Enabled(s, Schedule(e)) && Enabled(Next(s, Schedule(e)), Take(w))
    ensures Next(Next(s, Schedule(e)), Take(w)) == Taken(s, w, e)
  {
    var s1 := Next(s, Schedule(e));
    assert s1.queue == [e];
    assert FirstEligible(s1.fibers, s1.queue, w) == 0;
    assert Without(s1.queue, 0) == [];
  }

  lemma FreeEligible(s: Sys, f: nat, w: nat)
    requires StateOf(s, f) in {INIT, HOLD}
    ensures Eligible(s.fibers, Entry(FiberJob(f), None), w)
  {
  }

  /** Worker v's fiber yields to HOLD, is scheduled again and picked up by w, and only then
      does v settle it: HOLD overwrites EXEC although w is running the fiber. */
  lemma SettleOverwrites(s: Sys, v: nat, w: nat, f: nat) returns (after: Sys)
    requires v in s.workers && w in s.workers && v != w && s.queue == []
    requires s.workers[v] == Running(f) && s.workers[w] == Top
    ensures after.queue == [] && after.workers == s.workers[w := Running(f)][v := Top] && StateOf(after, f) == HOLD
    ensures forall rest :: EnabledRun(after, rest) ==>
      && EnabledRun(s, OverwriteSteps(v, w, f, rest))
      && Run(s, OverwriteSteps(v, w, f, rest)) == Run(after, rest)
  {
    hide EnabledRun, Run, PickUpSteps, FirstEligible, Without, Enqueue, Unknown, OverwriteSteps;
    var s1 := Next(s, Yield(v, HOLD));
    assert Enabled(s, Yield(v, HOLD)) && s1.workers == s.workers[v := Back(f)] && StateOf(s1, f) == HOLD && s1.queue == [];
    PickedUpFields(s1, w, f);
    var s2 := PickedUp(s1, w, f);
    hide PickedUp;
    var s3 := Next(s2, Decrement(v));
    assert Enabled(s2, Decrement(v)) && s3.workers == s2.workers[v := Settling(f)] && s3.fibers == s2.fibers && s3.queue == [];
    SameState(s3, s2, f);
    after := Next(s3, Settle(v));
    assert Enabled(s3, Settle(v)) && StateOf(after, f) == HOLD && after.queue == [];
    assert after.workers == s.workers[w := Running(f)][v := Top];
    hide Next, Enabled, StateOf;
    forall rest | EnabledRun(after, rest)
      ensures EnabledRun(s, OverwriteSteps(v, w, f, rest)) && Run(s, OverwriteSteps(v, w, f, rest)) == Run(after, rest)
    {
      OverwriteRuns(s, v, w, f, rest);
    }
  }

  function OverwriteSteps(v: nat, w: nat, f: nat, rest: seq<Step>): seq<Step> {
    [Yield(v, HOLD)] + PickUpSteps(w, f, [Decrement(v)] + ([Settle(v)] + rest))
  }

  lemma OverwriteRuns(s: Sys, v: nat, w: nat, f: nat, rest: seq<Step>)
    requires Enabled(s, Yield(v, HOLD))
    requires var s1 := Next(s, Yield(v, HOLD));
      && w in s1.workers && s1.workers[w] == Top && s1.queue == [] && StateOf(s1, f) in {INIT, HOLD}
    requires var s2 := PickedUp(Next(s, Yield(v, HOLD)), w, f);
      && Enabled(s2, Decrement(v)) && Enabled(Next(s2, Decrement(v)), Settle(v))
      && EnabledRun(Next(Next(s2, Decrement(v)), Settle(v)), rest)
    ensures EnabledRun(s, OverwriteSteps(v, w, f, rest))
    ensures Run(s, OverwriteSteps(v, w, f, rest)) ==
              Run(Next(Next(PickedUp(Next(s, Yield(v, HOLD)), w, f), Decrement(v)), Settle(v)), rest)
  {
    OverwriteStepsAre(v, w, f, rest);
    hide *;
    var s1 := Next(s, Yield(v, HOLD));
    var s2 := PickedUp(s1, w, f);
    var s3 := Next(s2, Decrement(v));
    RunCons(s3, Settle(v), rest);
    RunCons(s2, Decrement(v), [Settle(v)] + rest);
    PickUp(s1, w, f, [Decrement(v)] + ([Settle(v)] + rest));
    RunCons(s, Yield(v, HOLD), PickUpSteps(w, f, [Decrement(v)] + ([Settle(v)] + rest)));
  }

  lemma OverwriteStepsAre(v: nat, w: nat, f: nat, rest: seq<Step>)
    ensures OverwriteSteps(v, w, f, rest) == [Yield(v, HOLD)] + PickUpSteps(w, f, [Decrement(v)] + ([Settle(v)] + rest))
  {
  }

  /** The first breach, a fiber scheduled before the worker it ran on has settled it.  Two
      workers are enough: with one running a fiber, the other between turns and nothing
      queued, the fiber can end up running on both. */
  lemma UndisciplinedRunsTwice(s: Sys, v: nat, w: nat, f: nat) returns (steps: seq<Step>)
    requires v in s.workers && w in s.workers && v != w && s.queue == []
    requires s.workers[v] == Running(f) && s.workers[w] == Top
    ensures EnabledRun(s, steps)
    ensures var s' := Run(s, steps);
      v in s'.workers && w in s'.workers && s'.workers[v] == s'.workers[w] == Running(f)
  {
    hide EnabledRun, Run, OverwriteSteps, PickUpSteps, Next;
    var after := SettleOverwrites(s, v, w, f);
    RunNone(PickedUp(after, v, f));
    PickUp(after, v, f, []);
    steps := OverwriteSteps(v, w, f, PickUpSteps(v, f, []));
  }

  /** Worker w has taken an entry for a fiber that is running: swapIn asserts that it is not. */
  predicate AssertsAt(s: Sys, w: nat) {
    w in s.workers && s.workers[w].Took? && Executing(s.fibers, s.workers[w].entry)
  }

  lemma AssertsOn(s: Sys, w: nat, f: nat)
    requires w in s.workers && s.workers[w] == Took(Entry(FiberJob(f), None)) && StateOf(s, f) == EXEC
    ensures AssertsAt(s, w)
  {
  }

  lemma ScheduleIs(s: Sys, e: Entry)
    ensures Enabled(s, Schedule(e))
    ensures var s' := Next(s, Schedule(e));
      s'.queue == s.queue + [e] && s'.workers == s.workers && s'.fibers == s.fibers
  {
  }

  lemma SameState(s: Sys, t: Sys, f: nat)
    requires s.fibers == t.fibers
    ensures StateOf(s, f) == StateOf(t, f)
  {
  }

  lemma BegunState(s: Sys, s': Sys, f: nat)
    requires s'.fibers == s.fibers[f := EXEC]
    ensures StateOf(s', f) == EXEC
  {
  }

  /** The second breach, a fiber scheduled while it is queued: both entries are taken before
      either worker has begun, and the second worker comes to the assertion. */
  lemma QueuedTwiceStops(s: Sys, v: nat, w: nat, f: nat) returns (steps: seq<Step>)
    requires v in s.workers && w in s.workers && v != w && s.queue == [] && StateOf(s, f) in {INIT, HOLD}
    requires s.workers[v] == Top && s.workers[w] == Top
    ensures EnabledRun(s, steps) && AssertsAt(Run(s, steps), w)
  {
    hide *;
    var e := Entry(FiberJob(f), None);
    FreeEligible(s, f, v);
    FreeEligible(s, f, w);
    ScheduleIs(s, e);
    var s1 := Next(s, Schedule(e));
    ScheduleIs(s1, e);
    var s2 := Next(s1, Schedule(e));
    assert s2.queue == [e] + [e] by { assert [] + [e] + [e] == [e] + [e]; }
    TakeHead(s2, v, e, [e]);
    var s3 := Next(s2, Take(v));
    assert [e] + [] == [e];
    TakeHead(s3, w, e, []);
    var s4 := Next(s3, Take(w));
    SameState(s4, s, f);
    BeginFiber(s4, v, f);
    var s5 := Next(s4, Begin(v, 0));
    BegunState(s4, s5, f);
    AssertsOn(s5, w, f);
    RunNone(s5);
    RunCons(s4, Begin(v, 0), []);
    RunCons(s3, Take(w), [Begin(v, 0)] + []);
    var t := [Take(w)] + ([Begin(v, 0)] + []);
    RunCons(s2, Take(v), t);
    RunCons(s1, Schedule(e), [Take(v)] + t);
    RunCons(s, Schedule(e), [Schedule(e)] + ([Take(v)] + t));
    steps := [Schedule(e)] + ([Schedule(e)] + ([Take(v)] + t));
  }

  /** The third breach, a fiber scheduled while a worker has taken it and not begun: another
      worker picks it up, and the first comes to the assertion. */
  lemma TakenTwiceStops(s: Sys, v: nat, w: nat, f: nat) returns (steps: seq<Step>)
    requires v in s.workers && w in s.workers && v != w && s.queue == [] && StateOf(s, f) in {INIT, HOLD}
    requires s.workers[v] == Top && s.workers[w] == Top
    ensures EnabledRun(s, steps) && AssertsAt(Run(s, steps), v)
  {
    hide *;
    var e := Entry(FiberJob(f), None);
    FreeEligible(s, f, v);
    TakeOnly(s, v, e);
    TakenIs(s, v, e);
    var s1 := Next(s, Schedule(e));
    var s2 := Next(s1, Take(v));
    SameState(s2, s, f);
    PickedUpFields(s2, w, f);
    var s3 := PickedUp(s2, w, f);
    AssertsOn(s3, v, f);
    RunNone(s3);
    PickUp(s2, w, f, []);
    RunCons(s1, Take(v), PickUpSteps(w, f, []));
    RunCons(s, Schedule(e), [Take(v)] + PickUpSteps(w, f, []));
    steps := [Schedule(e)] + ([Take(v)] + PickUpSteps(w, f, []));
  }

  lemma TakenIs(s: Sys, w: nat, e: Entry)
    ensures var s' := Taken(s, w, e); s'.workers == s.workers[w := Took(e)] && s'.queue == s.queue && s'.fibers == s.fibers
  {
  }

  lemma PickedUpFields(s: Sys, w: nat, f: nat)
    ensures var s' := PickedUp(s, w, f);
      s'.workers == s.workers[w := Running(f)] && s'.queue == s.queue && StateOf(s', f) == EXEC
  {
  }

  lemma StartIs(threads: set<nat>, w: nat, f: nat)
    requires w in threads
    ensures var s := Start(threads); w in s.workers && s.workers[w] == Top && s.queue == [] && StateOf(s, f) == INIT
  {
  }

  /** The first breach is a run from the initial state of any scheduler with two threads, for
      any fiber. */
  lemma RunsTwiceFromStart(threads: set<nat>, v: nat, w: nat, f: nat) returns (steps: seq<Step>)
    requires v in threads && w in threads && v != w
    ensures EnabledRun(Start(threads), steps)
    ensures var s := Run(Start(threads), steps);
      v in s.workers && w in s.workers && s.workers[v] == s.workers[w] == Running(f)
  {
    hide *;
    var s := Start(threads);
    StartIs(threads, v, f);
    StartIs(threads, w, f);
    PickedUpFields(s, v, f);
    var rest := UndisciplinedRunsTwice(PickedUp(s, v, f), v, w, f);
    PickUp(s, v, f, rest);
    steps := PickUpSteps(v, f, rest);
  }

  /** And so are the other two. */
  lemma StopsFromStart(threads: set<nat>, v: nat, w: nat, f: nat) returns (queued: seq<Step>, taken: seq<Step>)
    requires v in threads && w in threads && v != w
    ensures EnabledRun(Start(threads), queued) && AssertsAt(Run(Start(threads), queued), w)
    ensures EnabledRun(Start(threads), taken) && AssertsAt(Run(Start(threads), taken), v)
  {
    hide *;
    StartIs(threads, v, f);
    StartIs(threads, w, f);
    queued := QueuedTwiceStops(Start(threads), v, w, f);
    taken := TakenTwiceStops(Start(threads), v, w, f);
  }

  lemma TakeHead(s: Sys, w: nat, e: Entry, rest: seq<Entry>)
    requires w in s.workers && s.workers[w] == Top && s.queue == [e] + rest && Eligible(s.fibers, e, w)
    ensures Enabled(s, Take(w))
    ensures var s' := Next(s, Take(w));
      s'.queue == rest && s'.workers == s.workers[w := Took(e)] && s'.fibers == s.fibers
  {
    assert FirstEligible(s.fibers, s.queue, w) == 0;
    assert Without(s.queue, 0) == rest;
  }

  lemma RunNone(s: Sys)
    ensures EnabledRun(s, []) && Run(s, []) == s
  {
  }

  // ---------------------------------------------------------------- when stopping is final

  /** Some worker is about to put a fiber that is ready to run back into the queue. */
  predicate Requeueing(s: Sys) {
    exists w :: w in s.workers && s.workers[w].Settling? && StateOf(s, s.workers[w].fiber) == READY
  }

  predicate Unscheduled(steps: seq<Step>) {
    forall i :: 0 <= i < |steps| ==> !steps[i].Schedule?
  }

  lemma NothingCounted(s: Sys, w: nat)
    requires Counts(s) && Stopping(s) && w in s.workers
    ensures !s.workers[w].Counted()
  {
    assert CountedWorkers(s.workers) == {};
    assert w !in CountedWorkers(s.workers);
  }

  lemma StoppingStep(s: Sys, step: Step)
    requires Counts(s) && Stopping(s) && !Requeueing(s) && Enabled(s, step) && !step.Schedule?
    ensures Counts(Next(s, step)) && Stopping(Next(s, step)) && !Requeueing(Next(s, step))
  {
    hide FirstEligible, CountedWorkers, Unknown;
    NextCounts(s, step);
    if step.Begin? || step.Yield? || step.Decrement? {
      NothingCounted(s, step.w);
    } else if step.Take? {
      assert FirstEligible(s.fibers, s.queue, step.w) == 0;
    }
    var s' := Next(s, step);
    forall w | w in s'.workers && s'.workers[w].Settling?
      ensures StateOf(s', s'.workers[w].fiber) != READY
    {
      assert w in s.workers && s.workers[w] == s'.workers[w];
    }
  }

  lemma {:induction false} StoppingRun(s: Sys, steps: seq<Step>)
    requires Counts(s) && Stopping(s) && !Requeueing(s) && EnabledRun(s, steps) && Unscheduled(steps)
    ensures Stopping(Run(s, steps))
    decreases |steps|
  {
    hide Counts, Stopping, Requeueing, Enabled, Next;
    if steps != [] {
      StoppingStep(s, steps[0]);
      StoppingRun(Next(s, steps[0]), steps[1..]);
    }
  }

  /** A reported stop is final, as long as nothing is scheduled from outside, exactly when no
      worker is settling a fiber that is ready to run. */
  lemma StoppingIsFinal(s: Sys)
    requires Counts(s) && Stopping(s)
    ensures (forall steps :: EnabledRun(s, steps) && Unscheduled(steps) ==> Stopping(Run(s, steps))) <==> !Requeueing(s)
  {
    if Requeueing(s) {
      var w :| w in s.workers && s.workers[w].Settling? && StateOf(s, s.workers[w].fiber) == READY;
      var s' := Next(s, Settle(w));
      assert |s'.queue| == 1;
      hide EnabledRun, Run, Next;
      RunNone(s');
      RunCons(s, Settle(w), []);
      assert Unscheduled([Settle(w)] + []) && !Stopping(Run(s, [Settle(w)] + []));
    } else {
      forall steps | EnabledRun(s, steps) && Unscheduled(steps)
        ensures Stopping(Run(s, steps))
      {
        StoppingRun(s, steps);
      }
    }
  }

  /** Such a state is reached whenever a single worker is busy: its fiber yields to READY and
      the worker counts itself off. */
  lemma StoppingBeforeRequeue(s: Sys, v: nat) returns (steps: seq<Step>)
    requires v in s.workers && s.workers[v].Running? && s.queue == [] && s.active == 1
    ensures EnabledRun(s, steps) && Unscheduled(steps)
    ensures Stopping(Run(s, steps)) && Requeueing(Run(s, steps))
  {
    var f := s.workers[v].fiber;
    var s1 := Next(s, Yield(v, READY));
    var s2 := Next(s1, Decrement(v));
    var s3 := Next(s2, Stop);
    assert s3.workers[v] == Settling(f) && StateOf(s3, f) == READY;
    hide EnabledRun, Run, Next;
    RunNone(s3);
    RunCons(s2, Stop, []);
    RunCons(s1, Decrement(v), [Stop] + []);
    RunCons(s, Yield(v, READY), [Decrement(v)] + ([Stop] + []));
    steps := [Yield(v, READY)] + ([Decrement(v)] + ([Stop] + []));
  }
}
