/** The mutable half of Scheduler: the list of entries and its counter, as the critical
    sections of schedule() and run() change them. */
module Schedulers {
  import opened Options
  import opened RunLoop

  /** The entries a batch puts into the queue: the slots that hold something, in order. */
  function Filled(slots: seq<Option<Job>>): (es: seq<Entry>)
    ensures |es| <= |slots| && forall e :: e in es ==> e.thread == None && Some(e.job) in slots
  {
    if slots == [] then []
    else Filled(slots[..|slots| - 1]) + FilledOne(slots[|slots| - 1])
  }

  function FilledOne(slot: Option<Job>): seq<Entry> {
    FilledEntry(slot, None)
  }

  function FilledEntry(slot: Option<Job>, thread: Option<nat>): seq<Entry> {
    if slot.Some? then [Entry(slot.value, thread)] else []
  }

  lemma FilledNext(slots: seq<Option<Job>>, i: nat, given: multiset<Entry>)
    requires i < |slots|
    ensures Filled(slots[..i + 1]) == Filled(slots[..i]) + FilledOne(slots[i])
    ensures given + multiset(Filled(slots[..i])) + multiset(FilledOne(slots[i])) == given + multiset(Filled(slots[..i + 1]))
  {
    assert slots[..i + 1][..i] == slots[..i];
  }

  class Scheduler {
    var fibers: seq<Entry>                 // m_fibers
    var states: map<nat, FiberState>       // the state each fiber object carries
    var workers: map<nat, Phase>           // where each thread is in run()
    var activeThreadCount: int
    var autostop: bool
    var stopping: bool
    ghost var given: multiset<Entry>
    ghost var taken: multiset<Entry>

    ghost function View(): Sys
      reads this
    {
      Sys(fibers, workers, states, activeThreadCount, autostop, stopping, given, taken)
    }

    constructor (threads: set<nat>)
      ensures View() == Start(threads)
    {
      fibers, states, workers := [], map[], map w | w in threads :: Top;
      activeThreadCount, autostop, stopping := 0, false, false;
      given, taken := multiset{}, multiset{};
    }

    /** An empty pointer or function is dropped; the answer only says whether the list was empty. */
    method ScheduleNoLock(fc: Option<Job>, thread: Option<nat>) returns (needTickle: bool)
      modifies `fibers, `given
      ensures fibers == old(fibers) + FilledEntry(fc, thread) && given == old(given) + multiset(FilledEntry(fc, thread))
      ensures View() == if fc.Some? then Next(old(View()), Schedule(Entry(fc.value, thread))) else old(View())
      ensures needTickle <==> old(fibers) == []
    {
      needTickle := fibers == [];
      if fc.Some? {
        fibers := fibers + [Entry(fc.value, thread)];
        given := given + multiset{Entry(fc.value, thread)};
      }
    }

    /** The batch form swaps each job out of the caller's slots, so every job is handed over
        exactly once, in order. */
    method ScheduleAll(slots: array<Option<Job>>) returns (needTickle: bool)
      modifies `fibers, `given, slots
      ensures forall i :: 0 <= i < slots.Length ==> slots[i] == None
      ensures fibers == old(fibers) + Filled(old(slots[..]))
      ensures given == old(given) + multiset(Filled(old(slots[..])))
      ensures needTickle <==> old(fibers) == [] && slots.Length > 0
    {
      needTickle := false;
      hide Filled;
      ghost var jobs := slots[..];
      assert Filled(jobs[..0]) == [];
      var i := 0;
      while i < slots.Length
        invariant 0 <= i <= slots.Length
        invariant forall j :: 0 <= j < i ==> slots[j] == None
        invariant forall j :: i <= j < slots.Length ==> slots[j] == jobs[j]
        invariant fibers == old(fibers) + Filled(jobs[..i])
        invariant given == old(given) + multiset(Filled(jobs[..i]))
        invariant needTickle <==> old(fibers) == [] && i > 0
      {
        var fc := slots[i];
        slots[i] := None;
        var tickle := ScheduleNoLock(fc, None);
        FilledNext(jobs, i, old(given));
        assert fibers == old(fibers) + Filled(jobs[..i]) + FilledOne(jobs[i]);
        needTickle := tickle || needTickle;
        i := i + 1;
      }
      assert jobs[..i] == jobs;
    }

    /** The first critical section of run(): take the first entry this thread may run.  Other
        threads are to be woken when an entry that is theirs was passed over; if nothing is
        taken and nobody is woken, every queued entry is a fiber that is running. */
    method TakeNext(thread: nat) returns (ft: Option<Entry>, tickleMe: bool)
      requires thread in workers && workers[thread] == Top
      modifies `fibers, `workers, `activeThreadCount, `taken
      ensures View() == Next(old(View()), Take(thread))
      ensures ft == if workers[thread].Took? then Some(workers[thread].entry) else None
      ensures tickleMe <==> exists e :: e in old(fibers[..FirstEligible(states, fibers, thread)]) && PinnedElsewhere(e, thread)
      ensures ft == None && !tickleMe ==> forall e :: e in fibers ==> Executing(states, e)
    {
      ft, tickleMe := None, false;
      ghost var first := FirstEligible(states, fibers, thread);
      var it := 0;
      while it < |fibers|
        invariant 0 <= it <= first <= |fibers| == |old(fibers)|
        invariant View() == old(View())
        invariant tickleMe <==> exists e :: e in fibers[..it] && PinnedElsewhere(e, thread)
        invariant forall e :: e in fibers[..it] ==> PinnedElsewhere(e, thread) || Executing(states, e)
      {
        assert fibers[..it + 1] == fibers[..it] + [fibers[it]];
        if PinnedElsewhere(fibers[it], thread) {
          it := it + 1;
          tickleMe := true;
          continue;
        }
        if Executing(states, fibers[it]) {
          it := it + 1;
          continue;
        }
        assert it == first;
        ft := Some(fibers[it]);
        taken := taken + multiset{fibers[it]};
        workers := workers[thread := Took(fibers[it])];
        fibers := fibers[..it] + fibers[it + 1..];
        activeThreadCount := activeThreadCount + 1;
        return;
      }
      assert fibers[..it] == fibers;
      workers := workers[thread := Idling];
    }

    method IsStopping() returns (b: bool)
      ensures b <==> Stopping(View())
    {
      b := autostop && stopping && fibers == [] && activeThreadCount == 0;
    }
  }
}
