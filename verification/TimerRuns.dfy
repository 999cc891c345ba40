/** Whole runs of a TimerManager: any sequence of calls, from any threads, each one atomic
    under the manager's lock. */
module TimerRuns {
  import opened Options
  import opened TimerSpec

  datatype Event =
    | AddTimer(addr: nat, ms: nat, recurring: bool, cb: nat, now: nat)
    | CancelTimer(addr: nat)
    | RefreshTimer(addr: nat, now: nat)
    | ResetTimer(addr: nat, ms: nat, fromNow: bool, now: nat)
    | GetNextTimer(now: nat)
    | ListExpiredCb(now: nat, probe: nat)

  /** A manager with its history: every timer ever made, the one-shot timers made, fired and
      cancelled, the earliest deadline there was when the sleeper last asked for it, and the
      latest of all clock readings. */
  datatype World = World(
    st: State,
    made: set<nat>,
    oneShots: multiset<nat>,
    fired: multiset<nat>,
    cancelled: multiset<nat>,
    earliest: Option<nat>,
    clock: nat)

  function Start(now: nat): World {
    World(Initial(now), {}, multiset{}, multiset{}, multiset{}, None, now)
  }

  function Time(w: World, ev: Event): nat {
    if ev.CancelTimer? then w.clock else ev.now
  }

  /** Calls pass machine words, and a new timer is not one of the old ones. */
  predicate Legal(w: World, ev: Event) {
    && Time(w, ev) < U64
    && (ev.AddTimer? ==> ev.addr !in w.made && ev.ms < U64)
    && (ev.ResetTimer? ==> ev.ms < U64)
  }

  /** The addresses of the one-shot timers in a list. */
  function OneShots(s: seq<Entry>): multiset<nat> {
    if s == [] then multiset{}
    else (if s[0].recurring then multiset{} else multiset{s[0].addr}) + OneShots(s[1..])
  }

  function Fires(w: World, ev: Event): seq<Entry>
    requires w.st.Valid() && Legal(w, ev)
  {
    if ev.ListExpiredCb? then ListExpired(w.st, ev.now, ev.probe).1 else []
  }

  function Next(w: World, ev: Event): World
    requires w.st.Valid() && Legal(w, ev)
  {
    var w := w.(clock := if w.clock < Time(w, ev) then Time(w, ev) else w.clock);
    match ev
    case AddTimer(addr, ms, recurring, cb, now) =>
      w.(st := Add(w.st, addr, ms, recurring, cb, now),
         made := w.made + {addr},
         oneShots := if recurring then w.oneShots else w.oneShots + multiset{addr})
    case CancelTimer(addr) =>
      w.(st := Cancel(w.st, addr),
         cancelled := if Has(w.st.timers, addr) && !w.st.timers[IndexOf(w.st.timers, addr)].recurring
                      then w.cancelled + multiset{addr} else w.cancelled)
    case RefreshTimer(addr, now) =>
      w.(st := Refresh(w.st, addr, now))
    case ResetTimer(addr, ms, fromNow, now) =>
      w.(st := Reset(w.st, addr, ms, fromNow, now))
    case GetNextTimer(now) =>
      w.(st := GetNext(w.st, now).0,
         earliest := if w.st.timers == [] then None else Some(w.st.timers[0].next))
    case ListExpiredCb(now, probe) =>
      var (st', fired) := ListExpired(w.st, now, probe);
      w.(st := st', fired := w.fired + OneShots(fired))
  }

  // ---------------------------------------------------------------- structure and conservation

  /** The set is sorted, holds only timers that were made, and every one-shot timer made has
      fired, or was cancelled, or is in the set: exactly one of the three, once. */
  predicate Conserved(w: World) {
    && w.st.Valid()
    && (forall x :: x in w.st.timers ==> x.addr in w.made)
    && (forall a :: a in w.oneShots ==> a in w.made && w.oneShots[a] == 1)
    && w.oneShots == w.fired + w.cancelled + OneShots(w.st.timers)
  }

  lemma {:induction false} OneShotsAppend(s: seq<Entry>, t: seq<Entry>)
    ensures OneShots(s + t) == OneShots(s) + OneShots(t)
  {
    if s == [] {
      assert s + t == t;
    } else {
      assert (s + t)[1..] == s[1..] + t;
      OneShotsAppend(s[1..], t);
    }
  }

  lemma OneShotsCons(e: Entry, s: seq<Entry>)
    ensures OneShots([e] + s) == (if e.recurring then multiset{} else multiset{e.addr}) + OneShots(s)
  {
    assert ([e] + s)[1..] == s;
  }

  lemma OneShotsOfOne(e: Entry)
    ensures OneShots([e]) == if e.recurring then multiset{} else multiset{e.addr}
  {
  }

  lemma {:induction false} OneShotsInsert(s: seq<Entry>, e: Entry)
    requires !Has(s, e.addr)
    ensures OneShots(Insert(s, e)) == OneShots(s) + OneShots([e])
  {
    hide OneShots;
    OneShotsOfOne(e);
    if s == [] || Less(e, s[0]) {
      OneShotsCons(e, s);
    } else {
      OneShotsInsert(s[1..], e);
      var rest := Insert(s[1..], e);
      assert s == [s[0]] + s[1..];
      assert Insert(s, e) == [s[0]] + rest by { assert s[0] in s; }
      hide Insert, Less;
      OneShotsCons(s[0], rest);
      OneShotsCons(s[0], s[1..]);
    }
  }

  lemma {:induction false} OneShotsErase(s: seq<Entry>, i: nat)
    requires i < |s|
    ensures OneShots(s) == OneShots(Erase(s, i)) + OneShots([s[i]])
  {
    OneShotsOfOne(s[i]);
    if i > 0 {
      OneShotsErase(s[1..], i - 1);
      var rest := Erase(s[1..], i - 1);
      assert Erase(s, i) == [s[0]] + rest;
      hide Erase;
      OneShotsCons(s[0], rest);
      OneShotsCons(s[0], s[1..]);
      assert s == [s[0]] + s[1..];
    }
  }

  predicate Apart(s: seq<Entry>, t: seq<Entry>) {
    forall x, y :: x in s && y in t ==> x.addr != y.addr
  }

  /** An expired timer leaves; if it is recurring it can be put back. */
  lemma Restored(s: seq<Entry>, expired: seq<Entry>, now: nat) returns (e': Entry)
    requires now < U64 && Words(expired) && Words(s) && Sorted(s) && Sorted(expired) && expired != [] && Apart(s, expired)
    ensures expired[0].ms < U64 && e' == expired[0].(next := Wrap64(now + expired[0].ms))
    ensures Words(expired[1..]) && Sorted(expired[1..]) && !Has(s, e'.addr) && Apart(s, expired[1..])
    ensures Words(Insert(s, e')) && Sorted(Insert(s, e')) && Apart(Insert(s, e'), expired[1..])
  {
    hide Insert;
    var e := expired[0];
    assert e in expired;
    e' := e.(next := Wrap64(now + e.ms));
    InsertSorted(s, e');
  }

  lemma {:induction false} OneShotsRequeue(s: seq<Entry>, expired: seq<Entry>, now: nat)
    requires now < U64 && Words(expired) && Words(s) && Sorted(s) && Sorted(expired) && Apart(s, expired)
    ensures OneShots(Requeue(s, expired, now)) == OneShots(s)
    decreases |expired|
  {
    hide Insert, Sorted, Words, Has, Apart, OneShots, Wrap64;
    if expired != [] {
      var e' := Restored(s, expired, now);
      if e'.recurring {
        OneShotsInsert(s, e');
        OneShotsOfOne(e');
        OneShotsRequeue(Insert(s, e'), expired[1..], now);
      } else {
        OneShotsRequeue(s, expired[1..], now);
      }
    }
  }

  lemma AddEntryKeeps(st: State, e: Entry)
    requires st.Valid() && !Has(st.timers, e.addr) && Words([e])
    ensures AddEntry(st, e).Valid()
    ensures OneShots(AddEntry(st, e).timers) == OneShots(st.timers) + OneShots([e])
    ensures forall x :: x in AddEntry(st, e).timers ==> x in st.timers || x == e
  {
    assert e in [e];
    InsertSorted(st.timers, e);
    OneShotsInsert(st.timers, e);
  }

  lemma CancelKeeps(st: State, addr: nat)
    requires st.Valid()
    ensures Cancel(st, addr).Valid() && !Has(Cancel(st, addr).timers, addr)
    ensures forall x :: x in Cancel(st, addr).timers ==> x in st.timers
    ensures OneShots(st.timers) == OneShots(Cancel(st, addr).timers)
              + if Has(st.timers, addr) && !st.timers[IndexOf(st.timers, addr)].recurring then multiset{addr} else multiset{}
  {
    if Has(st.timers, addr) {
      var i := IndexOf(st.timers, addr);
      EraseSorted(st.timers, i);
      EraseMembers(st.timers, i);
      OneShotsErase(st.timers, i);
    }
  }

  /** Taking a timer out and putting it back with other times. */
  lemma RekeyKeeps(st: State, addr: nat, e: Entry)
    requires st.Valid() && Has(st.timers, addr) && Words([e])
    requires e.addr == addr && e.recurring == st.timers[IndexOf(st.timers, addr)].recurring
    ensures var gone := st.(timers := Erase(st.timers, IndexOf(st.timers, addr)));
            && gone.Valid() && !Has(gone.timers, addr) && AddEntry(gone, e).Valid()
            && OneShots(AddEntry(gone, e).timers) == OneShots(st.timers)
            && (forall x :: x in gone.timers ==> x in st.timers)
            && (forall x :: x in AddEntry(gone, e).timers ==> x in st.timers || x == e)
  {
    CancelKeeps(st, addr);
    AddEntryKeeps(Cancel(st, addr), e);
  }

  /** `x` is one of the recurring timers in `expired`, with its next deadline. */
  ghost predicate Again(expired: seq<Entry>, now: nat, x: Entry)
    requires now < U64 && Words(expired)
  {
    exists y :: y in expired && y.recurring && x == y.(next := Wrap64(now + y.ms))
  }

  lemma ExpireKeeps(st: State, now: nat, probe: nat)
    requires st.Valid() && now < U64
    ensures var (st', fired) := ListExpired(st, now, probe);
            && Words(fired)
            && OneShots(st.timers) == OneShots(st'.timers) + OneShots(fired)
            && (forall x :: x in fired ==> x in st.timers)
            && (forall x :: x in st'.timers ==> x in st.timers || Again(fired, now, x))
  {
    if st.timers != [] {
      var n := Expired(st, now, probe);
      assert st.timers == st.timers[..n] + st.timers[n..];
      SplitSorted(st.timers, n);
      OneShotsAppend(st.timers[..n], st.timers[n..]);
      OneShotsRequeue(st.timers[n..], st.timers[..n], now);
      RequeueMembers(st.timers[n..], st.timers[..n], now);
    }
  }

  lemma {:induction false} RequeueMembers(s: seq<Entry>, expired: seq<Entry>, now: nat)
    requires now < U64 && Words(expired)
    ensures forall x :: x in Requeue(s, expired, now) ==> x in s || Again(expired, now, x)
    decreases |expired|
  {
    if expired != [] {
      var e, rest := expired[0], expired[1..];
      assert expired == [e] + rest;
      RequeueMembers(if e.recurring then Insert(s, e.(next := Wrap64(now + e.ms))) else s, rest, now);
    }
  }

  lemma AddConserves(w: World, ev: Event)
    requires Conserved(w) && Legal(w, ev) && ev.AddTimer?
    ensures Conserved(Next(w, ev))
  {
    hide OneShots, AddEntry, Sorted;
    var e := Entry(Wrap64(ev.now + ev.ms), ev.addr, ev.ms, ev.recurring, ev.cb);
    AddEntryKeeps(w.st, e);
    OneShotsOfOne(e);
  }

  lemma CancelConserves(w: World, ev: Event)
    requires Conserved(w) && Legal(w, ev) && ev.CancelTimer?
    ensures Conserved(Next(w, ev))
  {
    CancelKeeps(w.st, ev.addr);
  }

  /** `st'` holds the same timers as `st`, perhaps with other times. */
  ghost predicate SameTimers(st: State, st': State) {
    && st'.Valid()
    && OneShots(st'.timers) == OneShots(st.timers)
    && (forall x :: x in st'.timers ==> Has(st.timers, x.addr))
  }

  lemma RefreshKeeps(st: State, addr: nat, now: nat)
    requires st.Valid() && now < U64
    ensures SameTimers(st, Refresh(st, addr, now))
  {
    if Has(st.timers, addr) {
      var e := st.timers[IndexOf(st.timers, addr)];
      assert e in st.timers;
      RekeyKeeps(st, addr, e.(next := Wrap64(now + e.ms)));
    }
  }

  lemma ResetKeeps(st: State, addr: nat, ms: nat, fromNow: bool, now: nat)
    requires st.Valid() && ms < U64 && now < U64
    ensures SameTimers(st, Reset(st, addr, ms, fromNow, now))
  {
    hide Insert, Erase, Sorted, OneShots, AddEntry;
    if Has(st.timers, addr) {
      var e := st.timers[IndexOf(st.timers, addr)];
      assert e in st.timers;
      var start := if fromNow then now else Wrap64(e.next - e.ms);
      RekeyKeeps(st, addr, e.(ms := ms, next := Wrap64(start + ms)));
    }
  }

  lemma SameConserves(w: World, st': State, time: nat)
    requires Conserved(w) && SameTimers(w.st, st')
    ensures Conserved(w.(clock := time).(st := st'))
  {
  }

  lemma ExpireConserves(w: World, ev: Event)
    requires Conserved(w) && Legal(w, ev) && ev.ListExpiredCb?
    ensures Conserved(Next(w, ev))
  {
    ExpiryFires(w.st, ev.now, ev.probe);
    ExpireKeeps(w.st, ev.now, ev.probe);
  }

  lemma NextConserves(w: World, ev: Event)
    requires Conserved(w) && Legal(w, ev)
    ensures Conserved(Next(w, ev))
  {
    match ev
    case AddTimer(_, _, _, _, _) => AddConserves(w, ev);
    case CancelTimer(_) => CancelConserves(w, ev);
    case RefreshTimer(addr, now) =>
      RefreshKeeps(w.st, addr, now);
      SameConserves(w, Refresh(w.st, addr, now), Next(w, ev).clock);
    case ResetTimer(addr, ms, fromNow, now) =>
      ResetKeeps(w.st, addr, ms, fromNow, now);
      SameConserves(w, Reset(w.st, addr, ms, fromNow, now), Next(w, ev).clock);
    case GetNextTimer(_) =>
    case ListExpiredCb(_, _) => ExpireConserves(w, ev);
  }

  // ---------------------------------------------------------------- runs

  predicate LegalRun(w: World, evs: seq<Event>)
    requires Conserved(w)
    decreases |evs|
  {
    evs == [] || (Legal(w, evs[0]) && (NextConserves(w, evs[0]); LegalRun(Next(w, evs[0]), evs[1..])))
  }

  /** Whatever is called, in whatever order, the set stays sorted and one-shots are conserved. */
  function Run(w: World, evs: seq<Event>): (r: World)
    requires Conserved(w) && LegalRun(w, evs)
    ensures Conserved(r)
    decreases |evs|
  {
    if evs == [] then w else (NextConserves(w, evs[0]); Run(Next(w, evs[0]), evs[1..]))
  }

  /** The timers whose callbacks a run hands out, in order. */
  function FiredIn(w: World, evs: seq<Event>): seq<Entry>
    requires Conserved(w) && LegalRun(w, evs)
    decreases |evs|
  {
    if evs == [] then []
    else (NextConserves(w, evs[0]); Fires(w, evs[0]) + FiredIn(Next(w, evs[0]), evs[1..]))
  }

  /** A one-shot timer fires once, or is cancelled once, or is still pending. */
  lemma OneShotFate(now: nat, evs: seq<Event>, addr: nat)
    requires now < U64 && LegalRun(Start(now), evs)
    ensures var w := Run(Start(now), evs);
            w.fired[addr] + w.cancelled[addr] + OneShots(w.st.timers)[addr] == if addr in w.oneShots then 1 else 0
  {
  }

  lemma NextStaysDead(w: World, ev: Event, addr: nat)
    requires Conserved(w) && Legal(w, ev) && addr in w.made && !Has(w.st.timers, addr)
    ensures Conserved(Next(w, ev)) && addr in Next(w, ev).made && !Has(Next(w, ev).st.timers, addr)
    ensures !Has(Fires(w, ev), addr)
  {
    NextConserves(w, ev);
    match ev
    case AddTimer(a, ms, recurring, cb, now) =>
    case CancelTimer(a) => CancelKeeps(w.st, a);
    case RefreshTimer(a, now) => RefreshKeeps(w.st, a, now);
    case ResetTimer(a, ms, fromNow, now) => ResetKeeps(w.st, a, ms, fromNow, now);
    case GetNextTimer(now) =>
    case ListExpiredCb(now, probe) => ExpireKeeps(w.st, now, probe);
  }

  /** A timer that left the set, by firing once or by cancel, never fires in a later call. */
  lemma {:induction false} NeverAgain(w: World, evs: seq<Event>, addr: nat)
    requires Conserved(w) && LegalRun(w, evs) && addr in w.made && !Has(w.st.timers, addr)
    ensures !Has(FiredIn(w, evs), addr) && !Has(Run(w, evs).st.timers, addr)
    decreases |evs|
  {
    if evs != [] {
      NextStaysDead(w, evs[0], addr);
      NeverAgain(Next(w, evs[0]), evs[1..], addr);
    }
  }

  lemma CancelIsFinal(w: World, addr: nat, evs: seq<Event>)
    requires Conserved(w) && addr in w.made && LegalRun(w, [CancelTimer(addr)] + evs)
    ensures !Has(FiredIn(w, [CancelTimer(addr)] + evs), addr)
  {
    var all := [CancelTimer(addr)] + evs;
    assert all[1..] == evs;
    NextConserves(w, all[0]);
    CancelKeeps(w.st, addr);
    NeverAgain(Next(w, all[0]), evs, addr);
  }

  // ---------------------------------------------------------------- no lost wake-up

  /** The sleeper wakes in time for this deadline. */
  predicate Covered(w: World, deadline: nat) {
    w.earliest.Some? && w.earliest.value <= deadline
  }

  /** Either a wake-up is under way, or no timer is due before the sleeper wakes anyway. */
  predicate Awake(w: World) {
    w.st.tickled || (forall x :: x in w.st.timers ==> Covered(w, x.next))
  }

  /** What a caller can check before a call: refresh and the re-insertion of recurring timers,
      which never notify, set no deadline before the one the sleeper was told of. */
  predicate Harmless(w: World, ev: Event)
    requires w.st.Valid() && Legal(w, ev)
  {
    match ev
    case RefreshTimer(addr, now) =>
      w.st.tickled || !Has(w.st.timers, addr) || Covered(w, Wrap64(now + w.st.timers[IndexOf(w.st.timers, addr)].ms))
    case ListExpiredCb(now, probe) =>
      w.st.tickled
      || forall y :: y in ListExpired(w.st, now, probe).1 && y.recurring ==> Covered(w, Wrap64(now + y.ms))
    case _ => true
  }

  lemma {:induction false} SortedFront(s: seq<Entry>)
    requires Sorted(s) && s != []
    ensures forall x :: x in s ==> s[0].next <= x.next
  {
    assert s == [s[0]] + s[1..];
  }

  /** The notifying insert is harmless whatever the deadline. */
  lemma AddWakes(w: World, e: Entry)
    requires Awake(w)
    ensures Awake(w.(st := AddEntry(w.st, e)))
  {
  }

  lemma ResetWakes(w: World, addr: nat, ms: nat, fromNow: bool, now: nat)
    requires w.st.Valid() && Awake(w) && ms < U64 && now < U64
    ensures Awake(w.(st := Reset(w.st, addr, ms, fromNow, now)))
  {
    hide Sorted, Insert, Erase;
    if Has(w.st.timers, addr) {
      var i := IndexOf(w.st.timers, addr);
      var e := w.st.timers[i];
      EraseMembers(w.st.timers, i);
      var start := if fromNow then now else Wrap64(e.next - e.ms);
      AddWakes(w.(st := w.st.(timers := Erase(w.st.timers, i))), e.(ms := ms, next := Wrap64(start + ms)));
    }
  }

  lemma RefreshWakes(w: World, addr: nat, now: nat)
    requires w.st.Valid() && Awake(w) && now < U64 && Has(w.st.timers, addr)
    ensures Awake(w.(st := Refresh(w.st, addr, now)))
       <==> w.st.tickled || Covered(w, Wrap64(now + w.st.timers[IndexOf(w.st.timers, addr)].ms))
  {
    hide Sorted, Insert, Erase;
    var i := IndexOf(w.st.timers, addr);
    var e := w.st.timers[i];
    var e' := e.(next := Wrap64(now + e.ms));
    EraseMembers(w.st.timers, i);
    EraseSorted(w.st.timers, i);
    InsertSorted(Erase(w.st.timers, i), e');
    assert e' in multiset(Insert(Erase(w.st.timers, i), e'));
  }

  /** A recurring timer that fired is in the set again. */
  lemma {:induction false} RequeuedMember(expired: seq<Entry>, now: nat, y: Entry)
    requires now < U64 && Words(expired) && y in expired && y.recurring
    ensures y.(next := Wrap64(now + y.ms)) in Requeued(expired, now)
    decreases |expired|
  {
    if y != expired[0] {
      assert expired == [expired[0]] + expired[1..];
      RequeuedMember(expired[1..], now, y);
    }
  }

  lemma ExpireAgain(st: State, now: nat, probe: nat, y: Entry)
    requires st.Valid() && now < U64 && y in ListExpired(st, now, probe).1 && y.recurring && y.ms < U64
    ensures y.(next := Wrap64(now + y.ms)) in ListExpired(st, now, probe).0.timers
  {
    hide Sorted, Requeue, Requeued, ListExpired;
    var (st', fired) := ListExpired(st, now, probe);
    ExpireKeeps(st, now, probe);
    ExpiryFires(st, now, probe);
    RequeuedMember(fired, now, y);
    assert y.(next := Wrap64(now + y.ms)) in multiset(Requeued(fired, now));
    assert y.(next := Wrap64(now + y.ms)) in multiset(st'.timers);
  }

  lemma ExpireWakes(w: World, now: nat, probe: nat)
    requires w.st.Valid() && Awake(w) && now < U64
    ensures forall y :: y in ListExpired(w.st, now, probe).1 ==> y.ms < U64
    ensures Awake(w.(st := ListExpired(w.st, now, probe).0))
       <==> w.st.tickled
            || forall y :: y in ListExpired(w.st, now, probe).1 && y.recurring ==> Covered(w, Wrap64(now + y.ms))
  {
    hide Sorted, Requeue;
    var (st', fired) := ListExpired(w.st, now, probe);
    ExpireKeeps(w.st, now, probe);
    if !w.st.tickled {
      forall y | y in fired && y.recurring
        ensures y.(next := Wrap64(now + y.ms)) in st'.timers
      {
        ExpireAgain(w.st, now, probe, y);
      }
      if forall y :: y in fired && y.recurring ==> Covered(w, Wrap64(now + y.ms)) {
        forall x | x in st'.timers
          ensures Covered(w, x.next)
        {
          assert x in w.st.timers || Again(fired, now, x);
        }
      }
    }
  }

  /** Whatever the clock does: a call keeps the sleeper awake in time exactly when it is
      harmless. */
  lemma AwakeExactly(w: World, ev: Event)
    requires Conserved(w) && Legal(w, ev) && Awake(w)
    ensures Awake(Next(w, ev)) <==> Harmless(w, ev)
  {
    hide Sorted, Insert, Erase, OneShots, ListExpired, Refresh, Reset;
    match ev
    case AddTimer(addr, ms, recurring, cb, now) => AddWakes(w, Entry(Wrap64(now + ms), addr, ms, recurring, cb));
    case CancelTimer(addr) => CancelKeeps(w.st, addr);
    case RefreshTimer(addr, now) =>
      if Has(w.st.timers, addr) {
        RefreshWakes(w, addr, now);
      } else {
        NoRefresh(w.st, addr, now);
      }
    case ResetTimer(addr, ms, fromNow, now) => ResetWakes(w, addr, ms, fromNow, now);
    case GetNextTimer(now) =>
      if w.st.timers != [] {
        SortedFront(w.st.timers);
      }
    case ListExpiredCb(now, probe) => ExpireWakes(w, now, probe);
  }

  lemma NoRefresh(st: State, addr: nat, now: nat)
    requires st.Valid() && now < U64 && !Has(st.timers, addr)
    ensures Refresh(st, addr, now) == st
  {
  }

  // ---------------------------------------------------------------- over runs

  /** Awake in every state of a run. */
  predicate AwakeRun(w: World, evs: seq<Event>)
    requires Conserved(w) && LegalRun(w, evs)
    decreases |evs|
  {
    Awake(w) && (evs == [] || (NextConserves(w, evs[0]); AwakeRun(Next(w, evs[0]), evs[1..])))
  }

  predicate HarmlessRun(w: World, evs: seq<Event>)
    requires Conserved(w) && LegalRun(w, evs)
    decreases |evs|
  {
    evs == [] || (Harmless(w, evs[0]) && (NextConserves(w, evs[0]); HarmlessRun(Next(w, evs[0]), evs[1..])))
  }

  lemma {:induction false} RunExactly(w: World, evs: seq<Event>)
    requires Conserved(w) && LegalRun(w, evs) && Awake(w)
    ensures AwakeRun(w, evs) <==> HarmlessRun(w, evs)
    decreases |evs|
  {
    hide Awake, Harmless, OneShots, Sorted, Legal, Next;
    if evs != [] {
      NextConserves(w, evs[0]);
      AwakeExactly(w, evs[0]);
      if Awake(Next(w, evs[0])) {
        RunExactly(Next(w, evs[0]), evs[1..]);
      }
    }
  }

  /** No wake-up is lost in any state of a run exactly when every call of it is harmless. */
  lemma WakeupsExactly(now: nat, evs: seq<Event>)
    requires now < U64 && LegalRun(Start(now), evs)
    ensures AwakeRun(Start(now), evs) <==> HarmlessRun(Start(now), evs)
  {
    hide Harmless, Next, LegalRun;
    RunExactly(Start(now), evs);
  }

  /** What a clock that does not go back gives the calls that never notify.  refresh reads it
      under the lock, so no call before it had a later reading.  listExpiredCb, like addTimer,
      reads it before taking the lock, so its reading may be older than those of earlier calls:
      no order is asked of it, only that it is not taken for a rollover.  The deadlines both
      set are below 2^64. */
  predicate Steady(w: World, ev: Event)
    requires w.st.Valid() && Legal(w, ev)
  {
    match ev
    case RefreshTimer(addr, now) =>
      Has(w.st.timers, addr) ==> w.clock <= now && now + w.st.timers[IndexOf(w.st.timers, addr)].ms < U64
    case ListExpiredCb(now, probe) =>
      && !Rollover(now, w.st.previousTime)
      && (forall x :: x in w.st.timers && x.recurring && x.next <= now ==> now + x.ms < U64)
    case _ => true
  }

  /** The reading a deadline counts from. */
  function Began(x: Entry): nat
    requires x.next < U64 && x.ms < U64
  {
    Wrap64(x.next - x.ms)
  }

  /** Every deadline counts from a reading that was made. */
  predicate Paced(w: World)
    requires w.st.Valid()
  {
    forall x :: x in w.st.timers ==> Began(x) <= w.clock
  }

  lemma BeganAt(now: nat, ms: nat, x: Entry)
    requires now < U64 && ms < U64 && x.ms == ms && x.next == Wrap64(now + ms)
    ensures Began(x) == now
  {
  }

  lemma LaterReading(x: Entry, now: nat)
    requires x.next < U64 && x.ms < U64 && Began(x) <= now && now + x.ms < U64
    ensures x.next <= now + x.ms
  {
  }

  /** On a steady clock every call is harmless. */
  lemma SteadyIsHarmless(w: World, ev: Event)
    requires Conserved(w) && Legal(w, ev) && Paced(w) && Awake(w) && Steady(w, ev)
    ensures Harmless(w, ev)
  {
    hide Sorted, OneShots, ListExpired, Began, Words;
    match ev
    case RefreshTimer(addr, now) =>
      if Has(w.st.timers, addr) {
        var e := w.st.timers[IndexOf(w.st.timers, addr)];
        MemberWords(w.st, e);
        LaterReading(e, now);
      }
    case ListExpiredCb(now, probe) =>
      ExpiredWakes(w, now, probe);
    case _ =>
  }

  lemma MemberWords(st: State, x: Entry)
    requires st.Valid() && x in st.timers
    ensures x.next < U64 && x.ms < U64
  {
  }

  /** What has expired was due, so its next deadline is not before it. */
  lemma ExpiredWakes(w: World, now: nat, probe: nat)
    requires w.st.Valid() && Awake(w) && now < U64 && Steady(w, ListExpiredCb(now, probe))
    ensures Harmless(w, ListExpiredCb(now, probe))
  {
    hide Sorted, OneShots, ListExpired, Words, Requeued, Has;
    ExpireKeeps(w.st, now, probe);
    ExpiryFires(w.st, now, probe);
    if !w.st.tickled {
      forall y | y in ListExpired(w.st, now, probe).1 && y.recurring
        ensures y.ms < U64 && Covered(w, Wrap64(now + y.ms))
      {
        MemberWords(w.st, y);
        assert y.next <= now && now + y.ms < U64;
      }
    }
  }

  lemma NextPaced(w: World, ev: Event)
    requires Conserved(w) && Legal(w, ev) && Paced(w) && Conserved(Next(w, ev))
    ensures Paced(Next(w, ev))
  {
    hide Sorted, OneShots, Insert, Erase, Has, Began, ListExpired, Refresh, Reset, Words;
    match ev
    case AddTimer(addr, ms, recurring, cb, now) =>
      BeganAt(now, ms, Entry(Wrap64(now + ms), addr, ms, recurring, cb));
    case CancelTimer(addr) => CancelKeeps(w.st, addr);
    case RefreshTimer(addr, now) => RefreshPaced(w, addr, now);
    case ResetTimer(addr, ms, fromNow, now) => ResetPaced(w, addr, ms, fromNow, now);
    case GetNextTimer(now) =>
    case ListExpiredCb(now, probe) => ExpirePaced(w, now, probe);
  }

  lemma RefreshPaced(w: World, addr: nat, now: nat)
    requires Conserved(w) && Paced(w) && now < U64
    ensures Refresh(w.st, addr, now).Valid()
    ensures forall x :: x in Refresh(w.st, addr, now).timers ==> Began(x) <= w.clock || Began(x) == now
  {
    hide Sorted, Insert, Erase, OneShots, Began;
    RefreshKeeps(w.st, addr, now);
    if Has(w.st.timers, addr) {
      var i := IndexOf(w.st.timers, addr);
      var e := w.st.timers[i];
      MemberWords(w.st, e);
      BeganAt(now, e.ms, e.(next := Wrap64(now + e.ms)));
      EraseMembers(w.st.timers, i);
    }
  }

  lemma ResetPaced(w: World, addr: nat, ms: nat, fromNow: bool, now: nat)
    requires Conserved(w) && Paced(w) && now < U64 && ms < U64
    ensures Reset(w.st, addr, ms, fromNow, now).Valid()
    ensures forall x :: x in Reset(w.st, addr, ms, fromNow, now).timers ==> Began(x) <= w.clock || Began(x) == now
  {
    hide Sorted, Insert, Erase, OneShots, Began;
    ResetKeeps(w.st, addr, ms, fromNow, now);
    if Has(w.st.timers, addr) {
      var i := IndexOf(w.st.timers, addr);
      var e := w.st.timers[i];
      MemberWords(w.st, e);
      var start := if fromNow then now else Wrap64(e.next - e.ms);
      assert !fromNow ==> start == Began(e) by { BeganIs(e); }
      BeganAt(start, ms, e.(ms := ms, next := Wrap64(start + ms)));
      EraseMembers(w.st.timers, i);
    }
  }

  lemma BeganIs(x: Entry)
    requires x.next < U64 && x.ms < U64
    ensures Began(x) == Wrap64(x.next - x.ms)
  {
  }

  lemma ExpirePaced(w: World, now: nat, probe: nat)
    requires Conserved(w) && Paced(w) && now < U64 && ListExpired(w.st, now, probe).0.Valid()
    ensures forall x :: x in ListExpired(w.st, now, probe).0.timers ==> Began(x) <= w.clock || Began(x) == now
  {
    hide Sorted, OneShots, ListExpired, Began;
    ExpireKeeps(w.st, now, probe);
    var (st', fired) := ListExpired(w.st, now, probe);
    forall x | x in st'.timers && x !in w.st.timers
      ensures Began(x) == now
    {
      var y :| y in fired && y.recurring && x == y.(next := Wrap64(now + y.ms));
      BeganAt(now, y.ms, x);
    }
  }

  predicate SteadyRun(w: World, evs: seq<Event>)
    requires Conserved(w) && LegalRun(w, evs)
    decreases |evs|
  {
    evs == [] || (Steady(w, evs[0]) && (NextConserves(w, evs[0]); SteadyRun(Next(w, evs[0]), evs[1..])))
  }

  lemma {:induction false} SteadyRunIsAwake(w: World, evs: seq<Event>)
    requires Conserved(w) && LegalRun(w, evs) && SteadyRun(w, evs) && Paced(w) && Awake(w)
    ensures AwakeRun(w, evs)
    decreases |evs|
  {
    hide Awake, Harmless, OneShots, Sorted, Legal, Next, Paced, Steady;
    if evs != [] {
      NextConserves(w, evs[0]);
      SteadyIsHarmless(w, evs[0]);
      AwakeExactly(w, evs[0]);
      NextPaced(w, evs[0]);
      SteadyRunIsAwake(Next(w, evs[0]), evs[1..]);
    }
  }

  /** In every reachable state a wake-up is under way or no stored deadline is before the
      earliest one the sleeper was told of, although refresh and the re-insertion of
      recurring timers never notify. */
  lemma NoLostWakeup(now: nat, evs: seq<Event>)
    requires now < U64 && LegalRun(Start(now), evs) && SteadyRun(Start(now), evs)
    ensures AwakeRun(Start(now), evs) && HarmlessRun(Start(now), evs)
  {
    hide Harmless, Next, LegalRun;
    SteadyRunIsAwake(Start(now), evs);
    WakeupsExactly(now, evs);
  }

  /** Sleeping for as long as getNextTimer says does not oversleep any timer. */
  lemma NoOversleep(st: State, now: nat)
    requires st.Valid()
    ensures forall x :: x in st.timers ==> now + GetNext(st, now).1 <= if x.next <= now then now else x.next
  {
    if st.timers != [] {
      SortedFront(st.timers);
    }
  }

  // ---------------------------------------------------------------- the idle loop

  const MAX_TIMEOUT := 3000
  const TWO31 := 0x8000_0000

  /** (int)v for an unsigned 64-bit word. */
  function ToInt32(v: nat): (r: int)
    ensures -TWO31 <= r < TWO31
  {
    var low := v % (2 * TWO31);
    if low < TWO31 then low else low - 2 * TWO31
  }

  /** What idle passes to epoll_wait: the answer of getNextTimer, or no more than three seconds. */
  function Timeout(wait: nat): int {
    if wait == NEVER then MAX_TIMEOUT
    else if ToInt32(wait) > MAX_TIMEOUT then MAX_TIMEOUT
    else ToInt32(wait)
  }

  /** epoll_wait comes back by itself no later than this; a negative timeout is none. */
  predicate ComesBack(timeout: int, wait: nat) {
    0 <= timeout <= wait
  }

  lemma LowBits(v: nat)
    ensures v % (2 * TWO31) <= v
  {
  }

  /** idle comes back within the time it was told exactly when bit 31 of that time is clear,
      or there is no timer; a set bit makes the timeout negative, which is none. */
  lemma ComesBackExactly(wait: nat)
    requires wait < U64
    ensures ComesBack(Timeout(wait), wait) <==> wait == NEVER || wait % (2 * TWO31) < TWO31
    ensures !ComesBack(Timeout(wait), wait) ==> Timeout(wait) < 0
  {
    LowBits(wait);
  }

  /** So whatever the set, idle sleeps past no deadline exactly when that bit is clear. */
  lemma IdleExactly(st: State, now: nat)
    requires st.Valid() && now < U64
    ensures var wait := GetNext(st, now).1;
      && (ComesBack(Timeout(wait), wait) <==> st.timers == [] || wait == NEVER || wait % (2 * TWO31) < TWO31)
      && (ComesBack(Timeout(wait), wait) ==>
            forall x :: x in st.timers ==> now + Timeout(wait) <= if x.next <= now then now else x.next)
  {
    hide ComesBack, Timeout, ToInt32, Sorted;
    var wait := GetNext(st, now).1;
    assert wait < U64 by { if st.timers != [] { assert st.timers[0] in st.timers; } }
    ComesBackExactly(wait);
    ComesBackIs(Timeout(wait), wait);
    NoOversleep(st, now);
  }

  lemma ComesBackIs(timeout: int, wait: nat)
    ensures ComesBack(timeout, wait) ==> timeout <= wait
  {
  }

  /** A timer 2^31 ms ahead, about 25 days: idle waits without a limit. */
  lemma LongWaitHasNoLimit(addr: nat, now: nat)
    requires now + TWO31 < U64
    ensures var st := State([Entry(now + TWO31, addr, TWO31, false, 0)], false, now);
      st.Valid() && GetNext(st, now).1 == TWO31 && Timeout(TWO31) < 0
  {
  }

  // ---------------------------------------------------------------- how wake-ups get lost

  lemma OneTimer(e: Entry)
    ensures Insert([], e) == [e] && Has([e], e.addr) && IndexOf([e], e.addr) == 0
  {
    assert e in [e];
  }

  lemma FirstTimer(e: Entry, now: nat)
    requires now < U64 && e.ms < U64 && e.next == Wrap64(now + e.ms)
    ensures var add := AddTimer(e.addr, e.ms, e.recurring, e.cb, now);
      && Conserved(Start(now)) && Legal(Start(now), add)
      && Next(Start(now), add).st.timers == [e] && Next(Start(now), add).st.previousTime == now
  {
    OneTimer(e);
  }

  lemma AskedFor(w: World, e: Entry, now: nat)
    requires Conserved(w) && w.st.timers == [e] && now < U64
    ensures Legal(w, GetNextTimer(now))
    ensures var w' := Next(w, GetNextTimer(now));
      w'.st == w.st.(tickled := false) && w'.earliest == Some(e.next)
  {
  }

  /** A timer is added and the sleeper told of it at `then`; a call at `now` puts it earlier. */
  lemma OneTimerIsLost(e: Entry, start: nat, ev: Event)
    requires start < U64 && e.ms < U64 && e.next == Wrap64(start + e.ms)
    requires forall w: World :: w.st == State([e], false, start) && w.earliest == Some(e.next) && Conserved(w) ==>
               Legal(w, ev) && !Harmless(w, ev)
    ensures var evs := [AddTimer(e.addr, e.ms, e.recurring, e.cb, start), GetNextTimer(start), ev];
      LegalRun(Start(start), evs) && !Awake(Run(Start(start), evs))
  {
    var add, get := AddTimer(e.addr, e.ms, e.recurring, e.cb, start), GetNextTimer(start);
    hide *;
    var w0 := Start(start);
    FirstTimer(e, start);
    var w1 := Next(w0, add);
    NextConserves(w0, add);
    AskedFor(w1, e, start);
    var w2 := Next(w1, get);
    NextConserves(w1, get);
    TimersAwake(w2, e);
    AwakeExactly(w2, ev);
    NextConserves(w2, ev);
    RunNone(Next(w2, ev));
    assert [ev] + [] == [ev] && [get] + [ev] == [get, ev] && [add] + [get, ev] == [add, get, ev];
    RunCons(w2, ev, []);
    RunCons(w1, get, [ev]);
    RunCons(w0, add, [get, ev]);
  }

  lemma TimersAwake(w: World, e: Entry)
    requires w.st.timers == [e] && w.earliest == Some(e.next)
    ensures Awake(w)
  {
  }

  /** A refresh loses the wake-up whenever the new deadline is before the old one: when the
      clock went back, or when the deadline wraps around. */
  lemma RefreshIsLost(addr: nat, ms: nat, start: nat, now: nat)
    requires start < U64 && ms < U64 && now < U64 && Wrap64(now + ms) < Wrap64(start + ms)
    ensures var evs := [AddTimer(addr, ms, false, 0, start), GetNextTimer(start), RefreshTimer(addr, now)];
      LegalRun(Start(start), evs) && !Awake(Run(Start(start), evs))
  {
    var e := Entry(Wrap64(start + ms), addr, ms, false, 0);
    OneTimer(e);
    hide LegalRun, Run, Awake, Next, Start, Insert, IndexOf, Has, Sorted, OneShots;
    OneTimerIsLost(e, start, RefreshTimer(addr, now));
  }

  /** Set back from 100 to 50, with a period of 10. */
  lemma SetBackClockIsLost()
    ensures var evs := [AddTimer(1, 10, false, 0, 100), GetNextTimer(100), RefreshTimer(1, 50)];
      LegalRun(Start(100), evs) && !Awake(Run(Start(100), evs))
  {
    hide LegalRun, Run, Awake, Next, Start;
    RefreshIsLost(1, 10, 100, 50);
  }

  /** A period of nearly 2^64, refreshed one tick later. */
  lemma WrappedDeadlineIsLost()
    ensures var evs := [AddTimer(1, U64 - 1, false, 0, 0), GetNextTimer(0), RefreshTimer(1, 1)];
      LegalRun(Start(0), evs) && !Awake(Run(Start(0), evs))
  {
    hide LegalRun, Run, Awake, Next, Start;
    RefreshIsLost(1, U64 - 1, 0, 1);
  }

  /** After a rollover the recurring timers come back with earlier deadlines. */
  lemma RolloverIsLost(addr: nat, ms: nat, start: nat, now: nat, probe: nat)
    requires start < U64 && ms < U64 && now < U64 && Rollover(now, start) && Wrap64(now + ms) < Wrap64(start + ms)
    ensures var evs := [AddTimer(addr, ms, true, 0, start), GetNextTimer(start), ListExpiredCb(now, probe)];
      LegalRun(Start(start), evs) && !Awake(Run(Start(start), evs))
  {
    var e := Entry(Wrap64(start + ms), addr, ms, true, 0);
    assert e in [e] && [e][..1] == [e];
    hide LegalRun, Run, Awake, Next, Start, Requeue, Sorted, OneShots;
    OneTimerIsLost(e, start, ListExpiredCb(now, probe));
  }

  lemma RunNone(w: World)
    requires Conserved(w)
    ensures LegalRun(w, []) && Run(w, []) == w
  {
  }

  lemma RunCons(w: World, ev: Event, evs: seq<Event>)
    requires Conserved(w) && Legal(w, ev) && Conserved(Next(w, ev)) && LegalRun(Next(w, ev), evs)
    ensures LegalRun(w, [ev] + evs) && Run(w, [ev] + evs) == Run(Next(w, ev), evs)
  {
    assert ([ev] + evs)[1..] == evs;
  }
}
