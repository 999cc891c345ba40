/** TimerManager and its timers as objects.  std::set is a sequence of timers kept in
    comparator order, searched with the comparator.  Each method is one critical section
    under the manager's lock; the clock reading is a parameter.  `View()` is the state of
    TimerSpec the methods are proved against. */
module Timers {
  import opened TimerSpec

  datatype Callback = Null | Set(id: nat)

  class Timer {
    const addr: nat
    const recurring: bool
    var ms: nat
    var next: nat
    var cb: Callback

    constructor (addr: nat, ms: nat, cb: nat, recurring: bool, now: nat)
      requires ms < U64 && now < U64
      ensures this.addr == addr && this.recurring == recurring && this.ms == ms
      ensures next == Wrap64(now + ms) && this.cb == Set(cb)
    {
      this.addr, this.ms, this.cb, this.recurring := addr, ms, Set(cb), recurring;
      next := Wrap64(now + ms);
    }

    ghost function Key(): Entry
      reads this
    {
      Entry(next, addr, ms, recurring, if cb.Set? then cb.id else 0)
    }

    /** Timer::Comparator. */
    predicate Before(other: Timer)
      reads this, other
    {
      if next == other.next then addr < other.addr else next < other.next
    }
  }

  ghost function Entries(ts: seq<Timer>): (s: seq<Entry>)
    reads ts
    ensures |s| == |ts| && forall i :: 0 <= i < |ts| ==> s[i] == ts[i].Key()
  {
    if ts == [] then [] else [ts[0].Key()] + Entries(ts[1..])
  }

  lemma {:induction false} SortedAt(s: seq<Entry>, i: nat, j: nat)
    requires Sorted(s) && i < j < |s|
    ensures Less(s[i], s[j]) && s[i].addr != s[j].addr
  {
    if i == 0 {
      assert s[j] in s[1..];
    } else {
      SortedAt(s[1..], i - 1, j - 1);
    }
  }

  lemma {:induction false} EraseIsSlices(s: seq<Entry>, i: nat)
    requires i < |s|
    ensures Erase(s, i) == s[..i] + s[i + 1..]
  {
    if i > 0 {
      EraseIsSlices(s[1..], i - 1);
      assert s[..i] == [s[0]] + s[1..][..i - 1];
    }
  }

  lemma {:induction false} InsertIsSlices(s: seq<Entry>, e: Entry, i: nat)
    requires i <= |s| && (forall j :: 0 <= j < i ==> Less(s[j], e)) && (i < |s| ==> Less(e, s[i]))
    ensures Insert(s, e) == s[..i] + [e] + s[i..]
    ensures AtFront(s, e) <==> i == 0
  {
    if i > 0 {
      assert forall j :: 0 <= j < i - 1 ==> s[1..][j] == s[j + 1];
      InsertIsSlices(s[1..], e, i - 1);
      assert s[..i] == [s[0]] + s[1..][..i - 1];
    }
  }

  lemma {:induction false} IndexUnique(s: seq<Entry>, i: nat)
    requires Sorted(s) && i < |s|
    ensures Has(s, s[i].addr) && IndexOf(s, s[i].addr) == i
  {
    assert s[i] in s;
    var k := IndexOf(s, s[i].addr);
    if k < i {
      SortedAt(s, k, i);
    } else if i < k {
      SortedAt(s, i, k);
    }
  }

  lemma EntriesConcat(a: seq<Timer>, b: seq<Timer>)
    ensures Entries(a + b) == Entries(a) + Entries(b)
  {
  }

  lemma EntriesSplit(ts: seq<Timer>, i: nat)
    requires i <= |ts|
    ensures Entries(ts[..i]) == Entries(ts)[..i] && Entries(ts[i..]) == Entries(ts)[i..]
  {
    hide Entries;
  }

  lemma EntriesErase(ts: seq<Timer>, i: nat)
    requires i < |ts|
    ensures Entries(ts[..i] + ts[i + 1..]) == Erase(Entries(ts), i)
  {
    EraseIsSlices(Entries(ts), i);
    EntriesSplit(ts, i);
    EntriesSplit(ts, i + 1);
    EntriesConcat(ts[..i], ts[i + 1..]);
  }

  lemma EntriesInsert(ts: seq<Timer>, t: Timer, i: nat)
    requires i <= |ts|
    ensures Entries(ts[..i] + [t] + ts[i..]) == Entries(ts)[..i] + [t.Key()] + Entries(ts)[i..]
  {
    EntriesSplit(ts, i);
    EntriesConcat(ts[..i] + [t], ts[i..]);
    EntriesConcat(ts[..i], [t]);
  }

  /** Putting `t` at its lower bound is inserting its entry. */
  lemma PlacedIsInserted(ts: seq<Timer>, t: Timer, i: nat)
    requires i <= |ts|
    requires (forall j :: 0 <= j < i ==> ts[j].Before(t)) && (i < |ts| ==> !ts[i].Before(t) && ts[i].addr != t.addr)
    ensures Entries(ts[..i] + [t] + ts[i..]) == Insert(Entries(ts), t.Key())
    ensures AtFront(Entries(ts), t.Key()) <==> i == 0
  {
    var s, e := Entries(ts), t.Key();
    forall j | 0 <= j < i
      ensures Less(s[j], e)
    {
      assert s[j] == ts[j].Key();
    }
    InsertIsSlices(s, e, i);
    EntriesInsert(ts, t, i);
  }

  lemma ErasedMembers(ts: seq<Timer>, i: nat)
    requires i < |ts| && forall j :: 0 <= j < |ts| && j != i ==> ts[j] != ts[i]
    ensures forall t :: t in ts[..i] + ts[i + 1..] <==> t in ts && t != ts[i]
  {
    var r := ts[..i] + ts[i + 1..];
    forall t | t in ts && t != ts[i]
      ensures t in r
    {
      var j :| 0 <= j < |ts| && ts[j] == t;
      assert r[if j < i then j else j - 1] == t;
    }
    forall j | 0 <= j < |r|
      ensures r[j] in ts && r[j] != ts[i]
    {
      assert r[j] == ts[if j < i then j else j + 1];
    }
  }

  lemma InsertedMembers(ts: seq<Timer>, t: Timer, i: nat)
    requires i <= |ts|
    ensures forall u :: u in ts[..i] + [t] + ts[i..] <==> u in ts || u == t
  {
    assert ts == ts[..i] + ts[i..];
  }

  lemma AddrsDiffer(s: seq<Entry>, i: nat, j: nat)
    requires Sorted(s) && i < |s| && j < |s| && i != j
    ensures s[i].addr != s[j].addr
  {
    if i < j {
      SortedAt(s, i, j);
    } else {
      SortedAt(s, j, i);
    }
  }

  lemma DistinctTimers(ts: seq<Timer>, i: nat)
    requires i < |ts| && Sorted(Entries(ts))
    ensures forall j :: 0 <= j < |ts| && j != i ==> ts[j] != ts[i]
  {
    var s := Entries(ts);
    forall j | 0 <= j < |ts| && j != i
      ensures ts[j] != ts[i]
    {
      AddrsDiffer(s, i, j);
      assert s[i] == ts[i].Key() && s[j] == ts[j].Key();
    }
  }

  lemma NotMember(ts: seq<Timer>, all: set<Timer>, t: Timer)
    requires (forall u :: u in ts ==> u in all) && t in all && t !in ts
    requires forall u, v :: u in all && v in all && u.addr == v.addr ==> u == v
    ensures !Has(Entries(ts), t.addr)
    ensures forall i :: 0 <= i < |ts| ==> ts[i].addr != t.addr
  {
    var s := Entries(ts);
    forall i | 0 <= i < |s|
      ensures s[i].addr != t.addr
    {
      assert ts[i] in ts;
    }
  }

  /** All that inserting `t` at its lower bound does. */
  lemma InsertedAt(ts: seq<Timer>, all: set<Timer>, t: Timer, i: nat)
    requires i <= |ts| && Sorted(Entries(ts))
    requires (forall u :: u in ts ==> u in all) && t in all && t !in ts
    requires forall u, v :: u in all && v in all && u.addr == v.addr ==> u == v
    requires (forall j :: 0 <= j < i ==> ts[j].Before(t)) && (i < |ts| ==> !ts[i].Before(t))
    ensures Entries(ts[..i] + [t] + ts[i..]) == Insert(Entries(ts), t.Key())
    ensures Sorted(Insert(Entries(ts), t.Key()))
    ensures AtFront(Entries(ts), t.Key()) <==> i == 0
    ensures forall u :: u in ts[..i] + [t] + ts[i..] <==> u in ts || u == t
  {
    NotMember(ts, all, t);
    PlacedIsInserted(ts, t, i);
    InsertSorted(Entries(ts), t.Key());
    InsertedMembers(ts, t, i);
  }

  class TimerManager {
    var timers: seq<Timer>
    var tickled: bool
    var previousTime: nat
    ghost var all: set<Timer>      // every timer this manager made
    ghost var view: State          // the manager's state as a value

    /** Between two steps inside the lock: members are timers of this manager, in order. */
    ghost predicate Ordered()
      reads this, all
    {
      && (forall t :: t in timers ==> t in all)
      && (forall t, u :: t in all && u in all && t.addr == u.addr ==> t == u)
      && (forall t :: t in all ==> t.ms < U64 && t.next < U64)
      && view == State(Entries(timers), tickled, previousTime)
      && Sorted(view.timers) && previousTime < U64
    }

    /** A timer is in the set exactly while its callback is set. */
    ghost predicate Valid()
      reads this, all
    {
      Ordered() && forall t :: t in all ==> (t.cb.Set? <==> t in timers)
    }

    constructor (now: nat)
      requires now < U64
      ensures Valid() && view == Initial(now) && all == {}
    {
      timers, tickled, previousTime, all, view := [], false, now, {}, Initial(now);
    }

    /** The entry under a timer's address is the timer's own. */
    lemma MemberEntry(t: Timer)
      requires Valid() && t in all
      ensures Has(view.timers, t.addr) <==> t.cb.Set?
      ensures t.cb.Set? ==> view.timers[IndexOf(view.timers, t.addr)] == t.Key()
    {
      if t.cb.Set? {
        var i :| 0 <= i < |timers| && timers[i] == t;
        IndexUnique(view.timers, i);
      } else {
        NotMember(timers, all, t);
      }
    }

    lemma ViewIsValid()
      requires Ordered()
      ensures view.Valid()
    {
      forall x | x in view.timers
        ensures x.next < U64 && x.ms < U64
      {
        var i :| 0 <= i < |view.timers| && view.timers[i] == x;
        assert timers[i] in all && view.timers[i] == timers[i].Key();
      }
    }

    /** std::set::lower_bound. */
    method LowerBound(t: Timer) returns (i: nat)
      ensures i <= |timers| && (forall j :: 0 <= j < i ==> timers[j].Before(t))
      ensures i < |timers| ==> !timers[i].Before(t)
    {
      i := 0;
      while i < |timers| && timers[i].Before(t)
        invariant i <= |timers| && forall j :: 0 <= j < i ==> timers[j].Before(t)
      {
        i := i + 1;
      }
    }

    /** std::set::find: the lower bound, unless it is after `t`.  For a member it is the member. */
    method Find(t: Timer) returns (i: nat, found: bool)
      requires Ordered() && t in timers
      ensures found && i < |timers| && timers[i] == t
      ensures Has(view.timers, t.addr) && IndexOf(view.timers, t.addr) == i
    {
      i := LowerBound(t);
      found := i < |timers| && !t.Before(timers[i]);
      ghost var k :| 0 <= k < |timers| && timers[k] == t;
      assert view.timers[k] == t.Key() && !timers[k].Before(t);
      if i < k {
        SortedAt(view.timers, i, k);
      }
      IndexUnique(view.timers, k);
    }

    method EraseAt(i: nat)
      requires Ordered() && i < |timers|
      modifies this`timers, this`view
      ensures Ordered() && view == old(view).(timers := Erase(old(view.timers), i))
      ensures forall t :: t in timers <==> t in old(timers) && t != old(timers)[i]
    {
      hide Insert, Erase, Sorted, Has, IndexOf, Entries;
      ghost var was := timers;
      timers := timers[..i] + timers[i + 1..];
      EntriesErase(was, i);
      EraseSorted(view.timers, i);
      DistinctTimers(was, i);
      ErasedMembers(was, i);
      view := view.(timers := Erase(view.timers, i));
    }

    /** Find and erase; the unchecked erase in cancel relies on finding the timer. */
    method TakeOut(t: Timer) returns (found: bool)
      requires Ordered() && t in timers
      modifies this`timers, this`view
      ensures found && Ordered() && Has(old(view.timers), t.addr)
      ensures view == old(view).(timers := Erase(old(view.timers), IndexOf(old(view.timers), t.addr)))
      ensures forall u :: u in timers <==> u in old(timers) && u != t
    {
      var i;
      i, found := Find(t);
      EraseAt(i);
    }

    /** std::set::insert of a timer that is not in the set. */
    method InsertTimer(t: Timer) returns (first: bool)
      requires Ordered() && t in all && t !in timers
      modifies this`timers, this`view
      ensures Ordered() && view == old(view).(timers := Insert(old(view.timers), t.Key()))
      ensures first <==> AtFront(old(view.timers), t.Key())
      ensures forall u :: u in timers <==> u in old(timers) || u == t
    {
      hide Insert, Erase, Sorted, Has, IndexOf, Entries;
      var i := LowerBound(t);
      ghost var was := timers;
      timers := timers[..i] + [t] + timers[i..];
      first := i == 0;
      assert Entries(was) == view.timers;
      InsertedAt(was, all, t, i);
      view := view.(timers := Insert(view.timers, t.Key()));
    }

    /** The private addTimer; `notify` says whether onTimerInsertedAtFront is called. */
    method AddLocked(t: Timer) returns (notify: bool)
      requires Ordered() && t in all && t !in timers
      modifies this`timers, this`tickled, this`view
      ensures Ordered() && view == AddEntry(old(view), t.Key())
      ensures notify <==> !old(tickled) && tickled
      ensures forall u :: u in timers <==> u in old(timers) || u == t
    {
      var first := InsertTimer(t);
      notify := first && !tickled;
      if notify {
        tickled := true;
        view := view.(tickled := true);
      }
    }

    /** The key of a timer changes only while it is out of the set. */
    method SetTimes(t: Timer, ms: nat, next: nat)
      requires Ordered() && t in all && t !in timers && ms < U64 && next < U64
      modifies t`ms, t`next
      ensures Ordered()
      ensures t.Key() == old(t.Key()).(ms := ms, next := next)
    {
      t.ms := ms;
      t.next := next;
      assert Entries(timers) == old(Entries(timers));
    }

    /** The first half of refresh and reset. */
    method Rekey(t: Timer, ms: nat, next: nat) returns (found: bool)
      requires Ordered() && t in timers && ms < U64 && next < U64
      modifies this`timers, this`view, t`next, t`ms
      ensures found && Ordered() && Has(old(view.timers), t.addr)
      ensures view == old(view).(timers := Erase(old(view.timers), IndexOf(old(view.timers), t.addr)))
      ensures t.Key() == old(t.Key()).(ms := ms, next := next)
      ensures forall u :: u in timers <==> u in old(timers) && u != t
    {
      found := TakeOut(t);
      SetTimes(t, ms, next);
    }

    method ClearCallback(t: Timer)
      requires Ordered() && t in all && t !in timers
      modifies t`cb
      ensures Ordered() && t.cb == Null
    {
      t.cb := Null;
      assert Entries(timers) == old(Entries(timers));
    }

    method AddTimer(addr: nat, ms: nat, cb: nat, recurring: bool, now: nat) returns (t: Timer, notify: bool)
      requires Valid() && (forall u :: u in all ==> u.addr != addr) && ms < U64 && now < U64
      modifies this
      ensures Valid() && fresh(t) && all == old(all) + {t} && t.addr == addr
      ensures view == Add(old(view), addr, ms, recurring, cb, now)
      ensures notify <==> !old(tickled) && tickled
    {
      hide Insert, Erase, Sorted, Has, IndexOf, Entries;
      t := new Timer(addr, ms, cb, recurring, now);
      assert t !in timers;
      all := all + {t};
      assert Entries(timers) == old(Entries(timers));
      notify := AddLocked(t);
    }

    method CancelTimer(t: Timer) returns (ok: bool)
      requires Valid() && t in all
      modifies this`timers, this`view, t`cb
      ensures Valid() && view == Cancel(old(view), t.addr)
      ensures ok == Has(old(view.timers), t.addr) && t.cb == Null
    {
      MemberEntry(t);
      if t.cb.Set? {
        ok := TakeOut(t);
        ClearCallback(t);
      } else {
        ok := false;
      }
    }

    method RefreshTimer(t: Timer, now: nat) returns (ok: bool)
      requires Valid() && t in all && now < U64
      modifies this`timers, this`view, t`next, t`ms
      ensures old(view).Valid() && Valid() && view == Refresh(old(view), t.addr, now)
      ensures ok == Has(old(view.timers), t.addr)
    {
      hide Insert, Erase, Sorted, Has, IndexOf, Entries;
      ViewIsValid();
      MemberEntry(t);
      if !t.cb.Set? {
        return false;
      }
      ok := Rekey(t, t.ms, Wrap64(now + t.ms));
      var first := InsertTimer(t);
    }

    lemma ResetIs(st: State, e: Entry, ms: nat, fromNow: bool, now: nat, start: nat)
      requires st.Valid() && ms < U64 && now < U64 && start < U64
      requires Has(st.timers, e.addr) && e == st.timers[IndexOf(st.timers, e.addr)] && (ms != e.ms || fromNow)
      requires e.next < U64 && e.ms < U64 && start == if fromNow then now else Wrap64(e.next - e.ms)
      ensures Reset(st, e.addr, ms, fromNow, now)
           == AddEntry(st.(timers := Erase(st.timers, IndexOf(st.timers, e.addr))),
                       e.(ms := ms, next := Wrap64(start + ms)))
    {
      hide Insert, Erase, Sorted, AddEntry;
    }

    method ResetTimer(t: Timer, ms: nat, fromNow: bool, now: nat) returns (ok: bool, notify: bool)
      requires Valid() && t in all && ms < U64 && now < U64
      modifies this`timers, this`tickled, this`view, t`next, t`ms
      ensures old(view).Valid() && Valid() && view == Reset(old(view), t.addr, ms, fromNow, now)
      ensures ok == (Has(old(view.timers), t.addr) || (ms == old(t.ms) && !fromNow))
      ensures notify <==> !old(tickled) && tickled
    {
      hide Insert, Erase, Sorted, Has, IndexOf, Entries;
      ViewIsValid();
      MemberEntry(t);
      if ms == t.ms && !fromNow {
        return true, false;
      }
      if !t.cb.Set? {
        return false, false;
      }
      var start := if fromNow then now else Wrap64(t.next - t.ms);
      ResetIs(view, t.Key(), ms, fromNow, now, start);
      hide Reset;
      ok := Rekey(t, ms, Wrap64(start + ms));
      notify := AddLocked(t);
    }

    method GetNextTimer(now: nat) returns (wait: nat)
      requires Valid()
      modifies this`tickled, this`view
      ensures Valid() && (view, wait) == GetNext(old(view), now)
    {
      tickled := false;
      view := view.(tickled := false);
      if timers == [] {
        return NEVER;
      }
      wait := if now >= timers[0].next then 0 else timers[0].next - now;
    }

    /** One turn of the loop over the expired timers. */
    method Fire(t: Timer, now: nat) returns (cb: nat)
      requires Ordered() && t in all && t !in timers && t.cb.Set? && now < U64
      modifies this`timers, this`view, t`next, t`cb, t`ms
      ensures Ordered() && cb == old(t.Key()).cb
      ensures view == old(view).(timers :=
                if t.recurring then Insert(old(view.timers), old(t.Key()).(next := Wrap64(now + old(t.ms))))
                else old(view.timers))
      ensures t.cb.Set? <==> t.recurring
      ensures forall u :: u in timers <==> u in old(timers) || (t.recurring && u == t)
    {
      hide Insert, Erase, Sorted, Has, IndexOf, Entries;
      cb := t.cb.id;
      if t.recurring {
        SetTimes(t, t.ms, Wrap64(now + t.ms));
        var first := InsertTimer(t);
      } else {
        ClearCallback(t);
      }
    }

    /** More than an hour back; but a remembered reading below an hour wraps around, and then
        any step back will do. */
    method DetectClockRollover(now: nat) returns (rollover: bool)
      requires Ordered() && now < U64
      modifies this`previousTime, this`view
      ensures Ordered() && rollover == Rollover(now, old(previousTime))
      ensures view == old(view).(previousTime := now)
      ensures old(previousTime) >= HOUR_MS ==> (rollover <==> now + HOUR_MS < old(previousTime))
      ensures old(previousTime) < HOUR_MS ==> (rollover <==> now < old(previousTime))
    {
      rollover := now < previousTime && now < Wrap64(previousTime - HOUR_MS);
      previousTime := now;
      view := view.(previousTime := now);
    }

    /** std::set::upper_bound of a timer made for the comparison, at address `probe`. */
    method UpperBoundOf(now: nat, probe: nat) returns (n: nat)
      requires Ordered()
      ensures n == UpperBound(view.timers, Entry(now, probe, 0, false, 0)) <= |timers|
    {
      n := 0;
      ghost var s, e := view.timers, Entry(now, probe, 0, false, 0);
      while n < |timers| && !(if timers[n].next == now then probe < timers[n].addr else now < timers[n].next)
        invariant n <= |timers| && UpperBound(s, e) == n + UpperBound(s[n..], e)
      {
        assert s[n..][0] == timers[n].Key() && s[n..][1..] == s[n + 1..];
        n := n + 1;
      }
      assert n < |timers| ==> s[n..][0] == timers[n].Key();
    }

    lemma HalvesSorted(ts: seq<Timer>, n: nat)
      requires n <= |ts| && Sorted(Entries(ts))
      ensures Entries(ts[..n]) == Entries(ts)[..n] && Entries(ts[n..]) == Entries(ts)[n..]
      ensures Sorted(Entries(ts)[..n]) && Sorted(Entries(ts)[n..])
    {
      SplitSorted(Entries(ts), n);
      EntriesSplit(ts, n);
    }

    lemma HalvesDisjoint(ts: seq<Timer>, n: nat)
      requires n <= |ts| && Sorted(Entries(ts))
      ensures forall t, u :: t in ts[..n] && u in ts[n..] ==> t != u
    {
      hide Sorted, Entries;
      forall t, u | t in ts[..n] && u in ts[n..]
        ensures t != u
      {
        var i :| 0 <= i < |ts[..n]| && ts[..n][i] == t;
        var j :| 0 <= j < |ts[n..]| && ts[n..][j] == u;
        DistinctTimers(ts, i);
        assert ts[n..][j] == ts[n + j] && ts[..n][i] == ts[i];
      }
    }

    lemma HalvesCover(ts: seq<Timer>, n: nat)
      requires n <= |ts|
      ensures forall t :: t in ts <==> t in ts[..n] || t in ts[n..]
    {
      assert ts == ts[..n] + ts[n..];
    }

    /** The first `n` timers leave the set. */
    method EraseFirst(n: nat) returns (expired: seq<Timer>)
      requires Ordered() && n <= |timers|
      modifies this`timers, this`view
      ensures Ordered() && expired == old(timers)[..n] && timers == old(timers)[n..]
      ensures view == old(view).(timers := old(view.timers)[n..])
      ensures Entries(expired) == old(view.timers)[..n] && Sorted(Entries(expired))
      ensures forall t, u :: t in expired && u in timers ==> t != u
      ensures forall t :: t in old(timers) <==> t in expired || t in timers
    {
      hide Sorted, Entries;
      HalvesSorted(timers, n);
      HalvesDisjoint(timers, n);
      HalvesCover(timers, n);
      ghost var was := timers;
      expired := timers[..n];
      timers := timers[n..];
      view := view.(timers := view.timers[n..]);
    }

    /** The timers in `left` have expired and are out of the set, but not yet fired. */
    ghost predicate Pending(left: seq<Timer>)
      reads this, all, left
    {
      && Ordered()
      && Sorted(Entries(left)) && Words(Entries(left))
      && (forall t :: t in left ==> t in all && t !in timers)
      && (forall t :: t in all ==> (t.cb.Set? <==> t in timers || t in left))
    }

    method FireFirst(t: Timer, now: nat, ghost left: seq<Timer>) returns (cb: nat)
      requires Pending(left) && left != [] && t == left[0] && now < U64
      modifies this`timers, this`view, t`next, t`cb, t`ms
      ensures Pending(left[1..]) && cb == old(t.Key()).cb
      ensures Entries(left[1..]) == old(Entries(left))[1..]
      ensures view == old(view).(timers :=
                if t.recurring then Insert(old(view.timers), old(t.Key()).(next := Wrap64(now + old(t.ms))))
                else old(view.timers))
    {
      hide Insert, Erase, Sorted, Has, IndexOf, Entries;
      FirstExpired(left);
      cb := Fire(t, now);
      assert Entries(left[1..]) == old(Entries(left[1..]));
    }

    /** The loop over the expired timers, from the first to the last. */
    method FireAll(expired: seq<Timer>, now: nat) returns (cbs: seq<nat>)
      requires Pending(expired) && now < U64
      modifies this`timers, this`view, all
      ensures Valid()
      ensures view == old(view).(timers := Requeue(old(view.timers), old(Entries(expired)), now))
      ensures cbs == Callbacks(old(Entries(expired)))
    {
      hide Insert, Erase, Sorted, Has, IndexOf, Entries, Requeue, Callbacks, Ordered, Words;
      ghost var es := Entries(expired);
      assert es[0..] == es && expired[0..] == expired;
      cbs := [];
      for i := 0 to |expired|
        invariant Pending(expired[i..]) && Entries(expired[i..]) == es[i..]
        invariant view == old(view).(timers := view.timers)
        invariant Requeue(view.timers, es[i..], now) == Requeue(old(view.timers), es, now)
        invariant cbs + Callbacks(es[i..]) == Callbacks(es)
      {
        assert es[i..][0] == es[i] == expired[i].Key() && es[i..][1..] == es[i + 1..];
        assert expired[i..][1..] == expired[i + 1..];
        FireTurn(view.timers, es[i..], cbs, now);
        var cb := FireFirst(expired[i], now, expired[i..]);
        cbs := cbs + [cb];
      }
      assert es[|es|..] == [];
      FireDone(view.timers, now);
    }

    lemma FireTurn(s: seq<Entry>, es: seq<Entry>, cbs: seq<nat>, now: nat)
      requires es != [] && Words(es) && now < U64
      ensures Words(es[1..])
      ensures Requeue(s, es, now)
           == Requeue(if es[0].recurring then Insert(s, es[0].(next := Wrap64(now + es[0].ms))) else s, es[1..], now)
      ensures cbs + Callbacks(es) == (cbs + [es[0].cb]) + Callbacks(es[1..])
    {
    }

    lemma FireDone(s: seq<Entry>, now: nat)
      requires now < U64
      ensures Requeue(s, [], now) == s && Callbacks([]) == []
    {
    }

    lemma FirstExpired(ts: seq<Timer>)
      requires ts != [] && Sorted(Entries(ts)) && Words(Entries(ts))
      ensures ts == [ts[0]] + ts[1..] && ts[0] !in ts[1..]
      ensures Entries(ts[1..]) == Entries(ts)[1..] && Sorted(Entries(ts)[1..]) && Words(Entries(ts)[1..])
    {
      DistinctTimers(ts, 0);
      EntriesSplit(ts, 1);
    }

    method ListExpiredCb(now: nat, probe: nat) returns (cbs: seq<nat>)
      requires Valid() && now < U64
      modifies this`timers, this`view, this`previousTime, all
      ensures old(view).Valid() && Valid()
      ensures view == ListExpired(old(view), now, probe).0
      ensures cbs == Callbacks(ListExpired(old(view), now, probe).1)
    {
      hide Sorted, Has, Insert, Requeue, UpperBound, Entries, Callbacks, Rollover;
      ViewIsValid();
      FireDone(view.timers, now);
      if timers == [] {
        return [];
      }
      assert view.timers[..0] == [] && view.timers[0..] == view.timers;
      var rollover := DetectClockRollover(now);
      if !rollover && timers[0].next > now {
        return [];
      }
      var n := |timers|;
      if !rollover {
        n := UpperBoundOf(now, probe);
      }
      var expired := EraseFirst(n);
      cbs := FireAll(expired, now);
    }
  }

  /** The callbacks of the entries, in order. */
  function Callbacks(s: seq<Entry>): seq<nat> {
    if s == [] then [] else [s[0].cb] + Callbacks(s[1..])
  }
}
