/** The timer set as a value: what each operation of TimerManager does to it. */
module TimerSpec {

  const U64 := 0x1_0000_0000_0000_0000
  const NEVER := U64 - 1
  const HOUR_MS := 60 * 60 * 1000

  /** Unsigned 64-bit wrap-around of a sum or difference of two words. */
  function Wrap64(v: int): (r: nat)
    requires -U64 <= v < 2 * U64
    ensures r < U64
  {
    if v < 0 then v + U64 else if v >= U64 then v - U64 else v
  }

  /** A timer in the set: its deadline, its address (the tie breaker), its period, and its
      callback. */
  datatype Entry = Entry(next: nat, addr: nat, ms: nat, recurring: bool, cb: nat)

  /** Timer::Comparator. */
  predicate Less(a: Entry, b: Entry) {
    if a.next == b.next then a.addr < b.addr else a.next < b.next
  }

  /** The set is in comparator order and holds no address twice. */
  predicate Sorted(s: seq<Entry>) {
    s == [] || ((forall x :: x in s[1..] ==> Less(s[0], x) && s[0].addr != x.addr) && Sorted(s[1..]))
  }

  predicate Words(s: seq<Entry>) {
    forall x :: x in s ==> x.next < U64 && x.ms < U64
  }

  /** std::set::insert: nothing happens when an equivalent element is there. */
  function Insert(s: seq<Entry>, e: Entry): (r: seq<Entry>)
    ensures forall x :: x in r ==> x in s || x == e
  {
    if s == [] || Less(e, s[0]) then [e] + s
    else if Less(s[0], e) then [s[0]] + Insert(s[1..], e)
    else s
  }

  /** insert(..).first == begin(). */
  predicate AtFront(s: seq<Entry>, e: Entry) {
    s == [] || !Less(s[0], e)
  }

  predicate Has(s: seq<Entry>, addr: nat) {
    exists x :: x in s && x.addr == addr
  }

  function IndexOf(s: seq<Entry>, addr: nat): (i: nat)
    requires Has(s, addr)
    ensures i < |s| && s[i].addr == addr
  {
    if s[0].addr == addr then 0
    else
      assert s == [s[0]] + s[1..];
      1 + IndexOf(s[1..], addr)
  }

  function Erase(s: seq<Entry>, i: nat): seq<Entry>
    requires i < |s|
  {
    if i == 0 then s[1..] else [s[0]] + Erase(s[1..], i - 1)
  }

  datatype State = State(timers: seq<Entry>, tickled: bool, previousTime: nat)
  {
    predicate Valid() {
      Sorted(timers) && Words(timers) && previousTime < U64
    }
  }

  function Initial(now: nat): State {
    State([], false, now)
  }

  /** The private addTimer: insert, and ask for a wake-up when the new timer is the first. */
  function AddEntry(st: State, e: Entry): State {
    State(Insert(st.timers, e), st.tickled || AtFront(st.timers, e), st.previousTime)
  }

  function Add(st: State, addr: nat, ms: nat, recurring: bool, cb: nat, now: nat): State
    requires ms < U64 && now < U64
  {
    AddEntry(st, Entry(Wrap64(now + ms), addr, ms, recurring, cb))
  }

  function Cancel(st: State, addr: nat): State {
    if !Has(st.timers, addr) then st
    else st.(timers := Erase(st.timers, IndexOf(st.timers, addr)))
  }

  function Refresh(st: State, addr: nat, now: nat): State
    requires st.Valid() && now < U64
  {
    if !Has(st.timers, addr) then st
    else
      var i := IndexOf(st.timers, addr);
      var e := st.timers[i];
      st.(timers := Insert(Erase(st.timers, i), e.(next := Wrap64(now + e.ms))))
  }

  function Reset(st: State, addr: nat, ms: nat, fromNow: bool, now: nat): State
    requires st.Valid() && ms < U64 && now < U64
  {
    if !Has(st.timers, addr) then st
    else
      var i := IndexOf(st.timers, addr);
      var e := st.timers[i];
      if ms == e.ms && !fromNow then st
      else
        var start := if fromNow then now else Wrap64(e.next - e.ms);
        AddEntry(st.(timers := Erase(st.timers, i)), e.(ms := ms, next := Wrap64(start + ms)))
  }

  function GetNext(st: State, now: nat): (State, nat) {
    (st.(tickled := false),
     if st.timers == [] then NEVER
     else if now >= st.timers[0].next then 0
     else st.timers[0].next - now)
  }

  predicate Rollover(now: nat, previous: nat)
    requires previous < U64
  {
    now < previous && now < Wrap64(previous - HOUR_MS)
  }

  /** std::set::upper_bound: how many entries are not after `e`. */
  function UpperBound(s: seq<Entry>, e: Entry): (n: nat)
    ensures n <= |s|
  {
    if s == [] || Less(e, s[0]) then 0 else 1 + UpperBound(s[1..], e)
  }

  /** The recurring timers among the expired ones go back in with a new deadline. */
  function Requeue(s: seq<Entry>, expired: seq<Entry>, now: nat): seq<Entry>
    requires now < U64 && Words(expired)
    decreases |expired|
  {
    if expired == [] then s
    else
      var e := expired[0];
      Requeue(if e.recurring then Insert(s, e.(next := Wrap64(now + e.ms))) else s, expired[1..], now)
  }

  /** How many timers expire; `addr` is where the timer to compare with was allocated. */
  function Expired(st: State, now: nat, addr: nat): (n: nat)
    requires st.Valid()
    ensures n <= |st.timers|
  {
    if Rollover(now, st.previousTime) then |st.timers|
    else if st.timers == [] || st.timers[0].next > now then 0
    else UpperBound(st.timers, Entry(now, addr, 0, false, 0))
  }

  function ListExpired(st: State, now: nat, addr: nat): (State, seq<Entry>)
    requires st.Valid() && now < U64
  {
    if st.timers == [] then (st, [])
    else
      var n := Expired(st, now, addr);
      (State(Requeue(st.timers[n..], st.timers[..n], now), st.tickled, now), st.timers[..n])
  }

  // ---------------------------------------------------------------- one operation

  lemma {:induction false} InsertSorted(s: seq<Entry>, e: Entry)
    requires Sorted(s) && !Has(s, e.addr)
    ensures Sorted(Insert(s, e))
    ensures multiset(Insert(s, e)) == multiset(s) + multiset{e}
    ensures AtFront(s, e) <==> Insert(s, e)[0] == e
  {
    if s == [] || Less(e, s[0]) {
      assert ([e] + s)[1..] == s;
      assert s != [] ==> s == [s[0]] + s[1..];
    } else {
      assert s == [s[0]] + s[1..];
      InsertSorted(s[1..], e);
      assert ([s[0]] + Insert(s[1..], e))[1..] == Insert(s[1..], e);
    }
  }

  lemma {:induction false} EraseMembers(s: seq<Entry>, i: nat)
    requires i < |s|
    ensures multiset(s) == multiset(Erase(s, i)) + multiset{s[i]}
    ensures forall x :: x in Erase(s, i) ==> x in s
  {
    assert s == [s[0]] + s[1..];
    if i > 0 {
      EraseMembers(s[1..], i - 1);
    }
  }

  lemma SortedCons(e: Entry, s: seq<Entry>)
    requires Sorted(s) && forall x :: x in s ==> Less(e, x) && e.addr != x.addr
    ensures Sorted([e] + s)
  {
    assert ([e] + s)[1..] == s;
  }

  lemma {:induction false} EraseSorted(s: seq<Entry>, i: nat)
    requires Sorted(s) && i < |s|
    ensures Sorted(Erase(s, i)) && !Has(Erase(s, i), s[i].addr)
  {
    if i > 0 {
      var t := s[1..];
      var gone := t[i - 1];
      EraseMembers(t, i - 1);
      EraseSorted(t, i - 1);
      var rest := Erase(t, i - 1);
      assert gone in t && s[0].addr != gone.addr && Erase(s, i) == [s[0]] + rest;
      hide Erase, Less;
      SortedCons(s[0], rest);
    }
  }

  lemma {:induction false} SplitSorted(s: seq<Entry>, n: nat)
    requires Sorted(s) && n <= |s|
    ensures Sorted(s[..n]) && Sorted(s[n..])
    ensures forall x, y :: x in s[..n] && y in s[n..] ==> x.addr != y.addr
  {
    if n > 0 {
      SplitSorted(s[1..], n - 1);
      assert s[1..][..n - 1] == s[..n][1..] && s[1..][n - 1..] == s[n..];
      assert forall y :: y in s[n..] ==> y in s[1..];
      assert forall x :: x in s[..n] ==> x == s[0] || x in s[1..][..n - 1];
    }
  }

  /** The expired timers are those not after (now, addr), in order. */
  lemma {:induction false} UpperBoundSplits(s: seq<Entry>, e: Entry)
    requires Sorted(s)
    ensures forall x :: x in s[..UpperBound(s, e)] ==> !Less(e, x)
    ensures forall x :: x in s[UpperBound(s, e)..] ==> Less(e, x)
  {
    if s != [] {
      var n := UpperBound(s[1..], e);
      UpperBoundSplits(s[1..], e);
      assert s[..n + 1] == [s[0]] + s[1..][..n] && s[n + 1..] == s[1..][n..];
      assert s == [s[0]] + s[1..];
    }
  }

  /** What the recurring timers among the expired ones become. */
  function Requeued(expired: seq<Entry>, now: nat): seq<Entry>
    requires now < U64 && Words(expired)
    decreases |expired|
  {
    if expired == [] then []
    else
      var e := expired[0];
      (if e.recurring then [e.(next := Wrap64(now + e.ms))] else []) + Requeued(expired[1..], now)
  }

  lemma {:induction false} RequeueSorted(s: seq<Entry>, expired: seq<Entry>, now: nat)
    requires now < U64 && Words(expired) && Words(s) && Sorted(s) && Sorted(expired)
    requires forall x, y :: x in s && y in expired ==> x.addr != y.addr
    ensures Sorted(Requeue(s, expired, now)) && Words(Requeue(s, expired, now))
    ensures multiset(Requeue(s, expired, now)) == multiset(s) + multiset(Requeued(expired, now))
    decreases |expired|
  {
    hide Insert, Less;
    if expired != [] {
      var e, rest := expired[0], expired[1..];
      assert expired == [e] + rest;
      if e.recurring {
        var e' := e.(next := Wrap64(now + e.ms));
        InsertSorted(s, e');
        RequeueSorted(Insert(s, e'), rest, now);
      } else {
        RequeueSorted(s, rest, now);
      }
    }
  }

  /** listExpiredCb fires, in deadline order, every timer whose deadline has passed and none
      whose deadline lies ahead (those due now are split by address), or all of them after
      the clock was set back by more than an hour.  The one-shots among them are gone; the
      recurring ones get a new deadline; the others stay as they are. */
  lemma ExpiryFires(st: State, now: nat, addr: nat)
    requires st.Valid() && now < U64
    ensures var (st', fired) := ListExpired(st, now, addr);
            && st'.Valid()
            && Sorted(fired) && fired == st.timers[..|fired|]
            && (st.timers != [] && Rollover(now, st.previousTime) ==> fired == st.timers)
            && (!Rollover(now, st.previousTime) ==>
                  forall e :: e in st.timers ==>
                    (e in fired <==> e.next < now || (e.next == now && e.addr <= addr)))
            && multiset(st'.timers) == multiset(st.timers) - multiset(fired) + multiset(Requeued(fired, now))
  {
    hide Requeue, Insert, Has, Sorted, UpperBound, Requeued, Rollover;
    if st.timers != [] {
      var n := Expired(st, now, addr);
      var s, fired, rest := st.timers, st.timers[..n], st.timers[n..];
      assert s == fired + rest;
      SplitSorted(s, n);
      RequeueSorted(rest, fired, now);
      ExpiredExactly(st, now, addr);
      hide Expired;
      assert multiset(s) - multiset(fired) == multiset(rest);
    } else {
      NothingExpires(now);
    }
  }

  lemma NothingExpires(now: nat)
    requires now < U64
    ensures Sorted([]) && Requeued([], now) == []
  {
  }

  /** Without a rollover: those due before now, and those due now whose address is not after. */
  lemma ExpiredExactly(st: State, now: nat, addr: nat)
    requires st.Valid() && st.timers != []
    ensures var fired := st.timers[..Expired(st, now, addr)];
      && (Rollover(now, st.previousTime) ==> fired == st.timers)
      && (!Rollover(now, st.previousTime) ==>
            forall e :: e in st.timers ==> (e in fired <==> e.next < now || (e.next == now && e.addr <= addr)))
  {
    hide Rollover, UpperBound, Words;
    if !Rollover(now, st.previousTime) {
      var s, probe := st.timers, Entry(now, addr, 0, false, 0);
      var n := UpperBound(s, probe);
      UpperBoundSplits(s, probe);
      assert s == s[..n] + s[n..];
      if s[0].next > now {
        FirstAhead(s, probe);
      }
      hide Sorted;
      assert n == Expired(st, now, addr);
      assert forall e :: e in s ==> (e in s[..n] <==> !Less(probe, e));
    }
  }

  lemma FirstAhead(s: seq<Entry>, e: Entry)
    requires s != [] && s[0].next > e.next
    ensures UpperBound(s, e) == 0
  {
  }
}
