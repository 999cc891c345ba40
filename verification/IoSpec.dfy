/** IOManager's event registration as a value: per-fd contexts, the kernel's interest set,
    the counter of pending events, and the tasks handed to schedulers so far. */
module IoSpec {
  import opened Options

  /** IOManager::Event without NONE; a mask is a set of them. */
  datatype Kind = READ | WRITE

  /** What waits for an event: a callback or a fiber. */
  datatype Task = Callback(id: nat) | Fiber(id: nat)

  datatype EventContext = EventContext(scheduler: Option<nat>, fiber: Option<nat>, cb: Option<nat>)

  const EMPTY := EventContext(None, None, None)

  datatype FdContext = FdContext(read: EventContext, write: EventContext, events: set<Kind>)
  {
    function Get(k: Kind): EventContext {
      match k case READ => read case WRITE => write
    }

    function Put(k: Kind, c: EventContext): FdContext {
      match k case READ => this.(read := c) case WRITE => this.(write := c)
    }

    /** A bit is set exactly when its context has a scheduler and one of fiber and callback;
        otherwise the context is empty. */
    predicate Ok() {
      OkFor(READ) && OkFor(WRITE)
    }

    predicate OkFor(k: Kind) {
      if k in events then Get(k).scheduler.Some? && (Get(k).fiber.Some? <==> !Get(k).cb.Some?)
      else Get(k) == EMPTY
    }

    /** The bit and its context cleared. */
    function Without(k: Kind): FdContext {
      this.(events := events - {k}).Put(k, EMPTY)
    }

    /** The bit set, with what waits for it. */
    function With(k: Kind, c: EventContext): FdContext {
      this.(events := events + {k}).Put(k, c)
    }
  }

  const IDLE := FdContext(EMPTY, EMPTY, {})

  // ---------------------------------------------------------------- the kernel

  datatype Op = ADD | MOD | DEL

  /** epoll_ctl: refuses an operation that does not fit what is registered, and may fail for
      other reasons (`fails`). */
  function EpollCtl(epoll: map<nat, set<Kind>>, op: Op, fd: nat, mask: set<Kind>, fails: bool)
    : (r: (bool, map<nat, set<Kind>>))
  {
    if fails || (op == ADD <==> fd in epoll) then (false, epoll)
    else (true, if op == DEL then epoll - {fd} else epoll[fd := mask])
  }

  // ---------------------------------------------------------------- states and calls

  /** `queue` is everything scheduled so far, with its scheduler; `added` and `dropped` are
      the tasks of the successful addEvent and delEvent calls. */
  datatype State = State(
    contexts: seq<FdContext>,
    epoll: map<nat, set<Kind>>,
    pending: int,
    queue: seq<(nat, Task)>,
    added: multiset<Task>,
    dropped: multiset<Task>)

  function Initial(): State {
    State(seq(32, _ => IDLE), map[], 0, [], multiset{}, multiset{})
  }

  datatype Call =
    | AddEvent(fd: nat, kind: Kind, cb: Option<nat>, fiber: nat, scheduler: Option<nat>)
    | DelEvent(fd: nat, kind: Kind)
    | CancelEvent(fd: nat, kind: Kind)
    | CancelAll(fd: nat)
    | Ready(fd: nat, ready: set<Kind>, error: bool)

  /** A failed AZURE_ASSERT stops the process. */
  datatype Result = Stopped | Returned(ok: bool, st: State)

  function TaskOf(c: EventContext): Task {
    if c.cb.Some? then Callback(c.cb.value)
    else if c.fiber.Some? then Fiber(c.fiber.value)
    else Fiber(0)
  }

  /** contextResize(fd * 1.5), when the table is too small. */
  function Grown(contexts: seq<FdContext>, fd: nat): (r: seq<FdContext>)
    requires |contexts| >= 2
    ensures |r| > fd && |r| >= |contexts| && r[..|contexts|] == contexts
    ensures forall i :: |contexts| <= i < |r| ==> r[i] == IDLE
  {
    if |contexts| > fd then contexts
    else contexts + seq(fd + fd / 2 - |contexts|, _ => IDLE)
  }

  function Add(st: State, fd: nat, kind: Kind, cb: Option<nat>, fiber: nat, scheduler: Option<nat>, fails: bool): Result
    requires |st.contexts| >= 2
  {
    var contexts := Grown(st.contexts, fd);
    var ctx := contexts[fd];
    if kind in ctx.events then Stopped
    else
      var (ok, epoll) := EpollCtl(st.epoll, if ctx.events != {} then MOD else ADD, fd, ctx.events + {kind}, fails);
      if !ok then Returned(false, st.(contexts := contexts))
      else if ctx.Get(kind) != EMPTY || scheduler.None? then Stopped
      else
        var c := EventContext(scheduler, if cb.Some? then None else Some(fiber), cb);
        var ctx' := ctx.With(kind, c);
        Returned(true, st.(contexts := contexts[fd := ctx'], epoll := epoll, pending := st.pending + 1,
                           added := st.added + multiset{TaskOf(c)}))
  }

  /** The epoll_ctl call that takes the bits in `gone` out of the interest set. */
  function Unregister(st: State, fd: nat, gone: set<Kind>, fails: bool): (bool, map<nat, set<Kind>>)
    requires fd < |st.contexts|
  {
    var left := st.contexts[fd].events - gone;
    EpollCtl(st.epoll, if left != {} then MOD else DEL, fd, left, fails)
  }

  function Del(st: State, fd: nat, kind: Kind, fails: bool): Result {
    if |st.contexts| <= fd || kind !in st.contexts[fd].events then Returned(false, st)
    else
      var (ok, epoll) := Unregister(st, fd, {kind}, fails);
      if !ok then Returned(false, st)
      else
        var ctx := st.contexts[fd];
        var ctx' := ctx.Without(kind);
        Returned(true, st.(contexts := st.contexts[fd := ctx'], epoll := epoll, pending := st.pending - 1,
                           dropped := st.dropped + multiset{TaskOf(ctx.Get(kind))}))
  }

  /** triggerEvent and the decrement that goes with it: the task leaves the context for the
      scheduler's queue. */
  function Trigger(st: State, fd: nat, kind: Kind): (r: Result)
    requires fd < |st.contexts|
    ensures r.Returned? ==> r.ok && |r.st.contexts| == |st.contexts|
  {
    var ctx := st.contexts[fd];
    var c := ctx.Get(kind);
    if kind !in ctx.events || c.scheduler.None? then Stopped
    else
      var c' := EventContext(None, if c.cb.Some? then c.fiber else None, None);
      var ctx' := ctx.(events := ctx.events - {kind}).Put(kind, c');
      Returned(true, st.(contexts := st.contexts[fd := ctx'], pending := st.pending - 1,
                         queue := st.queue + [(c.scheduler.value, TaskOf(c))]))
  }

  function Cancel(st: State, fd: nat, kind: Kind, fails: bool): Result {
    if |st.contexts| <= fd || kind !in st.contexts[fd].events then Returned(false, st)
    else
      var (ok, epoll) := Unregister(st, fd, {kind}, fails);
      if !ok then Returned(false, st) else Trigger(st.(epoll := epoll), fd, kind)
  }

  /** READ first, then WRITE, each if it is in `kinds`. */
  function TriggerEach(st: State, fd: nat, kinds: set<Kind>): Result
    requires fd < |st.contexts|
  {
    var r := if READ in kinds then Trigger(st, fd, READ) else Returned(true, st);
    if r.Stopped? || WRITE !in kinds then r else Trigger(r.st, fd, WRITE)
  }

  function CancelAllOf(st: State, fd: nat, fails: bool): Result {
    if |st.contexts| <= fd || st.contexts[fd].events == {} then Returned(false, st)
    else
      var (ok, epoll) := EpollCtl(st.epoll, DEL, fd, {}, fails);
      if !ok then Returned(false, st)
      else TriggerEach(st.(epoll := epoll), fd, st.contexts[fd].events)
  }

  /** One ready event in idle.  An error or hang-up wakes both kinds. */
  function HandleReady(st: State, fd: nat, ready: set<Kind>, error: bool, fails: bool): Result
    requires fd < |st.contexts|
  {
    var woken := if error then {READ, WRITE} else ready;
    if st.contexts[fd].events * woken == {} then Returned(true, st)
    else
      var (ok, epoll) := Unregister(st, fd, woken, fails);
      if !ok then Returned(false, st) else TriggerEach(st.(epoll := epoll), fd, woken)
  }

  /** The kernel only reports descriptors that have a context. */
  predicate Legal(st: State, call: Call) {
    |st.contexts| >= 2 && (call.Ready? ==> call.fd < |st.contexts|)
  }

  function Do(st: State, call: Call, fails: bool): Result
    requires Legal(st, call)
  {
    match call
    case AddEvent(fd, kind, cb, fiber, scheduler) => Add(st, fd, kind, cb, fiber, scheduler, fails)
    case DelEvent(fd, kind) => Del(st, fd, kind, fails)
    case CancelEvent(fd, kind) => Cancel(st, fd, kind, fails)
    case CancelAll(fd) => CancelAllOf(st, fd, fails)
    case Ready(fd, ready, error) => HandleReady(st, fd, ready, error, fails)
  }

  // ---------------------------------------------------------------- the invariant

  /** The tasks waiting in a context. */
  function Waiting(x: FdContext): multiset<Task> {
    (if READ in x.events then multiset{TaskOf(x.read)} else multiset{})
    + (if WRITE in x.events then multiset{TaskOf(x.write)} else multiset{})
  }

  function WaitingAll(xs: seq<FdContext>): multiset<Task> {
    if xs == [] then multiset{} else Waiting(xs[0]) + WaitingAll(xs[1..])
  }

  function Tasks(q: seq<(nat, Task)>): multiset<Task> {
    if q == [] then multiset{} else multiset{q[|q| - 1].1} + Tasks(q[..|q| - 1])
  }

  /** The kernel watches exactly the descriptors with events, for exactly those events. */
  predicate Agrees(contexts: seq<FdContext>, epoll: map<nat, set<Kind>>) {
    && (forall fd :: fd in epoll ==> fd < |contexts|)
    && (forall fd :: 0 <= fd < |contexts| ==>
          if contexts[fd].events == {} then fd !in epoll else fd in epoll && epoll[fd] == contexts[fd].events)
  }

  /** The contexts, the counter and the ledger: every task added was scheduled, was dropped,
      or is waiting, once; and the counter is the number of those waiting. */
  predicate Accounted(st: State) {
    && |st.contexts| >= 32
    && (forall i :: 0 <= i < |st.contexts| ==> st.contexts[i].Ok())
    && st.pending == |WaitingAll(st.contexts)|
    && st.added == Tasks(st.queue) + st.dropped + WaitingAll(st.contexts)
  }

  predicate Valid(st: State) {
    Accounted(st) && Agrees(st.contexts, st.epoll)
  }

  lemma Regroup(a: multiset<Task>, b: multiset<Task>, c: multiset<Task>)
    ensures (a + b) + c == a + (b + c)
  {
  }

  lemma CancelCommon(a: multiset<Task>, b: multiset<Task>, c: multiset<Task>)
    requires a + c == b + c
    ensures a == b
  {
    forall t: Task
      ensures a[t] == b[t]
    {
      assert (a + c)[t] == (b + c)[t];
    }
  }

  lemma {:induction false} WaitingUpdate(xs: seq<FdContext>, i: nat, x: FdContext)
    requires i < |xs|
    ensures WaitingAll(xs[i := x]) + Waiting(xs[i]) == WaitingAll(xs) + Waiting(x)
  {
    if i == 0 {
      assert xs[i := x][1..] == xs[1..];
    } else {
      var tail := xs[1..];
      assert xs[i := x][1..] == tail[i - 1 := x];
      WaitingUpdate(tail, i - 1, x);
      Regroup(Waiting(xs[0]), WaitingAll(tail[i - 1 := x]), Waiting(xs[i]));
      Regroup(Waiting(xs[0]), WaitingAll(tail), Waiting(x));
    }
  }

  lemma {:induction false} WaitingPrefix(xs: seq<FdContext>, ys: seq<FdContext>)
    requires |xs| <= |ys| && ys[..|xs|] == xs && forall i :: |xs| <= i < |ys| ==> ys[i] == IDLE
    ensures WaitingAll(ys) == WaitingAll(xs)
    decreases |ys|
  {
    if ys != [] {
      if xs == [] {
        WaitingPrefix([], ys[1..]);
      } else {
        assert ys[0] == xs[0] && ys[1..][..|xs[1..]|] == xs[1..];
        WaitingPrefix(xs[1..], ys[1..]);
      }
    }
  }

  /** Changing one context by `gone` and `come`, with the counter and the ledger. */
  lemma ContextChange(st: State, st': State, fd: nat, ctx: FdContext, gone: multiset<Task>, come: multiset<Task>)
    requires Accounted(st) && fd < |st.contexts| && st'.contexts == st.contexts[fd := ctx] && ctx.Ok()
    requires Waiting(ctx) + gone == Waiting(st.contexts[fd]) + come
    requires st'.pending == st.pending + |come| - |gone|
    requires st'.added == st.added + come
    requires Tasks(st'.queue) + st'.dropped == Tasks(st.queue) + st.dropped + gone
    ensures Accounted(st')
  {
    WaitingUpdate(st.contexts, fd, ctx);
    hide WaitingAll, Waiting, Tasks, FdContext.Ok;
    var before, after, was, now := WaitingAll(st.contexts), WaitingAll(st'.contexts), Waiting(st.contexts[fd]), Waiting(ctx);
    Balance(before, after, was, now, gone, come);
    Ledger(Tasks(st.queue) + st.dropped, before, Tasks(st'.queue) + st'.dropped, after, gone, come);
  }

  lemma Ledger(done: multiset<Task>, before: multiset<Task>, done': multiset<Task>, after: multiset<Task>,
               gone: multiset<Task>, come: multiset<Task>)
    requires after + gone == before + come && done' == done + gone
    ensures done' + after == done + before + come && |after| == |before| + |come| - |gone|
  {
    assert done + gone + after == done + (after + gone);
    assert done + (before + come) == done + before + come;
    assert |after + gone| == |after| + |gone| && |before + come| == |before| + |come|;
  }

  lemma Balance(before: multiset<Task>, after: multiset<Task>, was: multiset<Task>, now: multiset<Task>,
                gone: multiset<Task>, come: multiset<Task>)
    requires after + was == before + now && now + gone == was + come
    ensures after + gone == before + come
  {
    assert (after + gone) + was == (after + was) + gone;
    assert (before + now) + gone == before + (now + gone);
    assert before + (was + come) == (before + come) + was;
    CancelCommon(after + gone, before + come, was);
  }

  // ---------------------------------------------------------------- every call keeps it

  lemma WithoutKeeps(ctx: FdContext, k: Kind)
    requires ctx.Ok() && k in ctx.events
    ensures ctx.Without(k).Ok()
    ensures Waiting(ctx.Without(k)) + multiset{TaskOf(ctx.Get(k))} == Waiting(ctx)
  {
    match k case READ => case WRITE =>
  }

  lemma WithKeeps(ctx: FdContext, k: Kind, c: EventContext)
    requires ctx.Ok() && k !in ctx.events && c.scheduler.Some? && (c.fiber.Some? <==> !c.cb.Some?)
    ensures ctx.With(k, c).Ok()
    ensures Waiting(ctx.With(k, c)) == Waiting(ctx) + multiset{TaskOf(c)}
  {
    match k case READ => case WRITE =>
  }

  lemma TasksAppend(q: seq<(nat, Task)>, x: (nat, Task))
    ensures Tasks(q + [x]) == Tasks(q) + multiset{x.1}
  {
    assert (q + [x])[..|q|] == q;
  }

  /** A registered event triggers: its task goes to its scheduler, and nothing else changes. */
  lemma TriggerKeeps(st: State, fd: nat, kind: Kind)
    requires Accounted(st) && fd < |st.contexts|
    ensures Trigger(st, fd, kind).Returned? <==> kind in st.contexts[fd].events
    ensures kind in st.contexts[fd].events ==>
      var ctx := st.contexts[fd];
      var st' := Trigger(st, fd, kind).st;
      && Accounted(st')
      && st'.contexts == st.contexts[fd := ctx.Without(kind)]
      && st' == st.(contexts := st'.contexts, pending := st.pending - 1, queue := st'.queue)
      && st'.queue == st.queue + [(ctx.Get(kind).scheduler.value, TaskOf(ctx.Get(kind)))]
  {
    hide WaitingAll, Waiting, Tasks;
    var ctx := st.contexts[fd];
    assert ctx.Ok();
    if kind in ctx.events {
      var st' := Trigger(st, fd, kind).st;
      var ctx' := ctx.Without(kind);
      var task := TaskOf(ctx.Get(kind));
      WithoutKeeps(ctx, kind);
      TasksAppend(st.queue, (ctx.Get(kind).scheduler.value, task));
      assert st'.contexts == st.contexts[fd := ctx'];
      ContextChange(st, st', fd, ctx', multiset{task}, multiset{});
    }
  }

  /** Triggering several kinds stops exactly when one of them is not registered. */
  lemma TriggerEachKeeps(st: State, fd: nat, kinds: set<Kind>)
    requires Accounted(st) && fd < |st.contexts|
    ensures TriggerEach(st, fd, kinds).Returned? <==> kinds <= st.contexts[fd].events
    ensures kinds <= st.contexts[fd].events ==>
      var st' := TriggerEach(st, fd, kinds).st;
      && Accounted(st')
      && |st'.contexts| == |st.contexts|
      && (forall i :: 0 <= i < |st.contexts| && i != fd ==> st'.contexts[i] == st.contexts[i])
      && st'.contexts[fd].events == st.contexts[fd].events - kinds
      && st' == st.(contexts := st'.contexts, pending := st.pending - |kinds|, queue := st'.queue)
  {
    hide WaitingAll, Waiting, Tasks, Accounted, Trigger;
    KindSets(kinds);
    TriggerKeeps(st, fd, READ);
    var r := if READ in kinds then Trigger(st, fd, READ) else Returned(true, st);
    if r.Returned? {
      TriggerKeeps(r.st, fd, WRITE);
    }
  }

  lemma KindSets(kinds: set<Kind>)
    ensures kinds == (if READ in kinds then {READ} else {}) + (if WRITE in kinds then {WRITE} else {})
    ensures |kinds| == (if READ in kinds then 1 else 0) + (if WRITE in kinds then 1 else 0)
  {
    forall k | k in kinds
      ensures k in (if READ in kinds then {READ} else {}) + (if WRITE in kinds then {WRITE} else {})
    {
      match k case READ => case WRITE =>
    }
    assert kinds == (if READ in kinds then {READ} else {}) + (if WRITE in kinds then {WRITE} else {});
  }

  /** The chosen operation always fits what the kernel has, so only the kernel can fail it;
      and when it succeeds the kernel agrees with the events that are left. */
  lemma UnregisterIsLegal(st: State, fd: nat, gone: set<Kind>, fails: bool)
    requires Valid(st) && fd < |st.contexts| && st.contexts[fd].events * gone != {}
    ensures Unregister(st, fd, gone, fails).0 == !fails
  {
  }

  lemma UnregisterAgrees(st: State, fd: nat, gone: set<Kind>, xs: seq<FdContext>)
    requires Valid(st) && fd < |st.contexts| && st.contexts[fd].events * gone != {}
    requires |xs| == |st.contexts| && xs[fd].events == st.contexts[fd].events - gone
    requires forall i :: 0 <= i < |xs| && i != fd ==> xs[i] == st.contexts[i]
    ensures Agrees(xs, Unregister(st, fd, gone, false).1)
  {
  }

  lemma GrownKeeps(st: State, fd: nat)
    requires Valid(st)
    ensures Valid(st.(contexts := Grown(st.contexts, fd)))
    ensures WaitingAll(Grown(st.contexts, fd)) == WaitingAll(st.contexts)
    ensures Grown(st.contexts, fd)[fd] == if fd < |st.contexts| then st.contexts[fd] else IDLE
  {
    hide WaitingAll, Waiting, Tasks;
    var xs := Grown(st.contexts, fd);
    WaitingPrefix(st.contexts, xs);
    assert forall i :: 0 <= i < |st.contexts| ==> xs[..|st.contexts|][i] == xs[i];
  }

  /** The operation addEvent chooses always fits what the kernel has. */
  lemma AddAgrees(st: State, fd: nat, kind: Kind, ctx: FdContext, fails: bool)
    requires Valid(st) && fd < |st.contexts| && ctx.events == st.contexts[fd].events + {kind}
    ensures var (ok, epoll) := EpollCtl(st.epoll, if st.contexts[fd].events != {} then MOD else ADD, fd, ctx.events, fails);
      ok == !fails && (ok ==> Agrees(st.contexts[fd := ctx], epoll))
  {
    hide WaitingAll, Waiting, Tasks;
  }

  lemma AddKeeps(st: State, fd: nat, kind: Kind, cb: Option<nat>, fiber: nat, scheduler: Option<nat>, fails: bool)
    requires Valid(st)
    ensures var r := Add(st, fd, kind, cb, fiber, scheduler, fails);
      && (r.Stopped? <==> Registered(st, fd, kind) || (!fails && scheduler.None?))
      && (r.Returned? ==> Valid(r.st) && r.ok == !fails)
      && (r.Returned? && r.ok ==>
            r.st.contexts[fd].events == Grown(st.contexts, fd)[fd].events + {kind}
            && r.st.added == st.added + multiset{if cb.Some? then Callback(cb.value) else Fiber(fiber)})
  {
    hide WaitingAll, Waiting, Tasks, Grown;
    var st0 := st.(contexts := Grown(st.contexts, fd));
    GrownKeeps(st, fd);
    var ctx := st0.contexts[fd];
    assert ctx.Ok();
    var c := EventContext(scheduler, if cb.Some? then None else Some(fiber), cb);
    var ctx' := ctx.With(kind, c);
    AddAgrees(st0, fd, kind, ctx', fails);
    var r := Add(st, fd, kind, cb, fiber, scheduler, fails);
    if r.Returned? && r.ok {
      WithKeeps(ctx, kind, c);
      ContextChange(st0, r.st, fd, ctx', multiset{}, multiset{TaskOf(c)});
    }
  }

  lemma AddValid(st: State, fd: nat, kind: Kind, cb: Option<nat>, fiber: nat, scheduler: Option<nat>, fails: bool)
    requires Valid(st)
    ensures var r := Add(st, fd, kind, cb, fiber, scheduler, fails); r.Returned? ==> Valid(r.st)
  {
    AddKeeps(st, fd, kind, cb, fiber, scheduler, fails);
  }

  /** The same call when the table is large enough, by the answer of epoll_ctl; the context
      of a clear bit is empty. */
  lemma AddInPlace(st: State, fd: nat, kind: Kind, cb: Option<nat>, fiber: nat, scheduler: Option<nat>, fails: bool,
                   op: Op, ok: bool, epoll: map<nat, set<Kind>>)
    requires Valid(st) && fd < |st.contexts| && kind !in st.contexts[fd].events
    requires op == if st.contexts[fd].events != {} then MOD else ADD
    requires (ok, epoll) == EpollCtl(st.epoll, op, fd, st.contexts[fd].events + {kind}, fails)
    ensures st.contexts[fd].Get(kind) == EMPTY
    ensures var c := EventContext(scheduler, if cb.Some? then None else Some(fiber), cb);
      Add(st, fd, kind, cb, fiber, scheduler, fails)
        == if !ok then Returned(false, st)
           else if scheduler.None? then Stopped
           else Returned(true, st.(contexts := st.contexts[fd := st.contexts[fd].With(kind, c)], epoll := epoll,
                                   pending := st.pending + 1, added := st.added + multiset{TaskOf(c)}))
  {
    hide WaitingAll, Waiting, Tasks;
    assert st.contexts[fd].Ok();
  }

  predicate Registered(st: State, fd: nat, kind: Kind) {
    fd < |st.contexts| && kind in st.contexts[fd].events
  }

  lemma DelKeeps(st: State, fd: nat, kind: Kind, fails: bool)
    requires Valid(st)
    ensures var r := Del(st, fd, kind, fails);
      && r.Returned? && Valid(r.st)
      && (r.ok <==> Registered(st, fd, kind) && !fails)
      && (!r.ok ==> r.st == st)
  {
    if Registered(st, fd, kind) {
      assert kind in st.contexts[fd].events * {kind};
      UnregisterIsLegal(st, fd, {kind}, fails);
      hide WaitingAll, Waiting, Tasks, TaskOf;
      var r := Del(st, fd, kind, fails);
      if r.ok {
        var ctx := st.contexts[fd];
        var ctx' := ctx.Without(kind);
        assert ctx.Ok();
        var task := TaskOf(ctx.Get(kind));
        WithoutKeeps(ctx, kind);
        UnregisterAgrees(st, fd, {kind}, r.st.contexts);
        ContextChange(st, r.st, fd, ctx', multiset{task}, multiset{});
      }
    }
  }

  lemma CancelKeeps(st: State, fd: nat, kind: Kind, fails: bool)
    requires Valid(st)
    ensures var r := Cancel(st, fd, kind, fails);
      && r.Returned? && Valid(r.st)
      && (r.ok <==> Registered(st, fd, kind) && !fails)
      && (!r.ok ==> r.st == st)
  {
    hide WaitingAll, Waiting, Tasks, Trigger, TaskOf;
    if Registered(st, fd, kind) {
      assert kind in st.contexts[fd].events * {kind};
      UnregisterIsLegal(st, fd, {kind}, fails);
      if !fails {
        var st0 := st.(epoll := Unregister(st, fd, {kind}, fails).1);
        assert Accounted(st0);
        TriggerKeeps(st0, fd, kind);
        UnregisterAgrees(st, fd, {kind}, Trigger(st0, fd, kind).st.contexts);
      }
    }
  }

  lemma CancelAllKeeps(st: State, fd: nat, fails: bool)
    requires Valid(st)
    ensures var r := CancelAllOf(st, fd, fails);
      && r.Returned? && Valid(r.st)
      && (r.ok <==> fd < |st.contexts| && st.contexts[fd].events != {} && !fails)
      && (r.ok ==> r.st.contexts[fd].events == {})
      && (!r.ok ==> r.st == st)
  {
    if fd < |st.contexts| && st.contexts[fd].events != {} && !fails {
      var events := st.contexts[fd].events;
      assert events * events == events && events - events == {};
      UnregisterIsLegal(st, fd, events, fails);
      TriggerEachKeeps(st.(epoll := st.epoll - {fd}), fd, events);
      UnregisterAgrees(st, fd, events, CancelAllOf(st, fd, fails).st.contexts);
    }
  }

  /** A ready event stops the process exactly when it is for a descriptor with some event
      registered, and wakes an event that is not: as when a peer hangs up on a descriptor
      registered for one kind only. */
  lemma ReadyKeeps(st: State, fd: nat, ready: set<Kind>, error: bool, fails: bool)
    requires Valid(st) && fd < |st.contexts|
    ensures var r := HandleReady(st, fd, ready, error, fails);
      var woken := if error then {READ, WRITE} else ready;
      var events := st.contexts[fd].events;
      && (r.Stopped? <==> !fails && events * woken != {} && !(woken <= events))
      && (r.Returned? ==> Valid(r.st) && (r.ok <==> events * woken == {} || !fails))
      && (r.Returned? && (events * woken == {} || fails) ==> r.st == st)
  {
    var woken := if error then {READ, WRITE} else ready;
    if st.contexts[fd].events * woken != {} {
      UnregisterIsLegal(st, fd, woken, fails);
      if !fails {
        TriggerEachKeeps(st.(epoll := Unregister(st, fd, woken, fails).1), fd, woken);
        if woken <= st.contexts[fd].events {
          UnregisterAgrees(st, fd, woken, HandleReady(st, fd, ready, error, fails).st.contexts);
        }
      }
    }
  }

  lemma InitialValid()
    ensures Valid(Initial())
  {
    var idle := Initial().contexts;
    hide WaitingAll, Waiting, Tasks, FdContext.Ok, Agrees;
    IdleAgrees(idle);
    IdleWaits(idle);
    NothingWaits();
    var none: multiset<Task> := multiset{};
    assert none + none + none == none;
  }

  lemma IdleAgrees(contexts: seq<FdContext>)
    requires forall i :: 0 <= i < |contexts| ==> contexts[i] == IDLE
    ensures Agrees(contexts, map[]) && forall i :: 0 <= i < |contexts| ==> contexts[i].Ok()
  {
  }

  lemma IdleWaits(contexts: seq<FdContext>)
    requires forall i :: 0 <= i < |contexts| ==> contexts[i] == IDLE
    ensures WaitingAll(contexts) == multiset{}
  {
    WaitingPrefix([], contexts);
  }

  lemma NothingWaits()
    ensures WaitingAll([]) == multiset{} && Tasks([]) == multiset{}
  {
  }

  // ---------------------------------------------------------------- runs

  lemma DoKeeps(st: State, call: Call, fails: bool)
    requires Valid(st) && Legal(st, call)
    ensures Do(st, call, fails).Returned? ==> Valid(Do(st, call, fails).st)
    ensures Do(st, call, fails).Returned? && fails ==>
      var st' := Do(st, call, fails).st;
      st' == st.(contexts := st'.contexts) && st.contexts <= st'.contexts && WaitingAll(st'.contexts) == WaitingAll(st.contexts)
  {
    match call
    case AddEvent(fd, kind, cb, fiber, scheduler) =>
      AddKeeps(st, fd, kind, cb, fiber, scheduler, fails);
      WaitingPrefix(st.contexts, Grown(st.contexts, fd));
    case DelEvent(fd, kind) => DelKeeps(st, fd, kind, fails);
    case CancelEvent(fd, kind) => CancelKeeps(st, fd, kind, fails);
    case CancelAll(fd) => CancelAllKeeps(st, fd, fails);
    case Ready(fd, ready, error) => ReadyKeeps(st, fd, ready, error, fails);
  }

  /** A run of calls, each with whether epoll_ctl fails; it ends early when a call stops. */
  function Run(st: State, calls: seq<(Call, bool)>): (r: State)
    requires Valid(st)
    ensures Valid(r)
    decreases |calls|
  {
    if calls == [] || !Legal(st, calls[0].0) then st
    else
      DoKeeps(st, calls[0].0, calls[0].1);
      match Do(st, calls[0].0, calls[0].1)
      case Stopped => st
      case Returned(_, st') => Run(st', calls[1..])
  }

  /** Exactly-once delivery: over any run, for every task, the number of times it was added
      is the number of times it was scheduled, plus the times it was dropped, plus the times
      it is still waiting; so the successful adds are the triggers, the deletes and the
      pending count. */
  lemma ExactlyOnce(calls: seq<(Call, bool)>, task: Task)
    ensures Valid(Initial())
    ensures var st := Run(Initial(), calls);
      && st.added[task] == Tasks(st.queue)[task] + st.dropped[task] + WaitingAll(st.contexts)[task]
      && |st.added| == |st.queue| + |st.dropped| + st.pending
  {
    InitialValid();
    var st := Run(Initial(), calls);
    TasksCount(st.queue);
    assert |Tasks(st.queue) + st.dropped + WaitingAll(st.contexts)|
        == |Tasks(st.queue)| + |st.dropped| + |WaitingAll(st.contexts)|;
  }

  /** A run of one successful addEvent for any descriptor and one kind, after which a hang-up
      on that descriptor stops the process. */
  lemma HangUpStops(fd: nat, kind: Kind, cb: Option<nat>, fiber: nat, scheduler: nat)
    ensures Valid(Initial())
    ensures var st := Run(Initial(), [(AddEvent(fd, kind, cb, fiber, Some(scheduler)), false)]);
      && Legal(st, Ready(fd, {}, true)) && st.contexts[fd].events == {kind}
      && Do(st, Ready(fd, {}, true), false).Stopped?
  {
    hide WaitingAll, Waiting, Tasks, HandleReady, Add, Valid, Accounted;
    InitialValid();
    AddKeeps(Initial(), fd, kind, cb, fiber, Some(scheduler), false);
    var calls := [(AddEvent(fd, kind, cb, fiber, Some(scheduler)), false)];
    var st := Add(Initial(), fd, kind, cb, fiber, Some(scheduler), false).st;
    AddedEvents(fd, kind, cb, fiber, scheduler);
    RunOnce(Initial(), calls[0].0, false);
    assert [calls[0]] == calls;
    ReadyKeeps(st, fd, {}, true, false);
    match kind case READ => assert WRITE in {READ, WRITE}; case WRITE => assert READ in {READ, WRITE};
  }

  lemma AddedEvents(fd: nat, kind: Kind, cb: Option<nat>, fiber: nat, scheduler: nat)
    ensures var r := Add(Initial(), fd, kind, cb, fiber, Some(scheduler), false);
      r.Returned? && fd < |r.st.contexts| && |r.st.contexts| >= 2 && r.st.contexts[fd].events == {kind}
  {
    assert Grown(Initial().contexts, fd)[fd] == IDLE;
  }

  lemma RunOnce(st: State, call: Call, fails: bool)
    requires Valid(st) && Legal(st, call) && Do(st, call, fails).Returned?
    ensures Run(st, [(call, fails)]) == Do(st, call, fails).st
  {
    hide Valid, Legal, Do;
    DoKeeps(st, call, fails);
    assert [(call, fails)][1..] == [];
  }

  lemma {:induction false} TasksCount(q: seq<(nat, Task)>)
    ensures |Tasks(q)| == |q|
  {
    if q != [] {
      TasksCount(q[..|q| - 1]);
    }
  }
}
