/** IOManager's event registration as objects: one FdContext per descriptor, updated in
    place.  Each method is atomic (it runs under the context's lock); whether epoll_ctl
    fails is a parameter.  `view` is the state of IoSpec the methods are proved against. */
module IoManager {
  import opened Options
  import opened IoSpec

  /** A failed AZURE_ASSERT stops the process; nothing is said about the state it leaves. */
  datatype Status = Aborted | Done(ok: bool)

  class FdContext {
    const fd: nat
    var read: EventContext
    var write: EventContext
    var events: set<Kind>

    constructor (fd: nat)
      ensures this.fd == fd && Value() == IDLE
    {
      this.fd, read, write, events := fd, EMPTY, EMPTY, {};
    }

    ghost function Value(): IoSpec.FdContext
      reads this
    {
      IoSpec.FdContext(read, write, events)
    }

    method GetContext(k: Kind) returns (c: EventContext)
      ensures c == Value().Get(k)
    {
      match k
      case READ => c := read;
      case WRITE => c := write;
    }

    method SetContext(k: Kind, c: EventContext)
      modifies this`read, this`write
      ensures Value() == old(Value()).Put(k, c)
    {
      match k
      case READ => read := c;
      case WRITE => write := c;
    }

    /** Sets the bit and, when the context is clean and there is a scheduler, what waits. */
    method Register(k: Kind, c: EventContext) returns (ok: bool)
      modifies this
      ensures ok <==> old(Value()).Get(k) == EMPTY && c.scheduler.Some?
      ensures ok ==> Value() == old(Value()).With(k, c)
    {
      events := events + {k};
      var was := GetContext(k);
      if was != EMPTY || c.scheduler.None? {
        return false;
      }
      SetContext(k, c);
      ok := true;
    }

    /** Hands the task to its scheduler: the queue entry swaps the callback, or the fiber, out
        of the context. */
    method TriggerEvent(k: Kind) returns (given: Option<(nat, Task)>)
      modifies this
      ensures given.Some? <==> k in old(events) && old(Value()).Get(k).scheduler.Some?
      ensures given.Some? ==>
        var c := old(Value()).Get(k);
        && given.value == (c.scheduler.value, TaskOf(c))
        && Value() == old(Value()).(events := old(events) - {k})
                        .Put(k, EventContext(None, if c.cb.Some? then c.fiber else None, None))
    {
      if k !in events {
        return None;
      }
      events := events - {k};
      var c := GetContext(k);
      if c.scheduler.None? {
        return None;
      }
      given := Some((c.scheduler.value, TaskOf(c)));
      SetContext(k, EventContext(None, if c.cb.Some? then c.fiber else None, None));
    }
  }

  class IOManager {
    var fdContexts: seq<FdContext>
    var pendingEventCount: int
    var epoll: map<nat, set<Kind>>
    var queue: seq<(nat, Task)>
    ghost var view: State

    ghost predicate Shows(st: State)
      reads this`fdContexts, this`pendingEventCount, this`epoll, this`queue, fdContexts
    {
      && |fdContexts| == |st.contexts|
      && (forall i :: 0 <= i < |fdContexts| ==> fdContexts[i].fd == i && fdContexts[i].Value() == st.contexts[i])
      && epoll == st.epoll && pendingEventCount == st.pending && queue == st.queue
    }

    ghost predicate Valid()
      reads this, fdContexts
    {
      Shows(view) && IoSpec.Valid(view)
    }

    /** What a call that returned has done. */
    ghost predicate Did(r: Result, status: Status)
      reads this, fdContexts
    {
      match r
      case Stopped => status == Aborted
      case Returned(ok, st) => status == Done(ok) && view == st && Valid()
    }

    constructor ()
      ensures Valid() && view == Initial()
    {
      fdContexts, pendingEventCount, epoll, queue, view := [], 0, map[], [], Initial();
      new;
      hide WaitingAll, Waiting, Tasks;
      InitialValid();
      Resize(32);
    }

    /** contextResize: new contexts at the end. */
    method Resize(n: nat)
      requires |fdContexts| <= n
      requires forall i :: 0 <= i < |fdContexts| ==> fdContexts[i].fd == i
      modifies this`fdContexts
      ensures |fdContexts| == n && old(fdContexts) <= fdContexts
      ensures forall i :: 0 <= i < n ==> fdContexts[i].fd == i
      ensures forall i :: |old(fdContexts)| <= i < n ==> fresh(fdContexts[i]) && fdContexts[i].Value() == IDLE
    {
      while |fdContexts| < n
        invariant |fdContexts| <= n && old(fdContexts) <= fdContexts
        invariant forall i :: 0 <= i < |fdContexts| ==> fdContexts[i].fd == i
        invariant forall i :: |old(fdContexts)| <= i < |fdContexts| ==> fresh(fdContexts[i]) && fdContexts[i].Value() == IDLE
      {
        var ctx := new FdContext(|fdContexts|);
        fdContexts := fdContexts + [ctx];
      }
    }

    method EpollControl(op: Op, fd: nat, mask: set<Kind>, fails: bool) returns (ok: bool)
      modifies this`epoll
      ensures (ok, epoll) == EpollCtl(old(epoll), op, fd, mask, fails)
    {
      if fails || (op == ADD <==> fd in epoll) {
        return false;
      }
      epoll := if op == DEL then epoll - {fd} else epoll[fd := mask];
      ok := true;
    }

    /** The size check of addEvent, and the growth when it fails, in one step. */
    method Reserve(fd: nat)
      requires Valid()
      modifies this`fdContexts, this`view
      ensures Valid() && view == old(view).(contexts := Grown(old(view.contexts), fd))
      ensures old(fdContexts) <= fdContexts
      ensures forall i :: |old(fdContexts)| <= i < |fdContexts| ==> fresh(fdContexts[i])
    {
      hide WaitingAll, Waiting, Tasks;
      GrownKeeps(view, fd);
      if |fdContexts| <= fd {
        Resize(fd + fd / 2);
      }
      view := view.(contexts := Grown(view.contexts, fd));
      assert forall i :: 0 <= i < |old(fdContexts)| ==> fdContexts[i] == old(fdContexts)[i];
    }

    /** Growing the table first makes no difference. */
    lemma ReservedAdd(st: State, fd: nat, kind: Kind, cb: Option<nat>, fiber: nat, scheduler: Option<nat>, fails: bool)
      requires IoSpec.Valid(st)
      ensures var st' := st.(contexts := Grown(st.contexts, fd));
        |st'.contexts| >= 2 && Add(st', fd, kind, cb, fiber, scheduler, fails) == Add(st, fd, kind, cb, fiber, scheduler, fails)
    {
      hide WaitingAll, Waiting, Tasks, Agrees;
    }

    method AddEvent(fd: nat, kind: Kind, cb: Option<nat>, fiber: nat, scheduler: Option<nat>, fails: bool)
      returns (status: Status)
      requires Valid()
      modifies this, fdContexts
      ensures Did(Add(old(view), fd, kind, cb, fiber, scheduler, fails), status)
    {
      ReservedAdd(view, fd, kind, cb, fiber, scheduler, fails);
      Reserve(fd);
      hide WaitingAll, Waiting, Tasks, Add;
      status := AddReserved(fd, kind, cb, fiber, scheduler, fails);
    }

    method AddReserved(fd: nat, kind: Kind, cb: Option<nat>, fiber: nat, scheduler: Option<nat>, fails: bool)
      returns (status: Status)
      requires Valid() && fd < |view.contexts|
      modifies this`epoll, this`pendingEventCount, this`view, fdContexts[fd]
      ensures Did(Add(old(view), fd, kind, cb, fiber, scheduler, fails), status)
    {
      hide WaitingAll, Waiting, Tasks, TaskOf;
      AddValid(view, fd, kind, cb, fiber, scheduler, fails);
      ghost var r := Add(view, fd, kind, cb, fiber, scheduler, fails);
      var ctx := fdContexts[fd];
      if kind in ctx.events {
        return Aborted;
      }
      var op := if ctx.events != {} then MOD else ADD;
      var ok := EpollControl(op, fd, ctx.events + {kind}, fails);
      AddInPlace(view, fd, kind, cb, fiber, scheduler, fails, op, ok, epoll);
      assert !ok ==> epoll == view.epoll;
      hide IoSpec.Valid, Add, EpollCtl;
      if !ok {
        return Done(false);
      }
      status := Accept(fd, kind, EventContext(scheduler, if cb.Some? then None else Some(fiber), cb), r);
    }

    /** The rest of addEvent, once epoll_ctl has accepted. */
    method Accept(fd: nat, kind: Kind, c: EventContext, ghost r: Result) returns (status: Status)
      requires fd < |view.contexts| && Shows(view.(epoll := epoll)) && view.contexts[fd].Get(kind) == EMPTY
      requires r == if c.scheduler.None? then Stopped
                    else Returned(true, view.(contexts := view.contexts[fd := view.contexts[fd].With(kind, c)],
                                              epoll := epoll, pending := view.pending + 1,
                                              added := view.added + multiset{TaskOf(c)}))
      requires r.Returned? ==> IoSpec.Valid(r.st)
      modifies this`pendingEventCount, this`view, fdContexts[fd]
      ensures Did(r, status)
    {
      hide IoSpec.Valid, TaskOf;
      var ok := Enter(fd, kind, c, view.(epoll := epoll));
      if !ok {
        return Aborted;
      }
      view := r.st;
      status := Done(true);
    }

    /** The counter, the bit and its context. */
    method Enter(fd: nat, kind: Kind, c: EventContext, ghost st: State) returns (ok: bool)
      requires fd < |fdContexts| && Shows(st)
      modifies this`pendingEventCount, fdContexts[fd]
      ensures ok <==> st.contexts[fd].Get(kind) == EMPTY && c.scheduler.Some?
      ensures ok ==> Shows(st.(contexts := st.contexts[fd := st.contexts[fd].With(kind, c)], pending := st.pending + 1))
    {
      pendingEventCount := pendingEventCount + 1;
      ok := fdContexts[fd].Register(kind, c);
    }

    method DelEvent(fd: nat, kind: Kind, fails: bool) returns (status: Status)
      requires Valid()
      modifies this, fdContexts
      ensures Did(Del(old(view), fd, kind, fails), status)
    {
      hide WaitingAll, Waiting, Tasks, IoSpec.Valid;
      DelKeeps(view, fd, kind, fails);
      if |fdContexts| <= fd {
        return Done(false);
      }
      var ctx := fdContexts[fd];
      if kind !in ctx.events {
        return Done(false);
      }
      var left := ctx.events - {kind};
      var ok := EpollControl(if left != {} then MOD else DEL, fd, left, fails);
      if !ok {
        return Done(false);
      }
      pendingEventCount := pendingEventCount - 1;
      ctx.events := left;
      ctx.SetContext(kind, EMPTY);
      view := Del(view, fd, kind, fails).st;
      status := Done(true);
    }

    method CancelEvent(fd: nat, kind: Kind, fails: bool) returns (status: Status)
      requires Valid()
      modifies this, fdContexts
      ensures Did(Cancel(old(view), fd, kind, fails), status)
    {
      hide WaitingAll, Waiting, Tasks, IoSpec.Valid;
      CancelKeeps(view, fd, kind, fails);
      if |fdContexts| <= fd {
        return Done(false);
      }
      var ctx := fdContexts[fd];
      if kind !in ctx.events {
        return Done(false);
      }
      var left := ctx.events - {kind};
      var ok := EpollControl(if left != {} then MOD else DEL, fd, left, fails);
      if !ok {
        return Done(false);
      }
      ghost var st := view.(epoll := epoll);
      status := TriggerOne(fd, kind, st);
      view := Cancel(view, fd, kind, fails).st;
    }

    /** triggerEvent on a context, and the decrement that goes with it. */
    method TriggerOne(fd: nat, kind: Kind, ghost st: State) returns (status: Status)
      requires fd < |fdContexts| && Shows(st)
      modifies this`pendingEventCount, this`queue, fdContexts[fd]
      ensures match Trigger(st, fd, kind)
              case Stopped => status == Aborted
              case Returned(_, st') => status == Done(true) && Shows(st')
    {
      var given := fdContexts[fd].TriggerEvent(kind);
      if given.None? {
        return Aborted;
      }
      queue := queue + [given.value];
      pendingEventCount := pendingEventCount - 1;
      status := Done(true);
    }

    /** The pair of triggers at the end of cancelAll and of idle. */
    method TriggerKinds(fd: nat, kinds: set<Kind>, ghost st: State) returns (status: Status)
      requires fd < |fdContexts| && Shows(st)
      modifies this`pendingEventCount, this`queue, fdContexts[fd]
      ensures match TriggerEach(st, fd, kinds)
              case Stopped => status == Aborted
              case Returned(_, st') => status == Done(true) && Shows(st')
    {
      hide Trigger;
      ghost var st := st;
      if READ in kinds {
        status := TriggerOne(fd, READ, st);
        if status == Aborted {
          return;
        }
        st := Trigger(st, fd, READ).st;
      }
      status := Done(true);
      if WRITE in kinds {
        status := TriggerOne(fd, WRITE, st);
      }
    }

    method CancelAllEvents(fd: nat, fails: bool) returns (status: Status)
      requires Valid()
      modifies this, fdContexts
      ensures Did(CancelAllOf(old(view), fd, fails), status)
    {
      hide WaitingAll, Waiting, Tasks, IoSpec.Valid, TriggerEach;
      CancelAllKeeps(view, fd, fails);
      if |fdContexts| <= fd {
        return Done(false);
      }
      var ctx := fdContexts[fd];
      if ctx.events == {} {
        return Done(false);
      }
      var ok := EpollControl(DEL, fd, {}, fails);
      if !ok {
        return Done(false);
      }
      status := TriggerKinds(fd, ctx.events, view.(epoll := epoll));
      view := CancelAllOf(view, fd, fails).st;
    }

    /** The handling of one ready event in idle. */
    method OnReady(fd: nat, ready: set<Kind>, error: bool, fails: bool) returns (status: Status)
      requires Valid() && fd < |view.contexts|
      modifies this, fdContexts
      ensures Did(HandleReady(old(view), fd, ready, error, fails), status)
    {
      hide WaitingAll, Waiting, Tasks, IoSpec.Valid, TriggerEach;
      ReadyKeeps(view, fd, ready, error, fails);
      var ctx := fdContexts[fd];
      var woken := if error then {READ, WRITE} else ready;
      if ctx.events * woken == {} {
        return Done(true);
      }
      var left := ctx.events - woken;
      var ok := EpollControl(if left != {} then MOD else DEL, fd, left, fails);
      if !ok {
        return Done(false);
      }
      status := TriggerKinds(fd, woken, view.(epoll := epoll));
      if status == Aborted {
        return;
      }
      view := HandleReady(view, fd, ready, error, fails).st;
    }
  }
}
