/** Whole runs of an event base against the specification of its steps. */
module EventRuns {
  import opened Basics
  import opened EventLists
  import opened EventBases
  import opened EventSpec
  import EventLoop

  /** A step of a run: what users, the loop and its timers do. */
  datatype Op =
    | Assign(x: Id, priority: nat, isPlain: bool, onFd: bool, persists: bool)
    | InitCommon(duration: int, timer: Id)
    | Add(x: Id, tv: Option<Tv>, now: int, mapOk: bool)
    | Del(x: Id)
    | RemoveTimer(x: Id)
    | Active(x: Id, timedOut: bool)
    | Later(x: Id, timedOut: bool)
    | NewRound
    | Defer(x: Id)
    | MakeLater
    | Expire(now: int)
    | Process(queue: nat, now: int, mapOk: bool)
    | TimerCallback(now: int)

  /** The callback is the user's, and known. */
  predicate Usable(v: View, x: Id) {
    x in v.pri && x !in v.timers && v.pri[x] < |v.queues|
  }

  predicate Unknown(v: View, x: Id) {
    x !in v.pri && x !in v.inserted && x !in v.common && x !in v.plain && x !in v.io && x !in v.persist
  }

  predicate Possible(v: View, op: Op) {
    match op
    case Assign(x, p, _, _, _) => Unknown(v, x) && p < |v.queues|
    case InitCommon(_, t) => Unknown(v, t)
    case Add(x, tv, _, _) =>
      Usable(v, x) && x !in v.plain && (tv.Some? && tv.value.common.Some? ==> tv.value.common.value < |v.lists|)
    case Del(x) => Usable(v, x)
    case RemoveTimer(x) => Usable(v, x)
    case Active(x, _) => Usable(v, x)
    case Later(x, _) => Usable(v, x)
    case NewRound => true
    case Defer(x) => Usable(v, x)
    case MakeLater => true
    case Expire(_) => true
    case Process(p, _, _) => p < |v.queues| && v.queues[p] != [] && v.running.None?
    case TimerCallback(_) => v.running.Some? && v.running.value < |v.lists| && v.running.value < |v.timers|
  }

  /** One step from `v` to `w`. */
  ghost predicate Effect(op: Op, v: View, w: View)
    requires Possible(v, op)
  {
    match op
    case Assign(x, p, isPlain, onFd, persists) => w == Registered(v, x, p, isPlain, onFd, persists)
    case InitCommon(d, t) => w == WithCommon(v, d, t)
    case Add(x, tv, now, mapOk) => Added(v, w, x, tv, false, now, mapOk)
    case Del(x) => w == Deleted(v, x)
    case RemoveTimer(x) => w == TimerRemoved(v, x)
    case Active(x, timedOut) => w == Activated(v, x).(byTimeout := ResultSet(v, x, timedOut))
    case Later(x, timedOut) => w == Postponed(v, x).(byTimeout := ResultSet(v, x, timedOut))
    case NewRound => w == RoundBegun(v)
    case Defer(x) => w == Deferred(v, x)
    case MakeLater => AllPromoted(v, w)
    case Expire(now) => Expired(v, w, now)
    case Process(p, now, mapOk) => Processed(v, w, p, now, mapOk)
    case TimerCallback(now) => ListExpired(v, w, v.running.value, now)
  }

  ghost predicate Ok(base: EventBase)
    reads base, base.heap
  {
    base.Valid() && EventLoop.IntervalsOk(base.interval, base.common, base.persist, |base.lists|)
  }

  /** A run: the states passed through. */
  ghost predicate Explains(ops: seq<Op>, states: seq<View>) {
    && |states| == |ops| + 1
    && forall i :: 0 <= i < |ops| ==> Possible(states[i], ops[i]) && Effect(ops[i], states[i], states[i + 1])
  }

  method Perform(base: EventBase, op: Op)
    requires Possible(base.AsView(), op) && Ok(base)
    modifies base, base.heap
    ensures Effect(op, old(base.AsView()), base.AsView()) && Ok(base)
  {
    hide Ok, Registered, WithCommon, Added, Deleted, TimerRemoved, Activated, Postponed, Deferred, ResultSet, RoundBegun, AllPromoted, Expired, Processed, ListExpired;
    match op
    case Assign(x, p, isPlain, onFd, persists) => Register(base, x, p, isPlain, onFd, persists);
    case InitCommon(d, t) => AddCommon(base, d, t);
    case Add(x, tv, now, mapOk) => AddEvent(base, x, tv, now, mapOk);
    case Del(x) => Delete(base, x);
    case RemoveTimer(x) => DropTimer(base, x);
    case Active(x, timedOut) => Activate(base, x, timedOut);
    case Later(x, timedOut) => ActivateLater(base, x, timedOut);
    case NewRound => BeginRound(base);
    case Defer(x) => Defer(base, x);
    case MakeLater => PromoteAll(base);
    case Expire(now) => Expire(base, now);
    case Process(p, now, mapOk) => ProcessOne(base, p, now, mapOk);
    case TimerCallback(now) => RunTimer(base, now);
  }

  lemma {:induction false} MorePersist(interval: map<Id, Tv>, common: map<Id, nat>, persist: set<Id>, more: set<Id>, n: nat, m: nat)
    requires EventLoop.IntervalsOk(interval, common, persist, n) && persist <= more && n <= m
    ensures EventLoop.IntervalsOk(interval, common, more, m)
  {
  }

  /** event_assign */
  method Register(base: EventBase, x: Id, p: nat, isPlain: bool, onFd: bool, persists: bool)
    requires base.Unknown(x) && p < |base.queues| && Ok(base)
    modifies base
    ensures base.AsView() == Registered(old(base.AsView()), x, p, isPlain, onFd, persists) && Ok(base)
  {
    hide EventBase.Valid, EventLoop.IntervalsOk;
    base.Assign(x, p, isPlain, onFd, persists);
    MorePersist(base.interval, base.common, old(base.persist), base.persist, |old(base.lists)|, |base.lists|);
  }

  /** event_base_init_common_timeout */
  method AddCommon(base: EventBase, d: int, t: Id)
    requires base.Unknown(t) && Ok(base)
    modifies base
    ensures base.AsView() == WithCommon(old(base.AsView()), d, t) && Ok(base)
  {
    hide EventBase.Valid, EventLoop.IntervalsOk;
    var _ := base.InitCommon(d, t);
    MorePersist(base.interval, base.common, old(base.persist), base.persist, |old(base.lists)|, |base.lists|);
  }

  /** event_add by a user */
  method AddEvent(base: EventBase, x: Id, tv: Option<Tv>, now: int, mapOk: bool)
    requires Possible(base.AsView(), Add(x, tv, now, mapOk)) && Ok(base)
    modifies base, base.heap
    ensures Added(old(base.AsView()), base.AsView(), x, tv, false, now, mapOk) && Ok(base)
  {
    hide At, Added, EventLoop.IntervalsOk, EventBase.Valid;
    var _ := EventLoop.AddShown(base, x, tv, false, now, mapOk);
    EventLoop.IntervalsAdded(old(base.AsView()), base.AsView(), x, tv, false, now, mapOk);
  }

  /** event_del */
  method Delete(base: EventBase, x: Id)
    requires x !in base.timers && Ok(base)
    modifies base, base.heap
    ensures base.AsView() == Deleted(old(base.AsView()), x) && Ok(base)
  {
    hide At, Outside, EventBase.Valid, EventLoop.IntervalsOk;
    base.DelEvent(x);
    assert base.lists == Each(old(base.lists), {x});
    assert base.queues == Each(old(base.queues), {x});
  }

  /** event_remove_timer */
  method DropTimer(base: EventBase, x: Id)
    requires x !in base.timers && Ok(base)
    modifies base, base.heap
    ensures base.AsView() == TimerRemoved(old(base.AsView()), x) && Ok(base)
  {
    hide At, Outside, EventBase.Valid;
    base.RemoveTimer(x);
    assert base.lists == Each(old(base.lists), {x});
  }

  /** event_active */
  method Activate(base: EventBase, x: Id, timedOut: bool)
    requires Usable(base.AsView(), x) && Ok(base)
    modifies base
    ensures base.AsView() == Activated(old(base.AsView()), x).(byTimeout := ResultSet(old(base.AsView()), x, timedOut)) && Ok(base)
  {
    hide Outside, EventBase.Valid, EventLoop.IntervalsOk;
    EventLoop.Activate(base, x, timedOut);
    ghost var before := old(base.byTimeout);
    assert base.byTimeout == (base.byTimeout - {x}) + if x in base.byTimeout then {x} else {};
    assert before == (before - {x}) + if x in before then {x} else {};
  }

  /** event_active_later_ */
  method ActivateLater(base: EventBase, x: Id, timedOut: bool)
    requires Usable(base.AsView(), x) && Ok(base)
    modifies base
    ensures base.AsView() == Postponed(old(base.AsView()), x).(byTimeout := ResultSet(old(base.AsView()), x, timedOut)) && Ok(base)
  {
    hide Outside, EventBase.Valid, EventLoop.IntervalsOk;
    EventLoop.ActivateLater(base, x, timedOut);
  }

  /** The start of a round of event_base_loop: the quota of deferred callbacks is there again. */
  method BeginRound(base: EventBase)
    requires Ok(base)
    modifies base`deferreds
    ensures base.AsView() == RoundBegun(old(base.AsView())) && Ok(base)
  {
    hide EventBase.Valid, EventLoop.IntervalsOk;
    base.ResetDeferreds();
  }

  /** event_deferred_cb_schedule_ */
  method Defer(base: EventBase, x: Id)
    requires Usable(base.AsView(), x) && Ok(base)
    modifies base
    ensures base.AsView() == Deferred(old(base.AsView()), x) && Ok(base)
  {
    hide Outside, EventBase.Valid, EventLoop.IntervalsOk;
    var _ := EventLoop.ScheduleDeferred(base, x);
  }

  /** event_queue_make_later_events_active */
  method PromoteAll(base: EventBase)
    requires Ok(base)
    modifies base
    ensures AllPromoted(old(base.AsView()), base.AsView()) && Ok(base)
  {
    hide Promoted, Plains, EventBase.Valid, EventLoop.IntervalsOk;
    EventLoop.MakeLaterActive(base);
  }

  /** timeout_process */
  method Expire(base: EventBase, now: int)
    requires Ok(base)
    modifies base, base.heap
    ensures Expired(old(base.AsView()), base.AsView(), now) && Ok(base)
  {
    hide At, NoDup, Sorted, Outside, QueuesAfter, Set, EventBase.Valid, EventLoop.IntervalsOk;
    HeapIs(base);
    ghost var fired := base.TimeoutProcess(now);
    assert TimedOut(old(base.AsView()), base.AsView(), fired);
  }

  lemma {:induction false} HeapIs(base: EventBase)
    requires base.Valid()
    ensures forall x :: x in base.heap.content <==> x in base.timeouts && x !in base.common
  {
    hide QueuesOk, LaterOk, External, SumLen, TimedBut, Assigned, Apart, NoDup, Sorted, At;
  }

  /** One round of event_process_active_single_queue up to the user's callback. */
  method ProcessOne(base: EventBase, p: nat, now: int, mapOk: bool)
    requires p < |base.queues| && base.queues[p] != [] && base.running.None? && Ok(base)
    modifies base, base.heap
    ensures Processed(old(base.AsView()), base.AsView(), p, now, mapOk) && Ok(base)
  {
    hide EventBase.Core, EventBase.Timed, EventLoop.IntervalsOk, At, Assigned, Apart, Outside, Added, Persisted;
    ghost var start := base.AsView();
    var x := EventLoop.Take(base, p);
    ghost var m := base.AsView();
    assert m.lists == if x in base.plain + base.persist then start.lists else Each(start.lists, {x});
    assert Taken(start, m, p);
    if x in base.persist && x !in base.plain {
      EventLoop.TimersPlain(base, x);
      var _ := EventLoop.PersistClosure(base, x, now, mapOk);
    }
  }

  /** The callback of a common timeout's timer. */
  method RunTimer(base: EventBase, now: int)
    requires Possible(base.AsView(), TimerCallback(now)) && Ok(base)
    modifies base, base.heap
    ensures ListExpired(old(base.AsView()), base.AsView(), old(base.running).value, now) && Ok(base)
  {
    hide At, Outside, Set, QueuesAfterBut, EventBase.Valid, EventLoop.IntervalsOk;
    ghost var fired := EventLoop.CommonTimeout(base, base.running.value, now);
  }

  method New(priorities: nat) returns (base: EventBase)
    requires priorities > 0
    ensures Ok(base) && fresh(base) && fresh(base.heap) && base.AsView() == NewView(priorities)
  {
    hide EventBase.Valid, EventBase.Core;
    base := new EventBase(priorities);
  }

  /** Every run from a new base is a run of the specification, up to its first impossible step. On the way
      every list holds exactly the callbacks that carry its flag, each once and in its own priority's
      queue; no callback is active and active-later; the two counters match; common-timeout lists are
      sorted; and every one of them with events has its timer running, active, or in the heap no later
      than its first event. */
  method Run(priorities: nat, ops: seq<Op>) returns (base: EventBase, done: nat, ghost states: seq<View>)
    requires priorities > 0
    ensures Ok(base) && done <= |ops| && (done < |ops| ==> !Possible(base.AsView(), ops[done]))
    ensures Explains(ops[..done], states) && states[0] == NewView(priorities) && states[done] == base.AsView()
  {
    hide Ok, Possible, Effect, EventBase.AsView, NewView;
    base := New(priorities);
    done, states := 0, [base.AsView()];
    while done < |ops| && Possible(base.AsView(), ops[done])
      invariant done <= |ops| && Ok(base) && fresh(base) && fresh(base.heap)
      invariant Explains(ops[..done], states) && states[0] == NewView(priorities) && states[done] == base.AsView()
    {
      Perform(base, ops[done]);
      OneMore(ops, states, done, base.AsView());
      states := states + [base.AsView()];
      done := done + 1;
    }
  }

  lemma {:induction false} OneMore(ops: seq<Op>, states: seq<View>, done: nat, w: View)
    requires done < |ops| && Explains(ops[..done], states) && Possible(states[done], ops[done]) && Effect(ops[done], states[done], w)
    ensures Explains(ops[..done + 1], states + [w])
  {
    hide Effect, Possible;
    forall i | 0 <= i < done + 1
      ensures Possible((states + [w])[i], ops[..done + 1][i]) && Effect(ops[..done + 1][i], (states + [w])[i], (states + [w])[i + 1])
    {
      if i < done {
        assert Effect(ops[..done][i], states[i], states[i + 1]);
      }
    }
  }
}
