/** event.c: the parts of the event loop. Waiting, expiring common timeouts, running callbacks. */
module EventLoop {
  import opened Basics
  import opened EventLists
  import opened EventBases
  import opened EventSpec

  function Max(a: int, b: int): int {
    if a > b then a else b
  }

  /** With nothing active, every timeout is announced in the heap. */
  lemma {:induction false} Announced(base: EventBase, x: Id)
    requires base.Valid() && base.countActive == 0 && base.running.None? && x in base.timeouts
    ensures exists y :: y in base.heap.content && At(base.deadline, y) <= At(base.deadline, x)
  {
    hide QueuesOk, LaterOk, External, Assigned, Apart, NoDup, At;
    NothingActive(base.queues, base.active, base.pri);
    HeapTimes(base.heap.content, base.lists, base.timeouts, base.common, base.deadline);
    if x in base.common {
      var c := base.common[x];
      var l := base.lists[c];
      FirstIsLeast(l, base.deadline, x);
      assert Covered(base.timers[c], l[0], base.active, base.heap.content, base.deadline);
      assert base.timers[c] in base.heap.content;
    }
  }

  lemma {:induction false} NothingActive(queues: seq<seq<Id>>, active: set<Id>, pri: map<Id, nat>)
    requires QueuesOk(queues, active, pri) && SumLen(queues) == 0
    ensures active == {}
  {
    if x :| x in active {
      SumLenZero(queues, pri[x]);
      assert false;
    }
  }

  /** timeout_next: how long to wait. When nothing is active, which is when the loop asks, the wait never
      goes past a pending deadline, and it is without end only if nothing is pending. */
  method TimeoutNext(base: EventBase, now: int) returns (wait: Option<nat>)
    requires base.Valid()
    ensures wait.Some? ==> exists x :: x in base.timeouts && wait.value == Max(0, At(base.deadline, x) - now)
    ensures base.countActive == 0 && base.running.None? ==>
              if wait.None? then base.timeouts == {}
              else forall x :: x in base.timeouts ==> now + wait.value <= Max(now, At(base.deadline, x))
  {
    hide At, EventBase.Core, EventBase.Timed, EventBase.TimersKnown;
    var top := base.Earliest();
    if top.None? {
      wait := None;
    } else if At(base.deadline, top.value) <= now {
      wait := Some(0);
    } else {
      wait := Some(At(base.deadline, top.value) - now);
    }
    InHeap(base);
    if base.countActive == 0 && base.running.None? {
      forall x | x in base.timeouts
        ensures wait.Some? && now + wait.value <= Max(now, At(base.deadline, x))
      {
        Announced(base, x);
      }
    }
  }

  lemma {:induction false} InHeap(base: EventBase)
    requires base.Core()
    ensures forall x :: x in base.heap.content ==> x in base.timeouts
  {
    hide QueuesOk, LaterOk, External, NoDup, Sorted, At;
  }

  lemma {:induction false} HeadAlone(base: EventBase, c: nat)
    requires base.Core() && c < |base.lists| && base.lists[c] != []
    ensures var x := base.lists[c][0];
            && x in base.timeouts && x in base.common && x !in base.heap.content
            && Outside(base.lists[c], {x}) == base.lists[c][1..]
            && forall d :: 0 <= d < |base.lists| && d != c ==> Outside(base.lists[d], {x}) == base.lists[d]
  {
    hide QueuesOk, LaterOk, External, Sorted, At, Outside;
    var x := base.lists[c][0];
    assert x in base.lists[c];
    OutsideOne(base.lists[c], x);
    ListsOthers(base.heap.content, base.lists, base.timeouts, base.common, base.deadline, x);
  }

  /** The first event of a common timeout expires. */
  method FireHead(base: EventBase, c: nat)
    requires c < |base.lists| && base.lists[c] != [] && base.Core() && base.TimersKnown() && base.Timed(Some(c))
    modifies base`timeouts, base`count, base`lists, base.heap, base`queues, base`active, base`countActive
    modifies base`laterQueue, base`later, base`inserted, base`byTimeout
    ensures var x := old(base.lists)[c][0];
            && x in base.pri && |base.queues| == |old(base.queues)| && base.lists == old(base.lists)[c := old(base.lists)[c][1..]]
            && base.timeouts == old(base.timeouts) - {x} && base.inserted == old(base.inserted) - {x}
            && base.heap.content == old(base.heap.content) - {x}
            && base.active == old(base.active) + {x} && base.later == old(base.later) - {x} && base.laterQueue == Outside(old(base.laterQueue), {x})
            && base.byTimeout == old(base.byTimeout) + {x}
            && forall p :: 0 <= p < |base.queues| ==>
                 base.queues[p] == Outside(old(base.queues)[p], {x}) + if p == base.pri[x] then [x] else []
    ensures base.Core() && base.TimersKnown() && base.Timed(Some(c))
  {
    hide Outside, Assigned, Apart, EventBase.Core, EventBase.Timed;
    HeadAlone(base, c);
    var x := base.lists[c][0];
    base.Fire(x, Some(c));
    assert base.lists == old(base.lists)[c := old(base.lists)[c][1..]];
  }

  /** The loop of common_timeout_callback: the events that are due are the front of the list, and they
      fire in order. */
  method FireList(base: EventBase, c: nat, now: int) returns (ghost fired: seq<Id>)
    requires c < |base.lists| && base.Core() && base.TimersKnown() && base.Timed(Some(c))
    modifies base`timeouts, base`count, base`lists, base.heap, base`queues, base`active, base`countActive
    modifies base`laterQueue, base`later, base`inserted, base`byTimeout
    ensures |base.lists| == |old(base.lists)| && base.lists == old(base.lists)[c := base.lists[c]]
    ensures old(base.lists)[c] == fired + base.lists[c] && (forall x :: x in fired ==> At(base.deadline, x) <= now)
    ensures base.lists[c] != [] ==> At(base.deadline, base.lists[c][0]) > now
    ensures After(old(base.Now()), base.Now(), fired, base.pri)
    ensures base.Core() && base.TimersKnown() && base.Timed(Some(c))
  {
    hide At, After, Outside, Assigned, Apart, NoDup, EventBase.Core, EventBase.Timed;
    fired := [];
    AfterNone(base.Now(), base.pri);
    ListNoDup(base, c);
    assert base.lists[c] == [] + base.lists[c];
    while base.lists[c] != [] && At(base.deadline, base.lists[c][0]) <= now
      invariant |base.lists| == |old(base.lists)| && base.lists == old(base.lists)[c := base.lists[c]]
      invariant old(base.lists)[c] == fired + base.lists[c] && (forall x :: x in fired ==> At(base.deadline, x) <= now)
      invariant After(old(base.Now()), base.Now(), fired, base.pri)
      invariant base.Core() && base.TimersKnown() && base.Timed(Some(c))
      decreases |base.lists[c]|
    {
      var x := base.lists[c][0];
      ghost var rest, mid := base.lists[c][1..], base.Now();
      Front(fired, base.lists[c]);
      FireHead(base, c);
      AfterStep(old(base.Now()), mid, base.Now(), fired, x, base.pri);
      fired := fired + [x];
    }
  }

  lemma {:induction false} Front(a: seq<Id>, b: seq<Id>)
    requires NoDup(a + b) && b != []
    ensures b[0] !in a && a + b == (a + [b[0]]) + b[1..]
  {
    assert (a + b)[|a|] == b[0];
    assert forall i :: 0 <= i < |a| ==> (a + b)[i] == a[i];
  }

  lemma {:induction false} ListNoDup(base: EventBase, c: nat)
    requires base.Core() && c < |base.lists|
    ensures NoDup(base.lists[c])
  {
    hide QueuesOk, LaterOk, External, Sorted, At, Outside;
  }

  /** The callback of a common timeout's timer begins. */
  method Begin(base: EventBase, c: nat)
    requires base.Valid() && base.running == Some(c)
    modifies base`running
    ensures base.running.None? && base.Core() && base.TimersKnown() && base.Timed(Some(c))
  {
    hide QueuesOk, LaterOk, TimeOk, External, SumLen, Assigned, Apart, Covered;
    base.running := None;
  }

  /** The end of common_timeout_callback: the timer is set again if events are left. */
  method SetAgain(base: EventBase, c: nat)
    requires c < |base.lists| && base.Core() && base.TimersKnown() && base.Timed(Some(c))
    modifies base`timeouts, base`count, base`lists, base.heap, base`queues, base`active, base`countActive, base`deadline, base`common
    ensures |base.timers| == |base.lists| && base.lists == old(base.lists) && base.common == old(base.common)
    ensures var t := {base.timers[c]}; base.timeouts - t == old(base.timeouts) - t && base.active - t == old(base.active) - t
    ensures forall x :: x !in base.timers ==> At(base.deadline, x) == At(old(base.deadline), x)
    ensures |base.queues| == |old(base.queues)|
    ensures forall p :: 0 <= p < |base.queues| ==> Outside(base.queues[p], {base.timers[c]}) == Outside(old(base.queues)[p], {base.timers[c]})
    ensures base.Valid()
  {
    hide At, Outside, Assigned, Apart, NoDup, EventBase.Core, EventBase.Timed;
    QueuesWithout(base.queues, base.timers[c], {base.timers[c]});
    if base.lists[c] != [] {
      OtherDeadlines(base.deadline, base.timers[c], At(base.deadline, base.lists[c][0]));
      assert base.timers[c] in base.timers;
      base.Schedule(c);
    } else {
      NothingLeft(base, c);
    }
  }

  /** common_timeout_callback: everything that is due in the list fires, nothing else, and the timer is
      set again if the list is not empty. */
  method CommonTimeout(base: EventBase, c: nat, now: int) returns (ghost fired: seq<Id>)
    requires base.running == Some(c) && c < |base.lists| && base.Valid()
    modifies base`timeouts, base`count, base`lists, base.heap, base`queues, base`active, base`countActive, base`deadline, base`common
    modifies base`laterQueue, base`later, base`inserted, base`byTimeout, base`running
    ensures base.running.None? && |base.lists| == |old(base.lists)| == |base.timers| && base.lists == old(base.lists)[c := base.lists[c]]
    ensures old(base.lists)[c] == fired + base.lists[c] && (forall x :: x in fired ==> At(old(base.deadline), x) <= now)
    ensures base.lists[c] != [] ==> At(old(base.deadline), base.lists[c][0]) > now
    ensures var t := {base.timers[c]};
            base.timeouts - t == old(base.timeouts) - Set(fired) - t && base.active - t == old(base.active) + Set(fired) - t
    ensures base.later == old(base.later) - Set(fired) && base.inserted == old(base.inserted) - Set(fired)
    ensures base.byTimeout == old(base.byTimeout) + Set(fired) && base.laterQueue == Outside(old(base.laterQueue), Set(fired))
    ensures QueuesAfterBut(old(base.queues), base.queues, fired, base.pri, base.timers[c])
    ensures forall x :: x !in base.timers ==> At(base.deadline, x) == At(old(base.deadline), x)
    ensures base.common == old(base.common) && base.Valid()
  {
    hide At, Of, Outside, Set, EventBase.Core, EventBase.Timed, EventBase.TimersKnown;
    Begin(base, c);
    fired := FireList(base, c, now);
    SetAgain(base, c);
  }

  lemma {:induction false} NothingLeft(base: EventBase, c: nat)
    requires c < |base.lists| && base.lists[c] == [] && base.Timed(Some(c))
    ensures base.Timed(None)
  {
    hide Covered;
  }

  lemma {:induction false} HasQueue(base: EventBase, x: Id)
    requires base.TimersKnown() && x in base.pri
    ensures base.pri[x] < |base.queues|
  {
    hide Apart;
    QueueOf(base.timers, base.pri, base.internal, base.plain + base.io + base.persist, |base.queues|, x);
  }

  /** event_active */
  method Activate(base: EventBase, x: Id, timedOut: bool)
    requires x in base.pri && x !in base.timers && base.Valid()
    modifies base`queues, base`active, base`count, base`countActive, base`laterQueue, base`later, base`byTimeout
    ensures base.active == old(base.active) + {x} && base.later == old(base.later) - {x} && base.laterQueue == Outside(old(base.laterQueue), {x})
    ensures base.pri[x] < |old(base.queues)|
    ensures base.queues == if x in old(base.active) then old(base.queues)
                           else old(base.queues)[base.pri[x] := old(base.queues)[base.pri[x]] + [x]]
    ensures x in base.byTimeout <==> timedOut || (x in old(base.byTimeout) && x in old(base.active) + old(base.later))
    ensures base.byTimeout - {x} == old(base.byTimeout) - {x}
    ensures base.Valid()
  {
    hide Outside, Assigned, Apart, TimedBut, EventBase.Core;
    HasQueue(base, x);
    base.ActivateEvent(x, timedOut);
    TimedActive(base.lists, base.timers, old(base.active), base.active, base.heap.content, base.deadline, base.running, None);
  }

  /** event_active_later_ */
  method ActivateLater(base: EventBase, x: Id, timedOut: bool)
    requires x in base.pri && x !in base.timers && base.Valid()
    modifies base`count, base`countActive, base`laterQueue, base`later, base`byTimeout
    ensures if x in base.active || x in old(base.later) then base.later == old(base.later) && base.laterQueue == old(base.laterQueue)
            else base.later == old(base.later) + {x} && base.laterQueue == old(base.laterQueue) + [x]
    ensures base.byTimeout == if timedOut then old(base.byTimeout) + {x}
                              else if x in base.active || x in old(base.later) then old(base.byTimeout) else old(base.byTimeout) - {x}
    ensures base.Valid()
  {
    hide Outside, Assigned, Apart, TimedBut, EventBase.Core;
    HasQueue(base, x);
    var isNew := base.ActivateLater(x);
    base.SetResult(x, timedOut, isNew);
  }

  /** event_deferred_cb_schedule_: a callback beyond the quota of this round waits for the next one. */
  method ScheduleDeferred(base: EventBase, x: Id) returns (r: bool)
    requires x in base.pri && x !in base.timers && base.Valid()
    modifies base`queues, base`active, base`count, base`countActive, base`laterQueue, base`later, base`deferreds
    ensures r <==> x !in old(base.active) && x !in old(base.later)
    ensures x in base.active + base.later && base.active - {x} == old(base.active) - {x} && base.later - {x} == old(base.later) - {x}
    ensures x in base.active <==> x in old(base.active) || old(base.deferreds) <= MAX_DEFERREDS_QUEUED
    ensures base.deferreds == old(base.deferreds) + if r && old(base.deferreds) <= MAX_DEFERREDS_QUEUED then 1 else 0
    ensures base.pri[x] < |old(base.queues)|
    ensures if old(base.deferreds) <= MAX_DEFERREDS_QUEUED then
              && base.active == old(base.active) + {x} && base.later == old(base.later) - {x} && base.laterQueue == Outside(old(base.laterQueue), {x})
              && base.queues == (if x in old(base.active) then old(base.queues)
                                 else old(base.queues)[base.pri[x] := old(base.queues)[base.pri[x]] + [x]])
            else
              && base.active == old(base.active) && base.queues == old(base.queues)
              && base.later == (if x in old(base.active) then old(base.later) else old(base.later) + {x})
              && base.laterQueue == if x in old(base.active) || x in old(base.later) then old(base.laterQueue) else old(base.laterQueue) + [x]
    ensures base.Valid()
  {
    hide Outside, Assigned, Apart, TimedBut, EventBase.Core;
    HasQueue(base, x);
    var quota := base.deferreds <= MAX_DEFERREDS_QUEUED;
    if quota {
      r := base.Activate(x);
    } else {
      r := base.ActivateLater(x);
    }
    TimedActive(base.lists, base.timers, old(base.active), base.active, base.heap.content, base.deadline, base.running, None);
    base.CountDeferred(if quota && r then 1 else 0);
  }

  /** event_queue_make_later_events_active: in order, behind what is queued already. */
  method MakeLaterActive(base: EventBase)
    requires base.Valid()
    modifies base`queues, base`active, base`laterQueue, base`later, base`deferreds
    ensures base.later == {} && base.laterQueue == [] && base.active == old(base.active) + old(base.later)
    ensures Promoted(old(base.queues), base.queues, old(base.laterQueue), base.pri)
    ensures base.deferreds == old(base.deferreds) + Plains(old(base.laterQueue), base.plain)
    ensures base.Valid()
  {
    hide Outside, Of, Promoted, EventBase.Core, EventBase.Timed, EventBase.TimersKnown;
    ghost var done := [];
    PromotedNone(base.queues, base.pri);
    LaterSet(base);
    while base.laterQueue != []
      invariant base.Valid() && old(base.laterQueue) == done + base.laterQueue
      invariant Promoted(old(base.queues), base.queues, done, base.pri)
      invariant base.active == old(base.active) + Set(done) && base.later == old(base.later) - Set(done)
      invariant base.deferreds == old(base.deferreds) + Plains(done, base.plain)
      decreases |base.laterQueue|
    {
      var x := base.laterQueue[0];
      ghost var mid := base.queues;
      Promote(base);
      PromotedStep(old(base.queues), mid, base.queues, done, x, base.pri);
      SetSnoc(done, x);
      assert (done + [x])[..|done|] == done;
      done := done + [x];
    }
    assert done == old(base.laterQueue);
  }

  /** The first callback of the later queue becomes active. */
  method Promote(base: EventBase)
    requires base.laterQueue != [] && base.Valid()
    modifies base`queues, base`active, base`laterQueue, base`later, base`deferreds
    ensures var x := old(base.laterQueue)[0];
            && x in base.pri && base.pri[x] < |old(base.queues)|
            && base.queues == old(base.queues)[base.pri[x] := old(base.queues)[base.pri[x]] + [x]]
            && base.laterQueue == old(base.laterQueue)[1..] && base.later == old(base.later) - {x} && base.active == old(base.active) + {x}
            && base.deferreds == old(base.deferreds) + if x in base.plain then 1 else 0
    ensures base.Valid()
  {
    hide Outside, Assigned, Apart, TimedBut, EventBase.Core;
    var x := base.laterQueue[0];
    base.PromoteFirst();
    TimedActive(base.lists, base.timers, old(base.active), base.active, base.heap.content, base.deadline, base.running, None);
    base.CountDeferred(if x in base.plain then 1 else 0);
  }

  lemma {:induction false} LaterSet(base: EventBase)
    requires base.Core()
    ensures Set(base.laterQueue) == base.later
  {
    hide QueuesOk, TimeOk, External, SumLen;
  }

  lemma {:induction false} PromotedNone(queues: seq<seq<Id>>, pri: map<Id, nat>)
    ensures Promoted(queues, queues, [], pri)
  {
  }

  lemma {:induction false} PromotedStep(before: seq<seq<Id>>, mid: seq<seq<Id>>, after: seq<seq<Id>>, l: seq<Id>, x: Id, pri: map<Id, nat>)
    requires Promoted(before, mid, l, pri) && x in pri && pri[x] < |mid| && after == mid[pri[x] := mid[pri[x]] + [x]]
    ensures Promoted(before, after, l + [x], pri)
  {
    hide Of;
    forall p | 0 <= p < |before|
      ensures after[p] == before[p] + Of(l + [x], pri, p)
    {
      OfSnoc(l, x, pri, p);
      Assoc(before[p], Of(l, pri, p), if pri[x] == p then [x] else []);
    }
  }

  lemma {:induction false} QueueHead(base: EventBase, p: nat)
    requires base.Core() && p < |base.queues| && base.queues[p] != []
    ensures var x := base.queues[p][0];
            && x in base.active && x in base.pri && base.pri[x] == p && Outside(base.queues[p], {x}) == base.queues[p][1..]
            && forall d :: 0 <= d < |base.queues| && d != p ==> Outside(base.queues[d], {x}) == base.queues[d]
  {
    hide LaterOk, TimeOk, External, SumLen, Outside;
    var x := base.queues[p][0];
    assert x in base.queues[p];
    OutsideOne(base.queues[p], x);
    NotInOthers(base.queues, base.active, base.pri, x);
  }

  /** The timer of a common timeout is taken off its queue. */
  method TakeTimer(base: EventBase, c: nat)
    requires c < |base.timers| && base.running.None? && base.Valid()
    modifies base`timeouts, base`count, base`lists, base.heap, base`queues, base`active, base`countActive
    modifies base`laterQueue, base`later, base`inserted, base`running
    ensures base.running == Some(c) && base.lists == old(base.lists) && |base.queues| == |old(base.queues)|
    ensures var t := base.timers[c];
            && base.active == old(base.active) - {t} && base.timeouts == old(base.timeouts) - {t}
            && base.later == old(base.later) - {t} && base.inserted == old(base.inserted) - {t}
            && base.laterQueue == Outside(old(base.laterQueue), {t})
            && (forall c :: 0 <= c < |base.lists| ==> base.lists[c] == Outside(old(base.lists)[c], {t}))
            && forall p :: 0 <= p < |base.queues| ==> base.queues[p] == Outside(old(base.queues)[p], {t})
    ensures base.Valid()
  {
    hide QueuesOk, LaterOk, TimeOk, External, SumLen, TimedBut, Assigned, Apart, Outside, NoDup;
    var t := base.timers[c];
    TimerAlone(base, c);
    base.Del(t);
    assert base.lists == old(base.lists);
    TimedRun(base.lists, base.timers, old(base.active), old(base.heap.content), base.deadline, c);
    base.running := Some(c);
  }

  lemma {:induction false} TimerAlone(base: EventBase, c: nat)
    requires c < |base.timers| && base.Valid()
    ensures NoDup(base.timers) && forall d :: 0 <= d < |base.lists| ==> Outside(base.lists[d], {base.timers[c]}) == base.lists[d]
  {
    hide QueuesOk, LaterOk, TimeOk, External, SumLen, TimedBut, Outside, NoDup;
    assert base.timers[c] in base.timers;
    NotListed(base.heap.content, base.lists, base.timeouts, base.common, base.deadline, base.timers[c]);
  }

  /** The start of a round of event_process_active_single_queue: the first callback of a queue is taken
      off it. An event that is not persistent goes off every list. */
  method Take(base: EventBase, p: nat) returns (x: Id)
    requires p < |base.queues| && base.queues[p] != [] && base.running.None? && base.Valid()
    modifies base`timeouts, base`count, base`lists, base.heap, base`queues, base`active, base`countActive
    modifies base`laterQueue, base`later, base`inserted, base`running
    ensures x == old(base.queues)[p][0] && x in base.pri && base.queues == old(base.queues)[p := old(base.queues)[p][1..]]
    ensures base.active == old(base.active) - {x} && |base.lists| == |old(base.lists)|
    ensures if x in base.timers then base.running.Some? && base.running.value < |base.timers| && base.timers[base.running.value] == x
            else base.running.None?
    ensures if x in base.plain + base.persist
            then
              && base.timeouts == old(base.timeouts) && base.inserted == old(base.inserted) && base.later == old(base.later)
              && base.laterQueue == old(base.laterQueue) && base.lists == old(base.lists)
            else
              && base.timeouts == old(base.timeouts) - {x} && base.inserted == old(base.inserted) - {x} && base.later == old(base.later) - {x}
              && base.laterQueue == Outside(old(base.laterQueue), {x})
              && forall c :: 0 <= c < |base.lists| ==> base.lists[c] == Outside(old(base.lists)[c], {x})
    ensures base.Valid()
  {
    hide Outside, Assigned, Apart, TimedBut, EventBase.Core;
    QueueHead(base, p);
    x := base.queues[p][0];
    TimersPlain(base, x);
    if x in base.timers {
      var c :| 0 <= c < |base.timers| && base.timers[c] == x;
      TakeTimer(base, c);
    } else if x in base.plain || x in base.persist {
      base.RemoveActive(x);
      TimedActive(base.lists, base.timers, old(base.active), base.active, base.heap.content, base.deadline, base.running, None);
    } else {
      base.DelEvent(x);
    }
    assert base.queues == old(base.queues)[p := old(base.queues)[p][1..]];
  }

  lemma {:induction false} TimersPlain(base: EventBase, x: Id)
    requires base.TimersKnown()
    ensures x in base.timers ==> x !in base.plain + base.persist
  {
    hide Apart;
  }

  /** A persistent event remembers the common timeout its deadline belongs to. */
  ghost predicate IntervalsOk(interval: map<Id, Tv>, common: map<Id, nat>, persist: set<Id>, n: nat) {
    forall x :: x in interval ==>
      && x in persist && interval[x].common == (if x in common then Some(common[x]) else None)
      && (interval[x].common.Some? ==> interval[x].common.value < n)
  }

  lemma {:induction false} IntervalsAdded(v: View, w: View, x: Id, tv: Option<Tv>, absolute: bool, now: int, mapOk: bool)
    requires IntervalsOk(v.interval, v.common, v.persist, |v.lists|) && Added(v, w, x, tv, absolute, now, mapOk)
    requires tv.Some? && tv.value.common.Some? ==> tv.value.common.value < |v.lists|
    requires absolute && tv.Some? && x in v.interval ==> tv.value.common == v.interval[x].common
    ensures IntervalsOk(w.interval, w.common, w.persist, |w.lists|)
  {
    hide At, Outside, Set;
  }

  /** event_add_nolock_, in terms of the specification. */
  method AddShown(base: EventBase, x: Id, tv: Option<Tv>, absolute: bool, now: int, mapOk: bool) returns (ok: bool)
    requires (tv.Some? && tv.value.common.Some? ==> tv.value.common.value < |base.lists|) && x in base.pri && x !in base.timers && x !in base.plain && base.Valid()
    modifies base`timeouts, base`count, base`lists, base.heap, base`queues, base`active, base`countActive, base`deadline, base`common
    modifies base`inserted, base`interval
    ensures |base.lists| == |old(base.lists)| && ok == (mapOk || !NeedsMap(old(base.AsView()), x))
    ensures Added(old(base.AsView()), base.AsView(), x, tv, absolute, now, mapOk) && base.Valid()
  {
    hide At, Outside, Set, OnlyThis, EventBase.Valid;
    ok := base.Add(x, tv, absolute, now, mapOk);
  }

  /** The rescheduling part of event_persist_closure: from the last deadline if that is what fired and
      the next one is not in the past already, else from now. */
  method PersistClosure(base: EventBase, x: Id, now: int, mapOk: bool) returns (again: bool)
    requires x in base.persist && x in base.pri && x !in base.timers && x !in base.plain && base.Valid()
    requires IntervalsOk(base.interval, base.common, base.persist, |base.lists|)
    modifies base`timeouts, base`count, base`lists, base.heap, base`queues, base`active, base`countActive, base`deadline, base`common
    modifies base`inserted, base`interval
    ensures |base.lists| == |old(base.lists)|
    ensures again <==> x in old(base.interval) && (old(base.interval)[x].usec != 0 || old(base.interval)[x].common.Some?)
                       && (mapOk || x !in base.io || x in old(base.inserted) || x in old(base.active) || x in old(base.later))
    ensures again ==> x in base.timeouts
    ensures again ==> var usec := old(base.interval)[x].usec;
                      var onTime := old(At(base.deadline, x)) + usec;
                      At(base.deadline, x) == if x in base.byTimeout && onTime >= now then onTime else now + usec
    ensures again && old(base.interval)[x].usec >= 0 ==> At(base.deadline, x) >= now
    ensures Persisted(old(base.AsView()), base.AsView(), x, now, mapOk)
    ensures IntervalsOk(base.interval, base.common, base.persist, |base.lists|) && base.Valid()
  {
    hide At, Added, EventBase.Valid;
    again := false;
    if x in base.interval {
      var tv := base.interval[x];
      if tv.usec != 0 || tv.common.Some? {
        var relativeTo := if x in base.byTimeout then At(base.deadline, x) else now;
        var runAt := relativeTo + tv.usec;
        if runAt < now {
          runAt := now + tv.usec;
        }
        again := AddShown(base, x, Some(Tv(runAt, tv.common)), true, now, mapOk);
        IntervalsAdded(old(base.AsView()), base.AsView(), x, Some(Tv(runAt, tv.common)), true, now, mapOk);
        if again {
          AddedAt(old(base.AsView()), base.AsView(), x, Some(Tv(runAt, tv.common)), now, mapOk);
        }
      }
    }
  }

  lemma {:induction false} AddedAt(v: View, w: View, x: Id, tv: Option<Tv>, now: int, mapOk: bool)
    requires Added(v, w, x, tv, true, now, mapOk) && tv.Some? && (mapOk || !NeedsMap(v, x))
    ensures x in w.timeouts && At(w.deadline, x) == tv.value.usec
  {
    hide At, Outside, Set;
  }

  /** What one list fires is what it held, and was no timer. */
  lemma {:induction false} Members(base: EventBase, c: nat, x: Id)
    requires base.Valid() && c < |base.lists| && x in base.lists[c]
    ensures x in base.timeouts && x in base.common && base.common[x] == c && x !in base.timers
  {
    hide QueuesOk, LaterOk, External, SumLen, At, TimedBut, Assigned;
  }

  predicate DueIn(x: Id, c: nat, common: map<Id, nat>, deadline: map<Id, int>, now: int) {
    x in common && common[x] == c && At(deadline, x) <= now
  }

  lemma {:induction false} InList(base: EventBase, c: nat, x: Id)
    requires base.Core() && c < |base.lists|
    ensures x in base.lists[c] <==> x in base.timeouts && x in base.common && base.common[x] == c
  {
    hide QueuesOk, LaterOk, External, SumLen, At, NoDup, Sorted;
  }

  lemma {:induction false} NoEarlier(base: EventBase, c: nat, x: Id)
    requires base.Core() && c < |base.lists| && x in base.lists[c]
    ensures At(base.deadline, base.lists[c][0]) <= At(base.deadline, x)
  {
    hide QueuesOk, LaterOk, External, SumLen, At, NoDup;
    FirstIsLeast(base.lists[c], base.deadline, x);
  }

  lemma {:induction false} Split(list: seq<Id>, front: seq<Id>, rest: seq<Id>, x: Id)
    requires list == front + rest && NoDup(list) && x in list
    ensures x in front <==> x !in rest
  {
    forall i, j | 0 <= i < |front| && 0 <= j < |rest|
      ensures front[i] != rest[j]
    {
      assert list[i] == front[i] && list[|front| + j] == rest[j];
    }
  }

  /** The timer of a common timeout runs: exactly the due events of its list become active. */
  method ExpireList(base: EventBase, c: nat, now: int)
    requires c < |base.lists| && base.running.None? && base.Valid()
    modifies base`timeouts, base`count, base`lists, base.heap, base`queues, base`active, base`countActive, base`deadline, base`common
    modifies base`laterQueue, base`later, base`inserted, base`byTimeout, base`running
    ensures base.running.None? && |base.lists| == |old(base.lists)| == |base.timers| && base.common == old(base.common)
    ensures forall x :: x != base.timers[c] ==>
              && (x in base.timeouts <==> x in old(base.timeouts) && !DueIn(x, c, old(base.common), old(base.deadline), now))
              && (x in base.active <==> x in old(base.active) || (x in old(base.timeouts) && DueIn(x, c, old(base.common), old(base.deadline), now)))
    ensures forall x :: x !in base.timers ==> At(base.deadline, x) == At(old(base.deadline), x)
    ensures base.Valid()
  {
    hide At, NoDup, Outside, Set, Assigned, Apart, EventBase.Core, EventBase.Timed;
    ghost var list := base.lists[c];
    forall x
      ensures x in list <==> x in base.timeouts && x in base.common && base.common[x] == c
    {
      InList(base, c, x);
    }
    ListNoDup(base, c);
    TakeTimer(base, c);
    ghost var fired := CommonTimeout(base, c, now);
    FiredDue(base, c, list, fired, old(base.deadline), now);
    ghost var t := base.timers[c];
    forall x | x != t
      ensures x in base.timeouts <==> x in old(base.timeouts) && x !in fired
      ensures x in base.active <==> x in old(base.active) || x in fired
    {
      assert x in base.timeouts <==> x in base.timeouts - {t};
      assert x in base.active <==> x in base.active - {t};
    }
  }

  /** The events that fired are the due ones of the list. */
  lemma {:induction false} FiredDue(base: EventBase, c: nat, list: seq<Id>, fired: seq<Id>, deadline: map<Id, int>, now: int)
    requires base.Valid() && c < |base.lists| && NoDup(list) && list == fired + base.lists[c]
    requires forall x :: x in fired ==> At(deadline, x) <= now
    requires base.lists[c] != [] ==> At(deadline, base.lists[c][0]) > now
    requires forall x :: x !in base.timers ==> At(base.deadline, x) == At(deadline, x)
    ensures forall x :: x in fired <==> x in list && At(deadline, x) <= now
    ensures forall x :: x in Set(fired) <==> x in fired
  {
    hide At, NoDup, EventBase.Core, EventBase.Timed, EventBase.TimersKnown;
    forall x | x in list
      ensures x in fired <==> At(deadline, x) <= now
    {
      Split(list, fired, base.lists[c], x);
      if x in base.lists[c] {
        NoEarlier(base, c, x);
        Members(base, c, x);
        Members(base, c, base.lists[c][0]);
      }
    }
  }

  /** Expiring everything: timeout_process, then the timers it made active, with no user callback in
      between. The common-timeout lists and the heap together behave as one queue of deadlines: exactly
      the events that are due become active, and exactly the others stay pending. */
  method ExpireAll(base: EventBase, now: int)
    requires base.running.None? && base.Valid()
    modifies base`timeouts, base`count, base`lists, base.heap, base`queues, base`active, base`countActive, base`deadline, base`common
    modifies base`laterQueue, base`later, base`inserted, base`byTimeout, base`running
    ensures forall x :: x !in base.timers ==>
              && (x in base.timeouts <==> x in old(base.timeouts) && At(base.deadline, x) > now)
              && (x in base.active <==> x in old(base.active) || (x in old(base.timeouts) && At(base.deadline, x) <= now))
              && At(base.deadline, x) == At(old(base.deadline), x)
    ensures base.running.None? && base.Valid()
  {
    hide At, Stages, EventBase.Valid;
    ExpireHeap(base, now);
    var c := 0;
    while c < |base.lists|
      invariant c <= |base.lists| && base.running.None? && Stages(base, c, now, old(base.timeouts), old(base.active), old(base.deadline))
      invariant base.Valid()
      decreases |base.lists| - c
    {
      ExpireNext(base, c, now, old(base.timeouts), old(base.active), old(base.deadline));
      c := c + 1;
    }
    LastStage(base, now, old(base.timeouts), old(base.active), old(base.deadline));
  }

  /** The events while the lists before `c` are done. */
  ghost predicate Stages(base: EventBase, c: nat, now: int, pending: set<Id>, active: set<Id>, deadline: map<Id, int>)
    reads base
  {
    forall x :: x !in base.timers ==>
      && At(base.deadline, x) == At(deadline, x)
      && (x in base.timeouts ==> x in pending) && (x in pending && At(deadline, x) > now ==> x in base.timeouts)
      && (x in base.timeouts && At(deadline, x) <= now ==>
            x in base.common && c <= base.common[x] < |base.timers| && base.timers[base.common[x]] in base.active)
      && (x in base.active <==> x in active || (x in pending && x !in base.timeouts))
  }

  lemma {:induction false} LastStage(base: EventBase, now: int, pending: set<Id>, active: set<Id>, deadline: map<Id, int>)
    requires base.Valid() && Stages(base, |base.lists|, now, pending, active, deadline)
    ensures forall x :: x !in base.timers ==>
              && (x in base.timeouts <==> x in pending && At(base.deadline, x) > now)
              && (x in base.active <==> x in active || (x in pending && At(base.deadline, x) <= now))
              && At(base.deadline, x) == At(deadline, x)
  {
    hide At, Assigned, Apart, EventBase.Core, EventBase.Timed;
  }

  method ExpireHeap(base: EventBase, now: int)
    requires base.running.None? && base.Valid()
    modifies base`timeouts, base`count, base`lists, base.heap, base`queues, base`active, base`countActive
    modifies base`laterQueue, base`later, base`inserted, base`byTimeout
    ensures base.lists == old(base.lists) && Stages(base, 0, now, old(base.timeouts), old(base.active), base.deadline) && base.Valid()
  {
    hide At, NoDup, Sorted, Outside, QueuesAfter, Set, EventBase.Core, EventBase.Timed, EventBase.TimersKnown;
    InHeap(base);
    ghost var fired := base.TimeoutProcess(now);
    SetSnoc(fired, 0);
  }

  /** The list `c`, if its timer is active. */
  method ExpireNext(base: EventBase, c: nat, now: int, ghost pending: set<Id>, ghost active: set<Id>, ghost deadline: map<Id, int>)
    requires c < |base.lists| && base.running.None? && Stages(base, c, now, pending, active, deadline) && base.Valid()
    modifies base`timeouts, base`count, base`lists, base.heap, base`queues, base`active, base`countActive, base`deadline, base`common
    modifies base`laterQueue, base`later, base`inserted, base`byTimeout, base`running
    ensures |base.lists| == |old(base.lists)| && base.running.None? && Stages(base, c + 1, now, pending, active, deadline)
    ensures base.Valid()
  {
    hide At, NoDup, Assigned, Apart, EventBase.Core, EventBase.Timed;
    TimersDiffer(base, c);
    if base.timers[c] in base.active {
      ExpireList(base, c, now);
    }
  }

  lemma {:induction false} TimersDiffer(base: EventBase, c: nat)
    requires base.TimersKnown() && c < |base.timers|
    ensures base.timers[c] in base.timers && forall d :: 0 <= d < |base.timers| && d != c ==> base.timers[d] != base.timers[c]
  {
    hide Apart;
  }
}
