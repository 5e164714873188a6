/** event.c: the flags, queues, timeouts and counters of an event_base. */
module EventBases {
  import opened Basics
  import opened EventLists
  import MinHeaps

  /** Each active queue holds, once, exactly the active callbacks of its priority. */
  ghost predicate QueuesOk(queues: seq<seq<Id>>, active: set<Id>, pri: map<Id, nat>) {
    && (forall p :: 0 <= p < |queues| ==> NoDup(queues[p]))
    && (forall p, x :: 0 <= p < |queues| && x in queues[p] ==> x in active && x in pri && pri[x] == p)
    && (forall x :: x in active ==> x in pri && pri[x] < |queues| && x in queues[pri[x]])
  }

  ghost predicate LaterOk(queue: seq<Id>, later: set<Id>) {
    NoDup(queue) && forall x :: x in queue <==> x in later
  }

  /** The heap holds the timeouts that are not common, each common-timeout queue its own in order. */
  ghost predicate TimeOk(heap: map<Id, int>, lists: seq<seq<Id>>, timeouts: set<Id>, common: map<Id, nat>, deadline: map<Id, int>) {
    && (forall x :: x in heap <==> x in timeouts && x !in common)
    && (forall x :: x in heap ==> heap[x] == At(deadline, x))
    && (forall x :: x in timeouts && x in common ==> common[x] < |lists|)
    && (forall c, x :: 0 <= c < |lists| && x in lists[c] ==> x in timeouts && x in common && common[x] == c)
    && (forall x :: x in timeouts && x in common ==> x in lists[common[x]])
    && (forall c :: 0 <= c < |lists| ==> NoDup(lists[c]) && Sorted(lists[c], deadline))
  }

  lemma {:induction false} Enqueue(queues: seq<seq<Id>>, active: set<Id>, pri: map<Id, nat>, x: Id)
    requires QueuesOk(queues, active, pri) && x !in active && x in pri && pri[x] < |queues|
    ensures var p := pri[x];
            && QueuesOk(queues[p := queues[p] + [x]], active + {x}, pri)
            && SumLen(queues[p := queues[p] + [x]]) == SumLen(queues) + 1
  {
    SumLenUpdate(queues, pri[x], queues[pri[x]] + [x]);
  }

  lemma {:induction false} Dequeue(queues: seq<seq<Id>>, active: set<Id>, pri: map<Id, nat>, x: Id)
    requires QueuesOk(queues, active, pri) && x in active
    ensures var p := pri[x];
            && QueuesOk(queues[p := Outside(queues[p], {x})], active - {x}, pri)
            && SumLen(queues[p := Outside(queues[p], {x})]) == SumLen(queues) - 1
  {
    hide Outside;
    var p := pri[x];
    OutsideMembers(queues[p], {x});
    OutsideOne(queues[p], x);
    SumLenUpdate(queues, p, Outside(queues[p], {x}));
  }

  lemma {:induction false} LeaveLater(queue: seq<Id>, later: set<Id>, x: Id)
    requires LaterOk(queue, later) && x in later
    ensures LaterOk(Outside(queue, {x}), later - {x}) && |Outside(queue, {x})| == |queue| - 1
  {
    OutsideMembers(queue, {x});
    OutsideOne(queue, x);
  }

  lemma {:induction false} DropFromHeap(heap: map<Id, int>, lists: seq<seq<Id>>, timeouts: set<Id>, common: map<Id, nat>, deadline: map<Id, int>, x: Id)
    requires TimeOk(heap, lists, timeouts, common, deadline) && x in timeouts && x !in common
    ensures TimeOk(heap - {x}, lists, timeouts - {x}, common, deadline)
  {
  }

  lemma {:induction false} DropFromList(heap: map<Id, int>, lists: seq<seq<Id>>, timeouts: set<Id>, common: map<Id, nat>, deadline: map<Id, int>, x: Id)
    requires TimeOk(heap, lists, timeouts, common, deadline) && x in timeouts && x in common
    ensures var c := common[x];
            c < |lists| && TimeOk(heap, lists[c := Outside(lists[c], {x})], timeouts - {x}, common, deadline)
  {
    hide Outside, NoDup, Sorted;
    var c := common[x];
    OutsideMembers(lists[c], {x});
    OutsideSorted(lists[c], {x}, deadline);
  }

  lemma {:induction false} AddToHeap(heap: map<Id, int>, lists: seq<seq<Id>>, timeouts: set<Id>, common: map<Id, nat>, deadline: map<Id, int>, x: Id)
    requires TimeOk(heap, lists, timeouts, common, deadline) && x !in timeouts && x !in common
    ensures TimeOk(heap[x := At(deadline, x)], lists, timeouts + {x}, common, deadline)
  {
    hide NoDup, Sorted;
  }

  lemma {:induction false} AddToList(heap: map<Id, int>, lists: seq<seq<Id>>, timeouts: set<Id>, common: map<Id, nat>, deadline: map<Id, int>, x: Id, l: seq<Id>)
    requires TimeOk(heap, lists, timeouts, common, deadline) && x !in timeouts && x in common && common[x] < |lists|
    requires NoDup(l) && Sorted(l, deadline) && forall y :: y in l <==> y in lists[common[x]] || y == x
    ensures TimeOk(heap, lists[common[x] := l], timeouts + {x}, common, deadline)
  {
    hide NoDup, Sorted;
  }

  /** A callback that is on no timeout may be given another one. */
  lemma {:induction false} SetDeadline(heap: map<Id, int>, lists: seq<seq<Id>>, timeouts: set<Id>, common: map<Id, nat>, deadline: map<Id, int>, x: Id, at: int, c: Option<nat>)
    requires TimeOk(heap, lists, timeouts, common, deadline) && x !in timeouts
    ensures TimeOk(heap, lists, timeouts, if c.Some? then common[x := c.value] else common - {x}, deadline[x := at])
  {
    hide NoDup;
    forall d | 0 <= d < |lists|
      ensures Sorted(lists[d], deadline[x := at])
    {
      forall i | 0 <= i < |lists[d]|
        ensures At(deadline[x := at], lists[d][i]) == At(deadline, lists[d][i])
      {
        assert lists[d][i] in lists[d];
      }
    }
  }

  lemma {:induction false} JoinLater(queue: seq<Id>, later: set<Id>, x: Id)
    requires LaterOk(queue, later) && x !in later
    ensures LaterOk(queue + [x], later + {x})
  {
  }

  /** The timer of a common timeout is about to run, or is in the heap no later than the first event. */
  ghost predicate Covered(t: Id, first: Id, active: set<Id>, heap: map<Id, int>, deadline: map<Id, int>) {
    t in active || (t in heap && heap[t] <= At(deadline, first))
  }

  /** Every common timeout with events is covered, or its callback is beginning; `skip` excepts one. */
  ghost predicate TimedBut(lists: seq<seq<Id>>, timers: seq<Id>, active: set<Id>, heap: map<Id, int>, deadline: map<Id, int>,
                           running: Option<nat>, skip: Option<nat>) {
    && |timers| == |lists|
    && forall c :: 0 <= c < |lists| && lists[c] != [] && running != Some(c) && skip != Some(c) ==>
         Covered(timers[c], lists[c][0], active, heap, deadline)
  }

  /** Taking an event out of a sorted list makes its first deadline no earlier. */
  lemma {:induction false} HeadAfter(l: seq<Id>, x: Id, deadline: map<Id, int>)
    requires Sorted(l, deadline) && Outside(l, {x}) != []
    ensures l != [] && Outside(l, {x})[0] != x && At(deadline, l[0]) <= At(deadline, Outside(l, {x})[0])
  {
    OutsideMembers(l, {x});
    assert Outside(l, {x})[0] in Outside(l, {x});
    FirstIsLeast(l, deadline, Outside(l, {x})[0]);
  }

  ghost predicate SameHead(l: seq<Id>, m: seq<Id>) {
    m != [] ==> l != [] && l[0] == m[0]
  }

  /** Timers stay right when an event other than a timer leaves its list, or joins one not in front. */
  lemma {:induction false} TimedChange(lists: seq<seq<Id>>, lists': seq<seq<Id>>, timers: seq<Id>, active: set<Id>, active': set<Id>,
                                       heap: map<Id, int>, heap': map<Id, int>, deadline: map<Id, int>, deadline': map<Id, int>,
                                       running: Option<nat>, skip: Option<nat>, x: Id)
    requires TimedBut(lists, timers, active, heap, deadline, running, skip) && x !in timers && |lists'| == |lists|
    requires active - {x} <= active' && forall t :: t in heap && t != x ==> t in heap' && heap'[t] == heap[t]
    requires forall y :: y != x ==> At(deadline', y) == At(deadline, y)
    requires forall c :: 0 <= c < |lists| ==> Sorted(lists[c], deadline)
    requires forall c :: 0 <= c < |lists| && skip != Some(c) ==> SameHead(Outside(lists[c], {x}), lists'[c])
    ensures TimedBut(lists', timers, active', heap', deadline', running, skip)
  {
    hide Outside, Sorted, At;
    forall c | 0 <= c < |lists'| && lists'[c] != [] && running != Some(c) && skip != Some(c)
      ensures Covered(timers[c], lists'[c][0], active', heap', deadline')
    {
      assert SameHead(Outside(lists[c], {x}), lists'[c]);
      HeadAfter(lists[c], x, deadline);
      assert Covered(timers[c], lists[c][0], active, heap, deadline);
      assert timers[c] in timers;
    }
  }

  /** Timers stay right when an event, perhaps a timer, moves from the timeouts to the active queues. */
  lemma {:induction false} TimedFire(lists: seq<seq<Id>>, lists': seq<seq<Id>>, timers: seq<Id>, active: set<Id>, heap: map<Id, int>,
                                     deadline: map<Id, int>, running: Option<nat>, skip: Option<nat>, x: Id)
    requires TimedBut(lists, timers, active, heap, deadline, running, skip) && |lists'| == |lists|
    requires forall c :: 0 <= c < |lists| ==> Sorted(lists[c], deadline) && lists'[c] == Outside(lists[c], {x})
    ensures TimedBut(lists', timers, active + {x}, heap - {x}, deadline, running, skip)
  {
    hide Outside, Sorted, At;
    forall c | 0 <= c < |lists'| && lists'[c] != [] && running != Some(c) && skip != Some(c)
      ensures Covered(timers[c], lists'[c][0], active + {x}, heap - {x}, deadline)
    {
      HeadAfter(lists[c], x, deadline);
      assert Covered(timers[c], lists[c][0], active, heap, deadline);
    }
  }

  /** Timers stay right as long as none of them leaves the active queues. */
  lemma {:induction false} TimedActive(lists: seq<seq<Id>>, timers: seq<Id>, active: set<Id>, active': set<Id>, heap: map<Id, int>, deadline: map<Id, int>,
                                       running: Option<nat>, skip: Option<nat>)
    requires TimedBut(lists, timers, active, heap, deadline, running, skip)
    requires forall t :: t in timers && t in active ==> t in active'
    ensures TimedBut(lists, timers, active', heap, deadline, running, skip)
  {
    forall c | 0 <= c < |lists| && lists[c] != [] && running != Some(c) && skip != Some(c)
      ensures Covered(timers[c], lists[c][0], active', heap, deadline)
    {
      assert Covered(timers[c], lists[c][0], active, heap, deadline);
      assert timers[c] in timers;
    }
  }

  /** The timer `c` leaves the active queue because its callback begins. */
  lemma {:induction false} TimedRun(lists: seq<seq<Id>>, timers: seq<Id>, active: set<Id>, heap: map<Id, int>, deadline: map<Id, int>, c: nat)
    requires TimedBut(lists, timers, active, heap, deadline, None, None) && NoDup(timers) && c < |timers|
    ensures TimedBut(lists, timers, active - {timers[c]}, heap - {timers[c]}, deadline, Some(c), None)
  {
    forall d | 0 <= d < |lists| && lists[d] != [] && d != c
      ensures Covered(timers[d], lists[d][0], active - {timers[c]}, heap - {timers[c]}, deadline)
    {
      assert Covered(timers[d], lists[d][0], active, heap, deadline);
    }
  }

  lemma {:induction false} TimedSkip(lists: seq<seq<Id>>, timers: seq<Id>, active: set<Id>, heap: map<Id, int>, deadline: map<Id, int>,
                                     running: Option<nat>, skip: Option<nat>)
    requires TimedBut(lists, timers, active, heap, deadline, running, None)
    ensures TimedBut(lists, timers, active, heap, deadline, running, skip)
  {
  }

  /** Setting the timer `c` to the first deadline of its list. */
  lemma {:induction false} TimerSet(lists: seq<seq<Id>>, timers: seq<Id>, active: set<Id>, active': set<Id>, heap: map<Id, int>, deadline: map<Id, int>,
                                    running: Option<nat>, c: nat, at: int)
    requires TimedBut(lists, timers, active, heap, deadline, running, Some(c)) && c < |lists| && NoDup(timers)
    requires lists[c] != [] ==> at <= At(deadline, lists[c][0])
    requires active - {timers[c]} <= active'
    requires forall d :: 0 <= d < |lists| ==> timers[c] !in lists[d]
    ensures TimedBut(lists, timers, active', heap[timers[c] := at], deadline[timers[c] := at], running, None)
  {
    forall d | 0 <= d < |lists| && lists[d] != [] && running != Some(d)
      ensures Covered(timers[d], lists[d][0], active', heap[timers[c] := at], deadline[timers[c] := at])
    {
      assert lists[d][0] in lists[d];
      if d != c {
        assert Covered(timers[d], lists[d][0], active, heap, deadline);
      }
    }
  }

  /** Every priority has a queue, and the timers are internal events of the first priority. */
  ghost predicate Assigned(timers: seq<Id>, pri: map<Id, nat>, internal: set<Id>, others: set<Id>, priorities: nat) {
    && NoDup(timers)
    && (forall t :: t in timers ==> t in pri && pri[t] == 0 && t in internal && t !in others)
    && (forall x :: x in pri ==> pri[x] < priorities)
  }

  /** No timer of a common timeout has a common timeout itself. */
  ghost predicate Apart(timers: seq<Id>, common: map<Id, nat>) {
    forall t :: t in timers ==> t !in common
  }

  lemma {:induction false} StillApart(timers: seq<Id>, common: map<Id, nat>, x: Id, c: Option<nat>)
    requires Apart(timers, common) && (c.Some? ==> x !in timers)
    ensures Apart(timers, if c.Some? then common[x := c.value] else common - {x})
  {
  }

  /** A timeout as the caller gives it: microseconds, and the common-timeout queue its magic bits name. */
  datatype Tv = Tv(usec: int, common: Option<nat>)

  /** `struct event_base`. The EVLIST_ flags and other attributes of the callbacks are kept as the sets
      of callbacks that have them. */
  class EventBase {
    var pri: map<Id, nat>
    /** EVLIST_INTERNAL; callbacks that are not events; events on an fd; EV_PERSIST */
    var internal: set<Id>
    var plain: set<Id>
    var io: set<Id>
    var persist: set<Id>
    /** EVLIST_INSERTED, _TIMEOUT, _ACTIVE and _ACTIVE_LATER */
    var inserted: set<Id>
    var timeouts: set<Id>
    var active: set<Id>
    var later: set<Id>
    /** ev_res has EV_TIMEOUT */
    var byTimeout: set<Id>
    /** ev_timeout: when, and the common-timeout queue named by its magic bits */
    var deadline: map<Id, int>
    var common: map<Id, nat>
    const heap: MinHeaps.MinHeap
    /** The events of each common timeout, and its own timer. */
    var lists: seq<seq<Id>>
    var timers: seq<Id>
    /** activequeues, active_later_queue */
    var queues: seq<seq<Id>>
    var laterQueue: seq<Id>
    /** event_count, event_count_active */
    var count: int
    var countActive: int
    /** ev_io_timeout of the persistent events that have one */
    var interval: map<Id, Tv>
    /** n_deferreds_queued */
    var deferreds: nat
    /** The length of each common timeout. */
    var durations: seq<int>
    /** The common timeout whose timer was taken off its queue and whose callback is about to begin. */
    var running: Option<nat>

    /** Lists, flags and counters agree. */
    ghost predicate Core()
      reads this, heap
    {
      && heap.Valid() && queues != []
      && QueuesOk(queues, active, pri) && LaterOk(laterQueue, later) && active !! later
      && (forall x :: x in later ==> x in pri && pri[x] < |queues|)
      && TimeOk(heap.content, lists, timeouts, common, deadline)
      && count == External(inserted, internal) + External(timeouts, internal) + External(active, internal) + External(later, internal)
      && countActive == SumLen(queues) + |laterQueue|
    }

    /** event_base_new and event_base_priority_init */
    constructor (priorities: nat)
      requires priorities > 0
      ensures Core() && fresh(heap) && |queues| == priorities && lists == [] && timers == [] && running.None?
      ensures pri == map[] && timeouts == {} && active == {} && later == {} && inserted == {} && common == map[]
      ensures plain == {} && io == {} && interval == map[] && durations == [] && Valid()
      ensures AsView() == NewView(priorities)
    {
      pri, internal, plain, io, persist := map[], {}, {}, {}, {};
      inserted, timeouts, active, later, byTimeout := {}, {}, {}, {}, {};
      deadline, common, lists, timers, interval, durations, deferreds := map[], map[], [], [], map[], [], 0;
      queues, laterQueue, count, countActive, running := seq(priorities, _ => []), [], 0, 0, None;
      heap := new MinHeaps.MinHeap();
      new;
      SumLenEmpty(queues);
    }

    /** event_queue_insert_active */
    method InsertActive(x: Id)
      requires Core() && x in pri && pri[x] < |queues| && x !in active && x !in later
      modifies this`queues, this`active, this`count, this`countActive
      ensures Core() && active == old(active) + {x} && queues == old(queues)[pri[x] := old(queues)[pri[x]] + [x]]
    {
      hide QueuesOk, LaterOk, TimeOk, External, SumLen, NoDup, Outside, MinHeaps.MinHeap.Valid;
      Enqueue(queues, active, pri, x);
      ExternalChange(active, internal, x);
      count := count + if x in internal then 0 else 1;
      active := active + {x};
      countActive := countActive + 1;
      queues := queues[pri[x] := queues[pri[x]] + [x]];
    }

    /** event_queue_remove_active */
    method RemoveActive(x: Id)
      requires Core() && x in active
      modifies this`queues, this`active, this`count, this`countActive
      ensures Core() && active == old(active) - {x} && |queues| == |old(queues)|
      ensures forall p :: 0 <= p < |queues| ==> queues[p] == Outside(old(queues)[p], {x})
    {
      hide QueuesOk, LaterOk, TimeOk, External, SumLen, NoDup, Outside, MinHeaps.MinHeap.Valid;
      Dequeue(queues, active, pri, x);
      NotInOthers(queues, active, pri, x);
      ExternalChange(active - {x}, internal, x);
      assert active - {x} + {x} == active;
      count := count - if x in internal then 0 else 1;
      active := active - {x};
      countActive := countActive - 1;
      queues := queues[pri[x] := Outside(queues[pri[x]], {x})];
    }

    /** event_queue_insert_active_later */
    method InsertLater(x: Id)
      requires Core() && x in pri && pri[x] < |queues| && x !in active && x !in later
      modifies this`laterQueue, this`later, this`count, this`countActive
      ensures Core() && later == old(later) + {x} && laterQueue == old(laterQueue) + [x]
    {
      hide QueuesOk, LaterOk, TimeOk, External, SumLen, NoDup, Outside, MinHeaps.MinHeap.Valid;
      JoinLater(laterQueue, later, x);
      ExternalChange(later, internal, x);
      count := count + if x in internal then 0 else 1;
      later := later + {x};
      countActive := countActive + 1;
      laterQueue := laterQueue + [x];
    }

    /** event_queue_remove_active_later */
    method RemoveLater(x: Id)
      requires Core() && x in later
      modifies this`laterQueue, this`later, this`count, this`countActive
      ensures Core() && later == old(later) - {x} && laterQueue == Outside(old(laterQueue), {x})
    {
      hide QueuesOk, LaterOk, TimeOk, External, SumLen, NoDup, Outside, MinHeaps.MinHeap.Valid;
      LeaveLater(laterQueue, later, x);
      ExternalChange(later - {x}, internal, x);
      assert later - {x} + {x} == later;
      count := count - if x in internal then 0 else 1;
      later := later - {x};
      countActive := countActive - 1;
      laterQueue := Outside(laterQueue, {x});
    }

    /** event_queue_insert_inserted */
    method InsertInserted(x: Id)
      requires Core() && x !in inserted
      modifies this`inserted, this`count
      ensures Core() && inserted == old(inserted) + {x}
    {
      hide QueuesOk, LaterOk, TimeOk, External, SumLen, NoDup, Outside, MinHeaps.MinHeap.Valid;
      ExternalChange(inserted, internal, x);
      count := count + if x in internal then 0 else 1;
      inserted := inserted + {x};
    }

    /** event_queue_remove_inserted */
    method RemoveInserted(x: Id)
      requires Core() && x in inserted
      modifies this`inserted, this`count
      ensures Core() && inserted == old(inserted) - {x}
    {
      hide QueuesOk, LaterOk, TimeOk, External, SumLen, NoDup, Outside, MinHeaps.MinHeap.Valid;
      ExternalChange(inserted - {x}, internal, x);
      assert inserted - {x} + {x} == inserted;
      count := count - if x in internal then 0 else 1;
      inserted := inserted - {x};
    }

    /** event_queue_insert_timeout */
    method InsertTimeout(x: Id)
      requires Core() && x !in timeouts && (x in common ==> common[x] < |lists|)
      modifies this`timeouts, this`count, this`lists, heap
      ensures Core() && timeouts == old(timeouts) + {x} && |lists| == |old(lists)|
      ensures heap.content == if x in common then old(heap.content) else old(heap.content)[x := At(deadline, x)]
      ensures forall c :: 0 <= c < |lists| ==> Outside(lists[c], {x}) == old(lists)[c]
      ensures forall c :: 0 <= c < |lists| && !(x in common && common[x] == c) ==> lists[c] == old(lists)[c]
      ensures x in common ==> var l := old(lists)[common[x]];
                              lists[common[x]] != [] && lists[common[x]][0] == if l != [] && At(deadline, l[0]) <= At(deadline, x) then l[0] else x
    {
      hide QueuesOk, LaterOk, TimeOk, External, SumLen, NoDup, Outside, MinHeaps.MinHeap.Valid;
      ExternalChange(timeouts, internal, x);
      ListsWithout(heap.content, lists, timeouts, common, deadline, x);
      count := count + if x in internal then 0 else 1;
      if x in common {
        ListOk(heap.content, lists, timeouts, common, deadline, common[x]);
        var l := InsertInOrder(lists[common[x]], x, deadline);
        AddToList(heap.content, lists, timeouts, common, deadline, x, l);
        lists := lists[common[x] := l];
      } else {
        AddToHeap(heap.content, lists, timeouts, common, deadline, x);
        heap.Push(MinHeaps.Entry(x, At(deadline, x)));
      }
      timeouts := timeouts + {x};
    }

    /** event_queue_remove_timeout */
    method RemoveTimeout(x: Id)
      requires Core() && x in timeouts
      modifies this`timeouts, this`count, this`lists, heap
      ensures Core() && timeouts == old(timeouts) - {x} && |lists| == |old(lists)|
      ensures heap.content == old(heap.content) - {x}
      ensures forall c :: 0 <= c < |lists| ==> lists[c] == Outside(old(lists)[c], {x})
    {
      hide QueuesOk, LaterOk, TimeOk, External, SumLen, NoDup, Outside, MinHeaps.MinHeap.Valid;
      ExternalChange(timeouts - {x}, internal, x);
      assert timeouts - {x} + {x} == timeouts;
      ListsOthers(heap.content, lists, timeouts, common, deadline, x);
      count := count - if x in internal then 0 else 1;
      if x in common {
        DropFromList(heap.content, lists, timeouts, common, deadline, x);
        lists := lists[common[x] := Outside(lists[common[x]], {x})];
      } else {
        DropFromHeap(heap.content, lists, timeouts, common, deadline, x);
        var _ := heap.Erase(x);
      }
      timeouts := timeouts - {x};
    }

    /** event_del_nolock_: off every list. */
    method Del(x: Id)
      requires Core()
      modifies this`timeouts, this`count, this`lists, heap, this`queues, this`active, this`countActive
      modifies this`laterQueue, this`later, this`inserted
      ensures Core() && |lists| == |old(lists)| && |queues| == |old(queues)|
      ensures timeouts == old(timeouts) - {x} && inserted == old(inserted) - {x}
      ensures active == old(active) - {x} && later == old(later) - {x}
      ensures heap.content == old(heap.content) - {x}
      ensures forall c :: 0 <= c < |lists| ==> lists[c] == Outside(old(lists)[c], {x})
      ensures forall p :: 0 <= p < |queues| ==> queues[p] == Outside(old(queues)[p], {x})
      ensures laterQueue == Outside(old(laterQueue), {x})
    {
      hide QueuesOk, LaterOk, TimeOk, External, SumLen, NoDup, Outside, MinHeaps.MinHeap.Valid;
      if x in timeouts {
        RemoveTimeout(x);
      } else {
        ListsWithout(heap.content, lists, timeouts, common, deadline, x);
        assert heap.content == heap.content - {x};
      }
      NotInOthers(queues, active, pri, x);
      NotLater(laterQueue, later, x);
      if x in active {
        RemoveActive(x);
      } else if x in later {
        RemoveLater(x);
      }
      if x in inserted {
        RemoveInserted(x);
      }
    }

    /** event_callback_activate_nolock_ */
    method Activate(x: Id) returns (r: bool)
      requires Core() && x in pri && pri[x] < |queues|
      modifies this`queues, this`active, this`count, this`countActive, this`laterQueue, this`later
      ensures Core() && (r <==> x !in old(active) && x !in old(later))
      ensures active == old(active) + {x} && later == old(later) - {x} && laterQueue == Outside(old(laterQueue), {x})
      ensures queues == if x in old(active) then old(queues) else old(queues)[pri[x] := old(queues)[pri[x]] + [x]]
    {
      hide QueuesOk, LaterOk, TimeOk, External, SumLen, NoDup, Outside, MinHeaps.MinHeap.Valid;
      NotLater(laterQueue, later, x);
      r := true;
      if x in later {
        RemoveLater(x);
        r := false;
      } else if x in active {
        return false;
      }
      InsertActive(x);
    }

    /** event_active_nolock_ */
    method ActivateEvent(x: Id, timedOut: bool)
      requires Core() && x in pri && pri[x] < |queues|
      modifies this`queues, this`active, this`count, this`countActive, this`laterQueue, this`later, this`byTimeout
      ensures Core()
      ensures active == old(active) + {x} && later == old(later) - {x} && laterQueue == Outside(old(laterQueue), {x})
      ensures queues == if x in old(active) then old(queues) else old(queues)[pri[x] := old(queues)[pri[x]] + [x]]
      ensures x in byTimeout <==> timedOut || (x in old(byTimeout) && x in old(active) + old(later))
      ensures byTimeout - {x} == old(byTimeout) - {x}
    {
      hide QueuesOk, LaterOk, TimeOk, External, SumLen, NoDup, Outside, MinHeaps.MinHeap.Valid;
      if timedOut {
        byTimeout := byTimeout + {x};
      } else if x !in active && x !in later {
        byTimeout := byTimeout - {x};
      }
      var _ := Activate(x);
    }

    /** event_callback_activate_later_nolock_ */
    method ActivateLater(x: Id) returns (r: bool)
      requires Core() && x in pri && pri[x] < |queues|
      modifies this`count, this`countActive, this`laterQueue, this`later
      ensures Core() && (r <==> x !in active && x !in old(later))
      ensures if r then later == old(later) + {x} && laterQueue == old(laterQueue) + [x]
              else later == old(later) && laterQueue == old(laterQueue)
    {
      hide QueuesOk, LaterOk, TimeOk, External, SumLen, NoDup, Outside, MinHeaps.MinHeap.Valid;
      r := x !in active && x !in later;
      if r {
        InsertLater(x);
      }
    }

    /** The timeout part of event_add_nolock_. */
    method AddTimeout(x: Id, at: int, c: Option<nat>)
      requires Core() && (c.Some? ==> c.value < |lists|)
      modifies this`timeouts, this`count, this`lists, heap, this`queues, this`active, this`countActive, this`deadline, this`common
      ensures Core() && |lists| == |old(lists)| && |queues| == |old(queues)|
      ensures timeouts == old(timeouts) + {x} && deadline == old(deadline)[x := at]
      ensures common == if c.Some? then old(common)[x := c.value] else old(common) - {x}
      ensures active == if x in byTimeout then old(active) - {x} else old(active)
      ensures forall p :: 0 <= p < |queues| ==> queues[p] == if x in byTimeout then Outside(old(queues)[p], {x}) else old(queues)[p]
      ensures heap.content == if c.Some? then old(heap.content) - {x} else old(heap.content)[x := at]
      ensures forall d :: 0 <= d < |lists| && c != Some(d) ==> lists[d] == Outside(old(lists)[d], {x})
      ensures c.Some? ==> var l := Outside(old(lists)[c.value], {x});
                          && Outside(lists[c.value], {x}) == l && lists[c.value] != []
                          && lists[c.value][0] == if l != [] && At(old(deadline), l[0]) <= at then l[0] else x
    {
      hide QueuesOk, LaterOk, TimeOk, External, SumLen, NoDup, Outside, At, MinHeaps.MinHeap.Valid;
      TakeOffTimeout(x);
      NoLongerActive(x);
      Retime(x, at, c);
    }

    /** Rescheduling a timeout before its callback could run takes the callback off its queue. */
    method NoLongerActive(x: Id)
      requires Core()
      modifies this`queues, this`active, this`count, this`countActive
      ensures Core() && |queues| == |old(queues)|
      ensures active == if x in byTimeout then old(active) - {x} else old(active)
      ensures forall p :: 0 <= p < |queues| ==> queues[p] == if x in byTimeout then Outside(old(queues)[p], {x}) else old(queues)[p]
    {
      hide QueuesOk, LaterOk, TimeOk, External, SumLen, NoDup, Outside, MinHeaps.MinHeap.Valid;
      NotInOthers(queues, active, pri, x);
      if x in active && x in byTimeout {
        RemoveActive(x);
      }
    }

    /** A new deadline for a callback that is on no timeout. */
    method Retime(x: Id, at: int, c: Option<nat>)
      requires Core() && x !in timeouts && (c.Some? ==> c.value < |lists|)
      modifies this`timeouts, this`count, this`lists, heap, this`deadline, this`common
      ensures Core() && |lists| == |old(lists)|
      ensures timeouts == old(timeouts) + {x} && deadline == old(deadline)[x := at]
      ensures common == if c.Some? then old(common)[x := c.value] else old(common) - {x}
      ensures heap.content == if c.Some? then old(heap.content) else old(heap.content)[x := at]
      ensures forall d :: 0 <= d < |lists| && c != Some(d) ==> lists[d] == old(lists)[d]
      ensures c.Some? ==> var l := old(lists)[c.value];
                          && Outside(lists[c.value], {x}) == l && lists[c.value] != []
                          && lists[c.value][0] == if l != [] && At(old(deadline), l[0]) <= at then l[0] else x
    {
      hide QueuesOk, LaterOk, TimeOk, External, SumLen, NoDup, Outside, MinHeaps.MinHeap.Valid;
      SetDeadline(heap.content, lists, timeouts, common, deadline, x, at, c);
      ListsWithout(heap.content, lists, timeouts, common, deadline, x);
      if c.Some? && lists[c.value] != [] {
        assert lists[c.value][0] in lists[c.value];
      }
      deadline := deadline[x := at];
      common := if c.Some? then common[x := c.value] else common - {x};
      InsertTimeout(x);
    }

    method TakeOffTimeout(x: Id)
      requires Core()
      modifies this`timeouts, this`count, this`lists, heap
      ensures Core() && timeouts == old(timeouts) - {x} && |lists| == |old(lists)|
      ensures heap.content == old(heap.content) - {x}
      ensures forall c :: 0 <= c < |lists| ==> lists[c] == Outside(old(lists)[c], {x})
    {
      hide QueuesOk, LaterOk, TimeOk, External, SumLen, NoDup, Outside, MinHeaps.MinHeap.Valid;
      if x in timeouts {
        RemoveTimeout(x);
      } else {
        ListsWithout(heap.content, lists, timeouts, common, deadline, x);
        assert heap.content == heap.content - {x};
      }
    }

    /** The timers of the common timeouts: internal events of the first priority. */
    ghost predicate TimersKnown()
      reads this
    {
      && |timers| == |lists| == |durations| && Assigned(timers, pri, internal, plain + io + persist, |queues|)
      && Apart(timers, common) && timeouts <= pri.Keys
    }

    /** A callback this base has not seen yet. */
    predicate Unknown(x: Id)
      reads this
    {
      x !in pri && x !in inserted && x !in common && x !in plain && x !in io && x !in persist
    }

    ghost predicate Timed(skip: Option<nat>)
      reads this, heap
    {
      TimedBut(lists, timers, active, heap.content, deadline, running, skip)
    }

    ghost predicate Valid()
      reads this, heap
    {
      Core() && TimersKnown() && Timed(None)
    }

    lemma {:induction false} ListsSorted()
      requires Core()
      ensures forall c :: 0 <= c < |lists| ==> Sorted(lists[c], deadline)
    {
      hide QueuesOk, LaterOk, External, SumLen, NoDup, Sorted, MinHeaps.MinHeap.Valid;
    }

    lemma {:induction false} NotTimed(x: Id)
      requires Core()
      ensures x !in timeouts ==> forall c :: 0 <= c < |lists| ==> lists[c] == Outside(lists[c], {x})
    {
      hide QueuesOk, LaterOk, TimeOk, External, SumLen, NoDup, Sorted, MinHeaps.MinHeap.Valid;
      if x !in timeouts {
        ListsWithout(heap.content, lists, timeouts, common, deadline, x);
      }
    }

    lemma {:induction false} Listed(x: Id)
      requires Core() && x in timeouts
      ensures x in common ==> common[x] < |lists| && x in lists[common[x]]
    {
      hide QueuesOk, LaterOk, External, SumLen, NoDup, Sorted, MinHeaps.MinHeap.Valid;
    }

    /** common_timeout_schedule */
    method Schedule(c: nat)
      requires Core() && TimersKnown() && c < |lists| && lists[c] != [] && Timed(Some(c))
      modifies this`timeouts, this`count, this`lists, heap, this`queues, this`active, this`countActive, this`deadline, this`common
      ensures Valid() && lists == old(lists) && common == old(common) && |queues| == |old(queues)|
      ensures timeouts == old(timeouts) + {timers[c]} && deadline == old(deadline)[timers[c] := At(old(deadline), lists[c][0])]
      ensures heap.content == old(heap.content)[timers[c] := At(old(deadline), lists[c][0])]
      ensures active == if timers[c] in byTimeout then old(active) - {timers[c]} else old(active)
      ensures forall p :: 0 <= p < |queues| ==> queues[p] == if timers[c] in byTimeout then Outside(old(queues)[p], {timers[c]}) else old(queues)[p]
    {
      hide QueuesOk, LaterOk, TimeOk, External, SumLen, NoDup, Outside, At, TimedBut, MinHeaps.MinHeap.Valid;
      var t, at := timers[c], At(deadline, lists[c][0]);
      NotListed(heap.content, lists, timeouts, common, deadline, t);
      TimerSet(lists, timers, active, if t in byTimeout then active - {t} else active, heap.content, deadline, running, c, at);
      AddTimeout(t, at, None);
      assert lists == old(lists);
      assert common == old(common);
    }

    /** The timeout part of event_add_nolock_, with the timer of the common timeout. */
    method AddTimed(x: Id, at: int, c: Option<nat>)
      requires (c.Some? ==> c.value < |lists|) && x in pri && x !in timers && Valid()
      modifies this`timeouts, this`count, this`lists, heap, this`queues, this`active, this`countActive, this`deadline, this`common
      ensures |lists| == |old(lists)| && |queues| == |old(queues)| && x in timeouts && At(deadline, x) == at
      ensures common == if c.Some? then old(common)[x := c.value] else old(common) - {x}
      ensures x in active <==> x in old(active) && x !in byTimeout
      ensures c.Some? ==> x in lists[c.value] && Outside(lists[c.value], {x}) == Outside(old(lists)[c.value], {x})
      ensures OnlyThis(old(Stands()), Stands(), x) && Valid()
    {
      hide NoDup, Outside, At, Assigned, Apart, OnlyThis, EventBase.Core, EventBase.Timed;
      var first := Reschedule(x, at, c);
      OtherDeadlines(old(deadline), x, at);
      Listed(x);
      if first {
        ghost var mid := Stands();
        FirstSet(c.value, x);
        OnlyThisTwice(old(Stands()), mid, Stands(), x);
      }
    }

    /** common_timeout_schedule for an event that came first in its list. */
    method FirstSet(c: nat, x: Id)
      requires Core() && TimersKnown() && c < |lists| && lists[c] != [] && Timed(Some(c)) && x !in timers
      modifies this`timeouts, this`count, this`lists, heap, this`queues, this`active, this`countActive, this`deadline, this`common
      ensures |queues| == |old(queues)| && lists == old(lists) && common == old(common)
      ensures (x in timeouts <==> x in old(timeouts)) && At(deadline, x) == At(old(deadline), x) && (x in active <==> x in old(active))
      ensures OnlyThis(old(Stands()), Stands(), x) && Valid()
    {
      hide NoDup, Outside, At, Assigned, Apart, Set, EventBase.Core, EventBase.Timed;
      QueuesWithout(queues, timers[c], {x} + Set(timers));
      InSet(timers, c);
      OtherDeadlines(deadline, timers[c], At(deadline, lists[c][0]));
      Schedule(c);
      assert timers[c] in timers;
    }

    /** The event joins the heap or its list; says whether it came first in its list. */
    method Reschedule(x: Id, at: int, c: Option<nat>) returns (first: bool)
      requires (c.Some? ==> c.value < |lists|) && x in pri && x !in timers && Valid()
      modifies this`timeouts, this`count, this`lists, heap, this`queues, this`active, this`countActive, this`deadline, this`common
      ensures |lists| == |old(lists)| && |queues| == |old(queues)|
      ensures timeouts == old(timeouts) + {x} && deadline == old(deadline)[x := at]
      ensures common == if c.Some? then old(common)[x := c.value] else old(common) - {x}
      ensures active == if x in byTimeout then old(active) - {x} else old(active)
      ensures c.Some? ==> lists[c.value] != [] && Outside(lists[c.value], {x}) == Outside(old(lists)[c.value], {x})
      ensures first <==> c.Some? && lists[c.value][0] == x
      ensures OnlyThis(old(Stands()), Stands(), x)
      ensures Core() && TimersKnown() && Timed(if first then c else None)
    {
      hide QueuesOk, LaterOk, TimeOk, External, SumLen, NoDup, Outside, At, Set, TimedBut, Sorted, Assigned, Apart, MinHeaps.MinHeap.Valid;
      Lists(heap.content, lists, timeouts, common, deadline);
      QueuesWithout(queues, x, {x} + Set(timers));
      QueuesWithout(lists, x, {x});
      AddTimeout(x, at, c);
      first := c.Some? && lists[c.value][0] == x;
      StillApart(timers, old(common), x, c);
      TimedSkip(old(lists), timers, old(active), old(heap.content), old(deadline), running, if first then c else None);
      OtherDeadlines(old(deadline), x, at);
      TimedChange(old(lists), lists, timers, old(active), active, old(heap.content), heap.content, old(deadline), deadline,
                  running, if first then c else None, x);
    }

    /** Whether event_add has to register the event with the backend. */
    predicate NeedsMap(x: Id)
      reads this
    {
      x in io && x !in inserted && x !in active && x !in later
    }

    /** event_add_nolock_. `mapOk` says whether the backend accepts a registration. */
    method Add(x: Id, tv: Option<Tv>, absolute: bool, now: int, mapOk: bool) returns (ok: bool)
      requires (tv.Some? && tv.value.common.Some? ==> tv.value.common.value < |lists|) && x in pri && x !in timers && x !in plain && Valid()
      modifies this`timeouts, this`count, this`lists, heap, this`queues, this`active, this`countActive, this`deadline, this`common
      modifies this`inserted, this`interval
      ensures |lists| == |old(lists)| && |queues| == |old(queues)|
      ensures ok <==> mapOk || !old(NeedsMap(x))
      ensures inserted == if ok && old(NeedsMap(x)) then old(inserted) + {x} else old(inserted)
      ensures if ok && tv.Some? then
                && x in timeouts && At(deadline, x) == tv.value.usec + (if absolute then 0 else now)
                && common == (if tv.value.common.Some? then old(common)[x := tv.value.common.value] else old(common) - {x})
                && interval == (if x in persist && !absolute then old(interval)[x := tv.value] else old(interval))
                && (x in active <==> x in old(active) && x !in byTimeout)
              else
                && timeouts == old(timeouts) && active == old(active) && deadline == old(deadline) && common == old(common) && interval == old(interval)
                && lists == old(lists) && queues == old(queues)
      ensures OnlyThis(old(Stands()), Stands(), x) && Valid()
    {
      hide At, Set, Outside, OnlyThis, EventBase.Valid;
      OnlyThisNone(Stands(), x);
      ok := Register(x, mapOk);
      if ok && tv.Some? {
        if x in persist && !absolute {
          Remember(x, tv.value);
        }
        AddTimed(x, tv.value.usec + if absolute then 0 else now, tv.value.common);
      }
    }

    /** Sets ev_io_timeout. */
    method Remember(x: Id, tv: Tv)
      requires Valid()
      modifies this`interval
      ensures Valid() && interval == old(interval)[x := tv]
    {
      hide QueuesOk, LaterOk, TimeOk, External, SumLen, TimedBut, Assigned, Apart, MinHeaps.MinHeap.Valid;
      interval := interval[x := tv];
    }

    /** Clears ev_io_timeout. */
    method Forget(x: Id)
      requires Valid()
      modifies this`interval
      ensures Valid() && interval == old(interval) - {x}
    {
      hide QueuesOk, LaterOk, TimeOk, External, SumLen, TimedBut, Assigned, Apart, MinHeaps.MinHeap.Valid;
      interval := interval - {x};
    }

    /** The backend part of event_add_nolock_. */
    method Register(x: Id, mapOk: bool) returns (ok: bool)
      requires Valid()
      modifies this`inserted, this`count
      ensures Valid() && (ok <==> mapOk || !old(NeedsMap(x)))
      ensures inserted == if ok && old(NeedsMap(x)) then old(inserted) + {x} else old(inserted)
    {
      hide EventBase.Core;
      if NeedsMap(x) {
        if !mapOk {
          return false;
        }
        InsertInserted(x);
      }
      ok := true;
    }

    /** event_del */
    method DelEvent(x: Id)
      requires Valid() && x !in timers
      modifies this`timeouts, this`count, this`lists, heap, this`queues, this`active, this`countActive
      modifies this`laterQueue, this`later, this`inserted
      ensures Valid() && |lists| == |old(lists)| && |queues| == |old(queues)|
      ensures timeouts == old(timeouts) - {x} && inserted == old(inserted) - {x}
      ensures active == old(active) - {x} && later == old(later) - {x} && laterQueue == Outside(old(laterQueue), {x})
      ensures forall c :: 0 <= c < |lists| ==> lists[c] == Outside(old(lists)[c], {x})
      ensures forall p :: 0 <= p < |queues| ==> queues[p] == Outside(old(queues)[p], {x})
    {
      hide Outside, TimedBut, Sorted, Assigned, Apart, EventBase.Core;
      ListsSorted();
      Del(x);
      TimedChange(old(lists), lists, timers, old(active), active, old(heap.content), heap.content, deadline, deadline, running, None, x);
    }

    /** event_remove_timer_nolock_ */
    method RemoveTimer(x: Id)
      requires Valid() && x !in timers
      modifies this`timeouts, this`count, this`lists, heap, this`interval
      ensures Valid() && timeouts == old(timeouts) - {x} && |lists| == |old(lists)|
      ensures interval == if x in old(timeouts) then old(interval) - {x} else old(interval)
      ensures forall c :: 0 <= c < |lists| ==> lists[c] == Outside(old(lists)[c], {x})
    {
      hide Outside, TimedBut, Sorted, Assigned, Apart, EventBase.Core;
      NotTimed(x);
      if x in timeouts {
        ListsSorted();
        RemoveTimeout(x);
        TimedChange(old(lists), lists, timers, active, active, old(heap.content), heap.content, deadline, deadline, running, None, x);
        Forget(x);
      }
    }

    /** An event whose time has come: event_del_nolock_, then event_active_nolock_. */
    method Fire(x: Id, ghost skip: Option<nat>)
      requires x in pri && Core() && TimersKnown() && Timed(skip)
      modifies this`timeouts, this`count, this`lists, heap, this`queues, this`active, this`countActive
      modifies this`laterQueue, this`later, this`inserted, this`byTimeout
      ensures |lists| == |old(lists)| && |queues| == |old(queues)|
      ensures timeouts == old(timeouts) - {x} && inserted == old(inserted) - {x} && heap.content == old(heap.content) - {x}
      ensures active == old(active) + {x} && later == old(later) - {x} && laterQueue == Outside(old(laterQueue), {x})
      ensures forall c :: 0 <= c < |lists| ==> lists[c] == Outside(old(lists)[c], {x})
      ensures forall p :: 0 <= p < |queues| ==> queues[p] == Outside(old(queues)[p], {x}) + if p == pri[x] then [x] else []
      ensures byTimeout == old(byTimeout) + {x}
      ensures Core() && TimersKnown() && Timed(skip)
    {
      hide TimedBut, Assigned, Apart, Sorted, Outside, At, EventBase.Core;
      ListsSorted();
      QueueOf(timers, pri, internal, plain + io + persist, |queues|, x);
      OutsideTwice(laterQueue, {x}, {x});
      assert {x} + {x} == {x};
      Del(x);
      ActivateEvent(x, true);
      assert byTimeout == (byTimeout - {x}) + {x};
      assert active == old(active) + {x};
      TimedFire(old(lists), lists, timers, old(active), old(heap.content), deadline, running, skip, x);
    }

    /** A heap entry whose time has come. */
    method FireTop(x: Id)
      requires x in heap.content && Valid()
      modifies this`timeouts, this`count, this`lists, heap, this`queues, this`active, this`countActive
      modifies this`laterQueue, this`later, this`inserted, this`byTimeout
      ensures x in pri && lists == old(lists) && |queues| == |old(queues)|
      ensures timeouts == old(timeouts) - {x} && inserted == old(inserted) - {x} && heap.content == old(heap.content) - {x}
      ensures active == old(active) + {x} && later == old(later) - {x} && laterQueue == Outside(old(laterQueue), {x})
      ensures forall p :: 0 <= p < |queues| ==> queues[p] == Outside(old(queues)[p], {x}) + if p == pri[x] then [x] else []
      ensures byTimeout == old(byTimeout) + {x}
      ensures Valid()
    {
      hide QueuesOk, LaterOk, TimeOk, External, SumLen, TimedBut, Assigned, Apart, MinHeaps.MinHeap.Valid, Outside;
      HeapTimes(heap.content, lists, timeouts, common, deadline);
      NotListed(heap.content, lists, timeouts, common, deadline, x);
      Fire(x, None);
      assert lists == old(lists);
    }

    /** min_heap_top_ of the timeouts in the heap */
    method Earliest() returns (top: Option<Id>)
      requires Valid()
      ensures top.None? <==> heap.content == map[]
      ensures top.Some? ==> top.value in heap.content && forall x :: x in heap.content ==> At(deadline, top.value) <= At(deadline, x)
    {
      hide QueuesOk, LaterOk, TimeOk, External, SumLen, TimedBut, Assigned, Apart, MinHeaps.MinHeap.Valid, At;
      HeapTimes(heap.content, lists, timeouts, common, deadline);
      top := heap.Top();
    }

    ghost function Stands(): Standing
      reads this
    {
      Standing(timers, timeouts, deadline, active, queues, lists)
    }

    /** All that a caller can tell of the state; counters and the heap follow from it by `Core`. */
    function AsView(): View
      reads this
    {
      View(pri, plain, io, persist, inserted, timeouts, active, later, byTimeout, deadline, common, interval,
           lists, timers, durations, queues, laterQueue, deferreds, running)
    }

    ghost function Now(): Snapshot
      reads this, heap
    {
      Snapshot(heap.content, timeouts, inserted, active, later, byTimeout, queues, laterQueue)
    }

    /** timeout_process: exactly the heap entries that are due become active, each priority's at the end
        of its queue in the order of their deadlines; and whatever is still overdue waits in the list of
        a common timeout whose timer is about to run. */
    method TimeoutProcess(now: int) returns (ghost fired: seq<Id>)
      requires Valid()
      modifies this`timeouts, this`count, this`lists, heap, this`queues, this`active, this`countActive
      modifies this`laterQueue, this`later, this`inserted, this`byTimeout
      ensures NoDup(fired) && Sorted(fired, deadline) && (forall x :: x in fired <==> x in old(heap.content) && At(deadline, x) <= now)
      ensures After(old(Now()), Now(), fired, pri) && lists == old(lists)
      ensures forall x :: x in timeouts && At(deadline, x) <= now ==>
                x in common && common[x] < |timers| && (running == Some(common[x]) || timers[common[x]] in active)
      ensures Valid()
    {
      hide At, After, Progress, NoDup, Sorted, EventBase.Valid, EventBase.Now;
      fired := [];
      AfterNone(Now(), pri);
      ProgressNone(heap.content, deadline, now);
      while true
        invariant After(old(Now()), Now(), fired, pri) && lists == old(lists)
        invariant Progress(old(heap.content), heap.content, fired, deadline, now)
        invariant Valid()
        decreases |heap.content|
      {
        var top := Earliest();
        if top.None? || At(deadline, top.value) > now {
          break;
        }
        ProgressStep(old(heap.content), heap.content, fired, deadline, now, top.value);
        FireNext(old(Now()), fired, top.value);
        fired := fired + [top.value];
      }
      ProgressDone(old(heap.content), heap.content, fired, deadline, now);
      Overdue(now);
    }

    method FireNext(ghost start: Snapshot, ghost fired: seq<Id>, x: Id)
      requires After(start, Now(), fired, pri) && x !in fired && x in heap.content && Valid()
      modifies this`timeouts, this`count, this`lists, heap, this`queues, this`active, this`countActive
      modifies this`laterQueue, this`later, this`inserted, this`byTimeout
      ensures After(start, Now(), fired + [x], pri) && heap.content == old(heap.content) - {x} && lists == old(lists)
      ensures Valid()
    {
      hide After, Outside, EventBase.Valid;
      FireTop(x);
      AfterStep(start, old(Now()), Now(), fired, x, pri);
    }

    /** With the heap's due entries gone, what is overdue is in a list whose timer is active or running. */
    lemma {:induction false} Overdue(now: int)
      requires Valid() && forall x :: x in heap.content ==> At(deadline, x) > now
      ensures forall x :: x in timeouts && At(deadline, x) <= now ==>
                x in common && common[x] < |timers| && (running == Some(common[x]) || timers[common[x]] in active)
    {
      hide QueuesOk, LaterOk, External, SumLen, Assigned, Apart, MinHeaps.MinHeap.Valid, At;
      forall x | x in timeouts && At(deadline, x) <= now
        ensures x in common && common[x] < |timers| && (running == Some(common[x]) || timers[common[x]] in active)
      {
        var l := lists[common[x]];
        FirstIsLeast(l, deadline, x);
        if running != Some(common[x]) {
          assert Covered(timers[common[x]], l[0], active, heap.content, deadline);
        }
      }
    }

    /** Sets ev_res, or adds to it. */
    method SetResult(x: Id, timedOut: bool, overwrite: bool)
      requires Valid()
      modifies this`byTimeout
      ensures byTimeout == (if timedOut then old(byTimeout) + {x} else if overwrite then old(byTimeout) - {x} else old(byTimeout)) && Valid()
    {
      hide QueuesOk, LaterOk, TimeOk, External, SumLen, TimedBut, Assigned, Apart, MinHeaps.MinHeap.Valid;
      if timedOut {
        byTimeout := byTimeout + {x};
      } else if overwrite {
        byTimeout := byTimeout - {x};
      }
    }

    method CountDeferred(n: nat)
      requires Valid()
      modifies this`deferreds
      ensures deferreds == old(deferreds) + n && Valid()
    {
      hide QueuesOk, LaterOk, TimeOk, External, SumLen, TimedBut, Assigned, Apart, MinHeaps.MinHeap.Valid;
      deferreds := deferreds + n;
    }

    /** The start of a round of event_base_loop. */
    method ResetDeferreds()
      requires Valid()
      modifies this`deferreds
      ensures deferreds == 0 && Valid()
    {
      hide QueuesOk, LaterOk, TimeOk, External, SumLen, TimedBut, Assigned, Apart, MinHeaps.MinHeap.Valid;
      deferreds := 0;
    }

    /** One round of event_queue_make_later_events_active: no counter changes. */
    method PromoteFirst()
      requires Core() && laterQueue != []
      modifies this`laterQueue, this`later, this`active, this`queues
      ensures var x := old(laterQueue)[0];
              && x in pri && pri[x] < |old(queues)| && queues == old(queues)[pri[x] := old(queues)[pri[x]] + [x]]
              && laterQueue == old(laterQueue)[1..] && later == old(later) - {x} && active == old(active) + {x}
      ensures Core()
    {
      hide QueuesOk, TimeOk, External, SumLen, Outside, MinHeaps.MinHeap.Valid;
      var x := laterQueue[0];
      assert x in laterQueue;
      Enqueue(queues, active, pri, x);
      LeaveLater(laterQueue, later, x);
      OutsideOne(laterQueue, x);
      ExternalChange(active, internal, x);
      ExternalChange(later - {x}, internal, x);
      assert later - {x} + {x} == later;
      laterQueue := laterQueue[1..];
      later := later - {x};
      active := active + {x};
      queues := queues[pri[x] := queues[pri[x]] + [x]];
    }

    /** event_assign, for a callback that is new to the base */
    method Assign(x: Id, p: nat, isPlain: bool, onFd: bool, persists: bool)
      requires Valid() && Unknown(x) && p < |queues|
      modifies this`pri, this`plain, this`io, this`persist
      ensures Valid() && pri == old(pri)[x := p]
      ensures plain == (if isPlain then old(plain) + {x} else old(plain)) && io == (if onFd then old(io) + {x} else old(io))
      ensures persist == if persists then old(persist) + {x} else old(persist)
    {
      hide EventBase.Valid;
      Enter(x, p);
      Mark(x, isPlain, onFd, persists);
    }

    /** The callback gets a priority. */
    method Enter(x: Id, p: nat)
      requires Valid() && Unknown(x) && p < |queues|
      modifies this`pri
      ensures Valid() && pri == old(pri)[x := p] && x !in timers
    {
      hide QueuesOk, LaterOk, TimeOk, External, SumLen, TimedBut, Assigned, Apart, MinHeaps.MinHeap.Valid;
      AssignQueues(queues, active, pri, x, p);
      AssignMore(timers, pri, internal, plain + io + persist, |queues|, x, p);
      pri := pri[x := p];
    }

    /** The callback gets its attributes. */
    method Mark(x: Id, isPlain: bool, onFd: bool, persists: bool)
      requires Valid() && x !in timers
      modifies this`plain, this`io, this`persist
      ensures Valid()
      ensures plain == (if isPlain then old(plain) + {x} else old(plain)) && io == (if onFd then old(io) + {x} else old(io))
      ensures persist == if persists then old(persist) + {x} else old(persist)
    {
      hide QueuesOk, LaterOk, TimeOk, External, SumLen, TimedBut, Assigned, Apart, MinHeaps.MinHeap.Valid;
      ghost var others := plain + io + persist;
      plain := if isPlain then plain + {x} else plain;
      io := if onFd then io + {x} else io;
      persist := if persists then persist + {x} else persist;
      MarkMore(timers, pri, internal, others, plain + io + persist, |queues|, x);
    }

    /** event_base_init_common_timeout: one list for each length, at most 256 of them. `t` is the new
        internal timer. */
    method InitCommon(duration: int, t: Id) returns (c: Option<nat>)
      requires Unknown(t) && Valid()
      modifies this`pri, this`internal, this`lists, this`timers, this`durations
      ensures c.None? <==> duration !in old(durations) && |old(durations)| == MAX_COMMON_TIMEOUTS
      ensures c.Some? ==> c.value < |lists| == |durations| && durations[c.value] == duration
      ensures c.None? || duration in old(durations) ==> lists == old(lists) && timers == old(timers) && durations == old(durations) && pri == old(pri)
      ensures c.Some? && duration !in old(durations) ==>
                lists == old(lists) + [[]] && timers == old(timers) + [t] && durations == old(durations) + [duration] && pri == old(pri)[t := 0]
      ensures Valid()
    {
      hide QueuesOk, LaterOk, TimeOk, External, SumLen, TimedBut, Assigned, Apart, MinHeaps.MinHeap.Valid;
      var i := 0;
      while i < |durations|
        invariant i <= |durations| && duration !in durations[..i]
        modifies {}
      {
        if durations[i] == duration {
          return Some(i);
        }
        i := i + 1;
      }
      assert durations[..i] == durations;
      if |durations| == MAX_COMMON_TIMEOUTS {
        return None;
      }
      c := Some(|durations|);
      NewCommon(duration, t);
    }

    method NewCommon(duration: int, t: Id)
      requires Unknown(t) && Valid()
      modifies this`pri, this`internal, this`lists, this`timers, this`durations
      ensures lists == old(lists) + [[]] && timers == old(timers) + [t] && durations == old(durations) + [duration] && pri == old(pri)[t := 0]
      ensures Valid()
    {
      hide EventBase.Valid;
      NotYet(t);
      Enter(t, 0);
      MakeInternal(t);
      AddList(duration, t);
    }

    method MakeInternal(t: Id)
      requires t !in inserted && t !in timeouts && t !in active && t !in later && Valid()
      modifies this`internal
      ensures internal == old(internal) + {t} && Valid()
    {
      hide QueuesOk, LaterOk, TimeOk, External, SumLen, TimedBut, Assigned, Apart, MinHeaps.MinHeap.Valid;
      NewCounts(t);
      MoreInternal(timers, pri, internal, plain + io + persist, |queues|, t);
      internal := internal + {t};
    }

    method AddList(duration: int, t: Id)
      requires t in pri && pri[t] == 0 && t in internal && t !in timers && t !in plain + io + persist && t !in common && Valid()
      modifies this`lists, this`timers, this`durations
      ensures lists == old(lists) + [[]] && timers == old(timers) + [t] && durations == old(durations) + [duration] && Valid()
    {
      hide QueuesOk, LaterOk, TimeOk, External, SumLen, TimedBut, Assigned, Apart, MinHeaps.MinHeap.Valid;
      NewTimer(timers, pri, internal, plain + io + persist, |queues|, common, t);
      NewList(heap.content, lists, timeouts, common, deadline);
      NewTimed(lists, timers, active, heap.content, deadline, running, t);
      timers, lists, durations := timers + [t], lists + [[]], durations + [duration];
    }

    lemma {:induction false} NotYet(t: Id)
      requires Unknown(t) && Valid()
      ensures t !in timeouts && t !in active && t !in later && |queues| > 0
    {
      hide LaterOk, TimeOk, External, SumLen, TimedBut, Assigned, Apart, MinHeaps.MinHeap.Valid;
    }

    /** A callback on no list may become internal. */
    lemma {:induction false} NewCounts(t: Id)
      requires t !in inserted && t !in timeouts && t !in active && t !in later
      ensures External(inserted, internal + {t}) == External(inserted, internal) && External(timeouts, internal + {t}) == External(timeouts, internal)
      ensures External(active, internal + {t}) == External(active, internal) && External(later, internal + {t}) == External(later, internal)
    {
      assert inserted - (internal + {t}) == inserted - internal;
      assert timeouts - (internal + {t}) == timeouts - internal;
      assert active - (internal + {t}) == active - internal;
      assert later - (internal + {t}) == later - internal;
    }
  }

  const MAX_COMMON_TIMEOUTS := 256

  lemma {:induction false} MoreInternal(timers: seq<Id>, pri: map<Id, nat>, internal: set<Id>, others: set<Id>, priorities: nat, t: Id)
    requires Assigned(timers, pri, internal, others, priorities)
    ensures Assigned(timers, pri, internal + {t}, others, priorities)
  {
  }

  lemma {:induction false} NewTimer(timers: seq<Id>, pri: map<Id, nat>, internal: set<Id>, others: set<Id>, priorities: nat, common: map<Id, nat>, t: Id)
    requires Assigned(timers, pri, internal, others, priorities) && Apart(timers, common)
    requires t in pri && pri[t] == 0 && t in internal && t !in timers && t !in others && t !in common
    ensures Assigned(timers + [t], pri, internal, others, priorities) && Apart(timers + [t], common)
  {
  }

  lemma {:induction false} NewList(heap: map<Id, int>, lists: seq<seq<Id>>, timeouts: set<Id>, common: map<Id, nat>, deadline: map<Id, int>)
    requires TimeOk(heap, lists, timeouts, common, deadline)
    ensures TimeOk(heap, lists + [[]], timeouts, common, deadline)
  {
    hide NoDup, Sorted, At;
    NoneSorted(deadline);
    assert forall c :: 0 <= c < |lists| ==> (lists + [[]])[c] == lists[c];
  }

  lemma {:induction false} NoneSorted(deadline: map<Id, int>)
    ensures NoDup([]) && Sorted([], deadline)
  {
  }

  lemma {:induction false} NewTimed(lists: seq<seq<Id>>, timers: seq<Id>, active: set<Id>, heap: map<Id, int>, deadline: map<Id, int>, running: Option<nat>, t: Id)
    requires TimedBut(lists, timers, active, heap, deadline, running, None)
    ensures TimedBut(lists + [[]], timers + [t], active, heap, deadline, running, None)
  {
    hide Covered;
    assert forall c :: 0 <= c < |lists| ==> (lists + [[]])[c] == lists[c] && (timers + [t])[c] == timers[c];
  }

  lemma {:induction false} MarkMore(timers: seq<Id>, pri: map<Id, nat>, internal: set<Id>, others: set<Id>, more: set<Id>, priorities: nat, x: Id)
    requires Assigned(timers, pri, internal, others, priorities) && x !in timers && more <= others + {x}
    ensures Assigned(timers, pri, internal, more, priorities)
  {
  }

  lemma {:induction false} AssignMore(timers: seq<Id>, pri: map<Id, nat>, internal: set<Id>, others: set<Id>, priorities: nat, x: Id, p: nat)
    requires Assigned(timers, pri, internal, others, priorities) && x !in pri && p < priorities
    ensures Assigned(timers, pri[x := p], internal, others, priorities) && x !in timers
  {
  }

  lemma {:induction false} AssignQueues(queues: seq<seq<Id>>, active: set<Id>, pri: map<Id, nat>, x: Id, p: nat)
    requires QueuesOk(queues, active, pri) && x !in pri
    ensures QueuesOk(queues, active, pri[x := p]) && x !in active
  {
  }

  /** The queues after `fired` fired: nobody is queued twice, and the rest keeps its order. */
  ghost predicate QueuesAfter(before: seq<seq<Id>>, after: seq<seq<Id>>, fired: seq<Id>, pri: map<Id, nat>) {
    |after| == |before| && forall p :: 0 <= p < |before| ==> after[p] == Outside(before[p], Set(fired)) + Of(fired, pri, p)
  }

  datatype View = View(pri: map<Id, nat>, plain: set<Id>, io: set<Id>, persist: set<Id>,
                       inserted: set<Id>, timeouts: set<Id>, active: set<Id>, later: set<Id>, byTimeout: set<Id>,
                       deadline: map<Id, int>, common: map<Id, nat>, interval: map<Id, Tv>,
                       lists: seq<seq<Id>>, timers: seq<Id>, durations: seq<int>,
                       queues: seq<seq<Id>>, laterQueue: seq<Id>, deferreds: nat, running: Option<nat>)

  /** A base without callbacks. */
  function NewView(priorities: nat): View {
    View(map[], {}, {}, {}, {}, {}, {}, {}, {}, map[], map[], map[], [], [], [], seq(priorities, _ => []), [], 0, None)
  }

  /** Where the events stand: timeouts, deadlines and places in queues and lists. */
  datatype Standing = Standing(timers: seq<Id>, timeouts: set<Id>, deadline: map<Id, int>, active: set<Id>,
                               queues: seq<seq<Id>>, lists: seq<seq<Id>>)

  /** Nothing about the other events changed, the timers of common timeouts excepted. */
  ghost predicate OnlyThis(v: Standing, w: Standing, x: Id) {
    && w.timers == v.timers && |w.queues| == |v.queues| && |w.lists| == |v.lists|
    && (forall y :: y != x && y !in v.timers ==>
          && (y in w.timeouts <==> y in v.timeouts) && At(w.deadline, y) == At(v.deadline, y) && (y in w.active <==> y in v.active))
    && (forall p :: 0 <= p < |v.queues| ==> Outside(w.queues[p], {x} + Set(v.timers)) == Outside(v.queues[p], {x} + Set(v.timers)))
    && (forall c :: 0 <= c < |v.lists| ==> Outside(w.lists[c], {x}) == Outside(v.lists[c], {x}))
  }

  lemma {:induction false} OnlyThisTwice(u: Standing, v: Standing, w: Standing, x: Id)
    requires OnlyThis(u, v, x) && OnlyThis(v, w, x)
    ensures OnlyThis(u, w, x)
  {
    hide At, Outside, Set;
  }

  lemma {:induction false} OnlyThisNone(v: Standing, x: Id)
    ensures OnlyThis(v, v, x)
  {
  }

  /** The part of a base that firing timeouts changes. */
  datatype Snapshot = Snapshot(heap: map<Id, int>, timeouts: set<Id>, inserted: set<Id>, active: set<Id>, later: set<Id>,
                               byTimeout: set<Id>, queues: seq<seq<Id>>, laterQueue: seq<Id>)

  /** `fired` are off the timeouts, the backend and the later queue, and are active. */
  ghost predicate After(s: Snapshot, t: Snapshot, fired: seq<Id>, pri: map<Id, nat>) {
    && t.heap == s.heap - Set(fired) && t.timeouts == s.timeouts - Set(fired) && t.inserted == s.inserted - Set(fired)
    && t.active == s.active + Set(fired) && t.later == s.later - Set(fired) && t.byTimeout == s.byTimeout + Set(fired)
    && QueuesAfter(s.queues, t.queues, fired, pri) && t.laterQueue == Outside(s.laterQueue, Set(fired))
  }

  lemma {:induction false} AfterNone(s: Snapshot, pri: map<Id, nat>)
    ensures After(s, s, [], pri)
  {
    OutsideNone(s.laterQueue, Set([]));
    forall p | 0 <= p < |s.queues|
      ensures Outside(s.queues[p], Set([])) == s.queues[p]
    {
      OutsideNone(s.queues[p], Set([]));
    }
  }

  lemma {:induction false} AfterStep(s: Snapshot, t: Snapshot, u: Snapshot, fired: seq<Id>, x: Id, pri: map<Id, nat>)
    requires After(s, t, fired, pri) && x !in fired && x in pri && |u.queues| == |t.queues|
    requires u.heap == t.heap - {x} && u.timeouts == t.timeouts - {x} && u.inserted == t.inserted - {x}
    requires u.active == t.active + {x} && u.later == t.later - {x} && u.laterQueue == Outside(t.laterQueue, {x})
    requires u.byTimeout == t.byTimeout + {x}
    requires forall p :: 0 <= p < |t.queues| ==> u.queues[p] == Outside(t.queues[p], {x}) + if p == pri[x] then [x] else []
    ensures After(s, u, fired + [x], pri)
  {
    hide Outside, QueuesAfter, Set;
    SetSnoc(fired, x);
    QueuesStep(s.queues, t.queues, u.queues, fired, x, pri);
    FireLater(s.laterQueue, fired, x);
    assert u.heap == s.heap - Set(fired + [x]);
  }

  lemma {:induction false} QueuesStep(before: seq<seq<Id>>, mid: seq<seq<Id>>, after: seq<seq<Id>>, fired: seq<Id>, x: Id, pri: map<Id, nat>)
    requires QueuesAfter(before, mid, fired, pri) && |after| == |mid| && x !in fired && x in pri
    requires forall p :: 0 <= p < |mid| ==> after[p] == Outside(mid[p], {x}) + if p == pri[x] then [x] else []
    ensures QueuesAfter(before, after, fired + [x], pri)
  {
    hide Outside, Of, Set;
    forall p | 0 <= p < |before|
      ensures after[p] == Outside(before[p], Set(fired + [x])) + Of(fired + [x], pri, p)
    {
      FireQueue(before[p], fired, x, pri, p);
    }
  }

  /** The heap entries fired so far were due, came in order, and none that is left was earlier. */
  ghost predicate Progress(start: map<Id, int>, left: map<Id, int>, fired: seq<Id>, deadline: map<Id, int>, now: int) {
    && NoDup(fired) && Sorted(fired, deadline)
    && (forall x :: x in start <==> x in fired || x in left)
    && (forall x :: x in fired ==> x !in left && At(deadline, x) <= now)
    && (forall x, y :: x in fired && y in left ==> At(deadline, x) <= At(deadline, y))
  }

  lemma {:induction false} ProgressNone(start: map<Id, int>, deadline: map<Id, int>, now: int)
    ensures Progress(start, start, [], deadline, now)
  {
  }

  lemma {:induction false} ProgressStep(start: map<Id, int>, left: map<Id, int>, fired: seq<Id>, deadline: map<Id, int>, now: int, x: Id)
    requires Progress(start, left, fired, deadline, now) && x in left && At(deadline, x) <= now
    requires forall y :: y in left ==> At(deadline, x) <= At(deadline, y)
    ensures Progress(start, left - {x}, fired + [x], deadline, now) && x !in fired
  {
    hide At;
  }

  lemma {:induction false} ProgressDone(start: map<Id, int>, left: map<Id, int>, fired: seq<Id>, deadline: map<Id, int>, now: int)
    requires Progress(start, left, fired, deadline, now) && forall y :: y in left ==> At(deadline, y) > now
    ensures NoDup(fired) && Sorted(fired, deadline) && forall x :: x in fired <==> x in start && At(deadline, x) <= now
  {
    hide At;
  }

  lemma {:induction false} HeapTimes(heap: map<Id, int>, lists: seq<seq<Id>>, timeouts: set<Id>, common: map<Id, nat>, deadline: map<Id, int>)
    requires TimeOk(heap, lists, timeouts, common, deadline)
    ensures forall x :: x in heap ==> heap[x] == At(deadline, x) && x in timeouts && x !in common
  {
  }

  /** The callbacks of priority `p`, in order. */
  function Of(l: seq<Id>, pri: map<Id, nat>, p: nat): seq<Id> {
    if l == [] then []
    else
      var x := l[|l| - 1];
      Of(l[..|l| - 1], pri, p) + if x in pri && pri[x] == p then [x] else []
  }

  lemma {:induction false} OfMembers(l: seq<Id>, pri: map<Id, nat>, p: nat)
    ensures forall x :: x in Of(l, pri, p) <==> x in l && x in pri && pri[x] == p
  {
    if l != [] {
      OfMembers(l[..|l| - 1], pri, p);
      assert l == l[..|l| - 1] + [l[|l| - 1]];
    }
  }

  lemma {:induction false} OfSnoc(l: seq<Id>, x: Id, pri: map<Id, nat>, p: nat)
    ensures Of(l + [x], pri, p) == Of(l, pri, p) + if x in pri && pri[x] == p then [x] else []
  {
    assert (l + [x])[..|l|] == l;
  }

  ghost function Set(l: seq<Id>): set<Id> {
    set x | x in l
  }

  lemma {:induction false} SetSnoc(l: seq<Id>, x: Id)
    ensures Set(l + [x]) == Set(l) + {x} && (forall y :: y in Set(l) <==> y in l) && Set([]) == {}
  {
  }

  /** A queue after one more callback has fired. */
  lemma {:induction false} FireQueue(q: seq<Id>, fired: seq<Id>, x: Id, pri: map<Id, nat>, p: nat)
    requires x !in fired && x in pri
    ensures Outside(Outside(q, Set(fired)) + Of(fired, pri, p), {x}) + (if p == pri[x] then [x] else [])
            == Outside(q, Set(fired + [x])) + Of(fired + [x], pri, p)
  {
    hide Outside, Of;
    OutsideAppend(Outside(q, Set(fired)), Of(fired, pri, p), {x});
    OutsideTwice(q, Set(fired), {x});
    OfMembers(fired, pri, p);
    OutsideNone(Of(fired, pri, p), {x});
    OfSnoc(fired, x, pri, p);
    assert Set(fired + [x]) == Set(fired) + {x};
    Assoc(Outside(q, Set(fired + [x])), Of(fired, pri, p), if p == pri[x] then [x] else []);
  }

  lemma {:induction false} FireLater(q: seq<Id>, fired: seq<Id>, x: Id)
    ensures Outside(Outside(q, Set(fired)), {x}) == Outside(q, Set(fired + [x]))
  {
    OutsideTwice(q, Set(fired), {x});
    assert Set(fired + [x]) == Set(fired) + {x};
  }

  lemma {:induction false} QueueOf(timers: seq<Id>, pri: map<Id, nat>, internal: set<Id>, others: set<Id>, priorities: nat, x: Id)
    requires Assigned(timers, pri, internal, others, priorities) && x in pri
    ensures pri[x] < priorities
  {
  }

  /** Taking `x` out first does not matter where it is left out anyway. */
  lemma {:induction false} QueuesWithout(queues: seq<seq<Id>>, x: Id, gone: set<Id>)
    ensures x in gone ==> forall p :: 0 <= p < |queues| ==> Outside(Outside(queues[p], {x}), gone) == Outside(queues[p], gone)
  {
    if x in gone {
      assert {x} + gone == gone;
      forall p | 0 <= p < |queues|
        ensures Outside(Outside(queues[p], {x}), gone) == Outside(queues[p], gone)
      {
        OutsideTwice(queues[p], {x}, gone);
      }
    }
  }

  lemma {:induction false} InSet(l: seq<Id>, i: nat)
    requires i < |l|
    ensures l[i] in Set(l)
  {
  }

  lemma {:induction false} OtherDeadlines(deadline: map<Id, int>, x: Id, at: int)
    ensures At(deadline[x := at], x) == at && forall y :: y != x ==> At(deadline[x := at], y) == At(deadline, y)
  {
  }

  lemma {:induction false} Lists(heap: map<Id, int>, lists: seq<seq<Id>>, timeouts: set<Id>, common: map<Id, nat>, deadline: map<Id, int>)
    requires TimeOk(heap, lists, timeouts, common, deadline)
    ensures forall c :: 0 <= c < |lists| ==> Sorted(lists[c], deadline) && NoDup(lists[c])
  {
  }

  /** An event without a common timeout is in no list. */
  lemma {:induction false} NotListed(heap: map<Id, int>, lists: seq<seq<Id>>, timeouts: set<Id>, common: map<Id, nat>, deadline: map<Id, int>, x: Id)
    requires TimeOk(heap, lists, timeouts, common, deadline) && x !in common
    ensures forall c :: 0 <= c < |lists| ==> x !in lists[c] && Outside(lists[c], {x}) == lists[c]
  {
    forall c | 0 <= c < |lists|
      ensures x !in lists[c] && Outside(lists[c], {x}) == lists[c]
    {
      OutsideNone(lists[c], {x});
    }
  }

  lemma {:induction false} NotLater(queue: seq<Id>, later: set<Id>, x: Id)
    requires LaterOk(queue, later)
    ensures x !in later ==> Outside(queue, {x}) == queue
  {
    if x !in later {
      OutsideNone(queue, {x});
    }
  }

  lemma {:induction false} NotInOthers(queues: seq<seq<Id>>, active: set<Id>, pri: map<Id, nat>, x: Id)
    requires QueuesOk(queues, active, pri)
    ensures x in active ==> x in pri && pri[x] < |queues|
    ensures forall p :: 0 <= p < |queues| && !(x in active && p == pri[x]) ==> Outside(queues[p], {x}) == queues[p]
  {
    forall p | 0 <= p < |queues| && !(x in active && p == pri[x])
      ensures Outside(queues[p], {x}) == queues[p]
    {
      OutsideNone(queues[p], {x});
    }
  }

  lemma {:induction false} ListOk(heap: map<Id, int>, lists: seq<seq<Id>>, timeouts: set<Id>, common: map<Id, nat>, deadline: map<Id, int>, c: nat)
    requires TimeOk(heap, lists, timeouts, common, deadline) && c < |lists|
    ensures NoDup(lists[c]) && Sorted(lists[c], deadline) && forall x :: x in lists[c] ==> x in timeouts
  {
  }

  /** A callback without a timeout is in no list, and not in the heap. */
  lemma {:induction false} ListsWithout(heap: map<Id, int>, lists: seq<seq<Id>>, timeouts: set<Id>, common: map<Id, nat>, deadline: map<Id, int>, x: Id)
    requires TimeOk(heap, lists, timeouts, common, deadline) && x !in timeouts
    ensures x !in heap && forall c :: 0 <= c < |lists| ==> x !in lists[c] && Outside(lists[c], {x}) == lists[c]
  {
    forall c | 0 <= c < |lists|
      ensures x !in lists[c] && Outside(lists[c], {x}) == lists[c]
    {
      OutsideNone(lists[c], {x});
    }
  }

  /** A callback is in no list but its own. */
  lemma {:induction false} ListsOthers(heap: map<Id, int>, lists: seq<seq<Id>>, timeouts: set<Id>, common: map<Id, nat>, deadline: map<Id, int>, x: Id)
    requires TimeOk(heap, lists, timeouts, common, deadline) && x in timeouts
    ensures forall c :: 0 <= c < |lists| && !(x in common && common[x] == c) ==> Outside(lists[c], {x}) == lists[c]
    ensures x in common <==> x !in heap
  {
    forall c | 0 <= c < |lists| && !(x in common && common[x] == c)
      ensures Outside(lists[c], {x}) == lists[c]
    {
      OutsideNone(lists[c], {x});
    }
  }
}
