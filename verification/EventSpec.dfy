/** event.c: the steps of an event base on plain values. */
module EventSpec {
  import opened Basics
  import opened EventLists
  import opened EventBases

  const MAX_DEFERREDS_QUEUED := 32

  /** Every list without the callbacks in `gone`. */
  function Each(lists: seq<seq<Id>>, gone: set<Id>): (r: seq<seq<Id>>)
    ensures |r| == |lists| && forall i :: 0 <= i < |lists| ==> r[i] == Outside(lists[i], gone)
  {
    seq(|lists|, i requires 0 <= i < |lists| => Outside(lists[i], gone))
  }

  /** event_assign */
  function Registered(v: View, x: Id, p: nat, isPlain: bool, onFd: bool, persists: bool): View {
    v.(pri := v.pri[x := p], plain := if isPlain then v.plain + {x} else v.plain,
       io := if onFd then v.io + {x} else v.io, persist := if persists then v.persist + {x} else v.persist)
  }

  /** event_base_init_common_timeout */
  function WithCommon(v: View, d: int, t: Id): View {
    if d in v.durations || |v.durations| == MAX_COMMON_TIMEOUTS then v
    else v.(lists := v.lists + [[]], timers := v.timers + [t], durations := v.durations + [d], pri := v.pri[t := 0])
  }

  /** event_del: off every list. */
  function Deleted(v: View, x: Id): View {
    v.(timeouts := v.timeouts - {x}, inserted := v.inserted - {x}, active := v.active - {x}, later := v.later - {x},
       lists := Each(v.lists, {x}), queues := Each(v.queues, {x}), laterQueue := Outside(v.laterQueue, {x}))
  }

  /** event_remove_timer */
  function TimerRemoved(v: View, x: Id): View {
    v.(timeouts := v.timeouts - {x}, lists := Each(v.lists, {x}), interval := if x in v.timeouts then v.interval - {x} else v.interval)
  }

  /** At the end of its queue, unless it is active already. */
  function Activated(v: View, x: Id): View
    requires x in v.pri && v.pri[x] < |v.queues|
  {
    v.(active := v.active + {x}, later := v.later - {x}, laterQueue := Outside(v.laterQueue, {x}),
       queues := if x in v.active then v.queues else v.queues[v.pri[x] := v.queues[v.pri[x]] + [x]])
  }

  /** At the end of the later queue, unless it is active or there already. */
  function Postponed(v: View, x: Id): View {
    if x in v.active || x in v.later then v else v.(later := v.later + {x}, laterQueue := v.laterQueue + [x])
  }

  /** event_deferred_cb_schedule_: a callback beyond the quota of this round waits for the next one. */
  function Deferred(v: View, x: Id): View
    requires x in v.pri && v.pri[x] < |v.queues|
  {
    if v.deferreds <= MAX_DEFERREDS_QUEUED then
      Activated(v, x).(deferreds := v.deferreds + if x in v.active || x in v.later then 0 else 1)
    else Postponed(v, x)
  }

  /** The result bits after event_active and event_active_later_, with EV_TIMEOUT or without. */
  function ResultSet(v: View, x: Id, timedOut: bool): set<Id> {
    if timedOut then v.byTimeout + {x}
    else if x in v.active || x in v.later then v.byTimeout
    else v.byTimeout - {x}
  }

  /** The start of a round of event_base_loop. */
  function RoundBegun(v: View): View {
    v.(deferreds := 0)
  }

  predicate NeedsMap(v: View, x: Id) {
    x in v.io && x !in v.inserted && x !in v.active && x !in v.later
  }

  function StandsIn(v: View): Standing {
    Standing(v.timers, v.timeouts, v.deadline, v.active, v.queues, v.lists)
  }

  /** event_add_nolock_ */
  ghost predicate Added(v: View, w: View, x: Id, tv: Option<Tv>, absolute: bool, now: int, mapOk: bool) {
    var ok := mapOk || !NeedsMap(v, x);
    var ins := if ok && NeedsMap(v, x) then v.inserted + {x} else v.inserted;
    if !ok || tv.None? then w == v.(inserted := ins)
    else
      && w == v.(inserted := ins,
                 common := if tv.value.common.Some? then v.common[x := tv.value.common.value] else v.common - {x},
                 interval := if x in v.persist && !absolute then v.interval[x := tv.value] else v.interval,
                 timeouts := w.timeouts, deadline := w.deadline, active := w.active, queues := w.queues, lists := w.lists)
      && x in w.timeouts && At(w.deadline, x) == tv.value.usec + (if absolute then 0 else now)
      && (x in w.active <==> x in v.active && x !in v.byTimeout)
      && OnlyThis(StandsIn(v), StandsIn(w), x)
  }

  /** When a persistent event runs next: from its last deadline if that fired and the next one is not past. */
  function NextRun(v: View, x: Id, usec: int, now: int): int {
    var onTime := At(v.deadline, x) + usec;
    if x in v.byTimeout && onTime >= now then onTime else now + usec
  }

  /** The rescheduling part of event_persist_closure */
  ghost predicate Persisted(v: View, w: View, x: Id, now: int, mapOk: bool) {
    if x in v.interval && (v.interval[x].usec != 0 || v.interval[x].common.Some?) then
      Added(v, w, x, Some(Tv(NextRun(v, x, v.interval[x].usec, now), v.interval[x].common)), true, now, mapOk)
    else w == v
  }

  /** The first callback of queue `p` leaves it; an event that is not persistent leaves every list. */
  ghost predicate Taken(v: View, w: View, p: nat)
    requires p < |v.queues| && v.queues[p] != []
  {
    var x := v.queues[p][0];
    && w == (if x in v.plain + v.persist then v.(active := v.active - {x}) else Deleted(v, x))
            .(queues := v.queues[p := v.queues[p][1..]], running := w.running)
    && (if x in v.timers then w.running.Some? && w.running.value < |v.timers| && v.timers[w.running.value] == x else w.running.None?)
  }

  /** `fired` are off every other list and at the end of their queues. */
  ghost predicate TimedOut(v: View, w: View, fired: seq<Id>) {
    && w == v.(timeouts := v.timeouts - Set(fired), inserted := v.inserted - Set(fired), active := v.active + Set(fired),
               later := v.later - Set(fired), byTimeout := v.byTimeout + Set(fired),
               queues := w.queues, laterQueue := Outside(v.laterQueue, Set(fired)))
    && QueuesAfter(v.queues, w.queues, fired, v.pri)
  }

  /** timeout_process: the due heap entries, in deadline order. */
  ghost predicate Expired(v: View, w: View, now: int) {
    exists fired :: NoDup(fired) && Sorted(fired, v.deadline)
                    && (forall x :: x in fired <==> x in v.timeouts && x !in v.common && At(v.deadline, x) <= now)
                    && TimedOut(v, w, fired)
  }

  /** The queues after `fired` fired, whatever became of the timer `t`. */
  ghost predicate QueuesAfterBut(before: seq<seq<Id>>, after: seq<seq<Id>>, fired: seq<Id>, pri: map<Id, nat>, t: Id) {
    && |after| == |before|
    && forall p :: 0 <= p < |before| ==>
         Outside(after[p], {t}) == Outside(Outside(before[p], Set(fired)) + Of(fired, pri, p), {t})
  }

  /** common_timeout_callback: the due front of the list fires, and the timer is set again. */
  ghost predicate ListExpired(v: View, w: View, c: nat, now: int)
    requires c < |v.lists| && c < |v.timers|
  {
    var t := {v.timers[c]};
    && w == v.(timeouts := w.timeouts, inserted := w.inserted, active := w.active, later := w.later, byTimeout := w.byTimeout,
               deadline := w.deadline, lists := w.lists, queues := w.queues, laterQueue := w.laterQueue, running := None)
    && |w.lists| == |v.lists| && w.lists == v.lists[c := w.lists[c]]
    && (w.lists[c] != [] ==> At(v.deadline, w.lists[c][0]) > now)
    && exists fired ::
         && v.lists[c] == fired + w.lists[c] && (forall x :: x in fired ==> At(v.deadline, x) <= now)
         && w.timeouts - t == v.timeouts - Set(fired) - t && w.active - t == v.active + Set(fired) - t
         && w.later == v.later - Set(fired) && w.inserted == v.inserted - Set(fired) && w.byTimeout == v.byTimeout + Set(fired)
         && w.laterQueue == Outside(v.laterQueue, Set(fired)) && QueuesAfterBut(v.queues, w.queues, fired, v.pri, v.timers[c])
         && forall x :: x !in v.timers ==> At(w.deadline, x) == At(v.deadline, x)
  }

  /** Each queue got the callbacks of its priority, in order. */
  ghost predicate Promoted(before: seq<seq<Id>>, after: seq<seq<Id>>, l: seq<Id>, pri: map<Id, nat>) {
    |after| == |before| && forall p :: 0 <= p < |before| ==> after[p] == before[p] + Of(l, pri, p)
  }

  /** How many of these callbacks are deferred ones. */
  function Plains(l: seq<Id>, plain: set<Id>): nat {
    if l == [] then 0 else Plains(l[..|l| - 1], plain) + if l[|l| - 1] in plain then 1 else 0
  }

  /** event_queue_make_later_events_active */
  ghost predicate AllPromoted(v: View, w: View) {
    && w == v.(active := v.active + v.later, later := {}, laterQueue := [], queues := w.queues,
               deferreds := v.deferreds + Plains(v.laterQueue, v.plain))
    && Promoted(v.queues, w.queues, v.laterQueue, v.pri)
  }

  /** One round of event_process_active_single_queue up to the user's callback. */
  ghost predicate Processed(v: View, w: View, p: nat, now: int, mapOk: bool)
    requires p < |v.queues| && v.queues[p] != []
  {
    var x := v.queues[p][0];
    exists m :: Taken(v, m, p) && if x in v.persist && x !in v.plain then Persisted(m, w, x, now, mapOk) else w == m
  }
}
