/** What users of an event base rely on, for every run of its specification. */
module EventPromises {
  import opened Basics
  import opened EventLists
  import opened EventBases
  import opened EventSpec
  import opened EventRuns

  /** An event the user made persistent and gave an interval. */
  predicate Repeating(v: View, x: Id) {
    && x in v.pri && x in v.persist && x !in v.plain && x !in v.timers
    && x in v.interval && (v.interval[x].usec != 0 || v.interval[x].common.Some?)
  }

  /** It will run: its timeout is pending, or it is in a queue. */
  predicate Waiting(v: View, x: Id) {
    x in v.timeouts || x in v.active || x in v.later
  }

  /** After its callback was taken, a repeating event is pending again, not before now, unless the interest map
      refuses it: one interval after its last deadline if that made it fire and is not past, else one interval
      from now. It is registered again too. */
  lemma {:induction false} Rescheduled(v: View, w: View, p: nat, now: int, mapOk: bool)
    requires p < |v.queues| && v.queues[p] != [] && Processed(v, w, p, now, mapOk)
    requires Repeating(v, v.queues[p][0]) && v.queues[p][0] !in v.later
    requires mapOk || v.queues[p][0] !in v.io || v.queues[p][0] in v.inserted
    ensures var x := v.queues[p][0];
            var usec, last := v.interval[x].usec, At(v.deadline, x);
            && x in w.timeouts && Repeating(w, x) && w.interval[x] == v.interval[x]
            && (usec >= 0 ==> At(w.deadline, x) >= now)
            && (x in v.byTimeout && last + usec >= now ==> At(w.deadline, x) == last + usec)
            && (x !in v.byTimeout || last + usec < now ==> At(w.deadline, x) == now + usec)
            && (x in v.io ==> x in w.inserted)
  {
    hide Outside, At, OnlyThis;
  }

  /** Adding a persistent event with a timeout starts it. */
  lemma {:induction false} AddStarts(v: View, w: View, x: Id, tv: Tv, now: int, mapOk: bool)
    requires Added(v, w, x, Some(tv), false, now, mapOk) && (mapOk || x !in v.io || x in v.inserted || x in v.active || x in v.later)
    requires x in v.pri && x in v.persist && x !in v.plain && x !in v.timers && (tv.usec != 0 || tv.common.Some?)
    ensures Repeating(w, x) && Waiting(w, x) && w.interval[x] == tv && x in w.timeouts && At(w.deadline, x) == now + tv.usec
  {
    hide Outside, OnlyThis;
  }

  /** An assigned event has exactly the flags and the priority it was given, and waits nowhere. */
  lemma {:induction false} AssignedIs(v: View, x: Id, p: nat, isPlain: bool, onFd: bool, persists: bool)
    requires Unknown(v, x)
    ensures var w := Registered(v, x, p, isPlain, onFd, persists);
            && x in w.pri && w.pri[x] == p && (x in w.plain <==> isPlain) && (x in w.io <==> onFd) && (x in w.persist <==> persists)
            && (Waiting(w, x) <==> Waiting(v, x))
  {
  }

  /** Deferred callbacks: as long as at most 32 were queued in this round they run in it, from then on in the next,
      and a new round starts at none. */
  lemma {:induction false} QuotaOfARound(v: View, x: Id)
    requires Usable(v, x) && x !in v.active && x !in v.later
    ensures var w := Deferred(v, x);
            if v.deferreds <= 32 then
              && x in w.active && w.queues[v.pri[x]] == v.queues[v.pri[x]] + [x] && w.deferreds == v.deferreds + 1
            else
              && x in w.later && w.laterQueue == v.laterQueue + [x] && w.deferreds == v.deferreds
    ensures x in Deferred(RoundBegun(v), x).active
  {
    hide Outside;
  }

  /** Up to 256 lengths get a list of their own; a length that has one gets no second. */
  lemma {:induction false} CommonIs(v: View, d: int, t: Id)
    requires |v.lists| == |v.timers| == |v.durations|
    ensures var w := WithCommon(v, d, t);
            && (d in v.durations ==> w == v)
            && (d !in v.durations && |v.durations| < 256 ==>
                  && d in w.durations && |w.lists| == |v.lists| + 1 && w.lists[|v.lists|] == [] && w.timers[|v.timers|] == t
                  && w.durations[|v.durations|] == d && w.lists[..|v.lists|] == v.lists)
            && (d !in v.durations && |v.durations| == 256 ==> w == v)
  {
  }

  /** A user's event can be added, deleted and made active at any time, the loop can go on at any time, and a queue can
      be processed whenever it holds something and no timer is running. */
  lemma {:induction false} AlwaysPossible(v: View, x: Id, tv: Option<Tv>, timedOut: bool, now: int, mapOk: bool)
    ensures x in v.pri && x !in v.timers && v.pri[x] < |v.queues| ==>
              && Possible(v, Del(x)) && Possible(v, RemoveTimer(x)) && Possible(v, Active(x, timedOut)) && Possible(v, Later(x, timedOut))
              && Possible(v, Defer(x))
              && (x !in v.plain && (tv.None? || tv.value.common.None? || tv.value.common.value < |v.lists|) ==> Possible(v, Add(x, tv, now, mapOk)))
    ensures Possible(v, NewRound) && Possible(v, MakeLater) && Possible(v, Expire(now))
    ensures forall p: nat :: p < |v.queues| && v.queues[p] != [] && v.running.None? ==> Possible(v, Process(p, now, mapOk))
    ensures forall c: nat :: v.running == Some(c) && c < |v.lists| && c < |v.timers| ==> Possible(v, TimerCallback(now))
  {
  }

  /** A step by which the user gives up an event's timeout: deleting it, taking its timer away, or adding it with a
      timeout of nothing; or by which the interest map refuses to take it back. */
  predicate GivesUp(v: View, op: Op, x: Id)
    requires Possible(v, op)
  {
    match op
    case Del(y) => x == y
    case RemoveTimer(y) => x == y
    case Add(y, tv, _, _) => x == y && tv.Some? && tv.value.usec == 0 && tv.value.common.None?
    case Process(p, _, mapOk) => x == v.queues[p][0] && !mapOk && x in v.io
    case _ => false
  }

  lemma {:induction false} OthersStay(v: Standing, w: Standing, x: Id, y: Id)
    requires OnlyThis(v, w, x) && y != x && y !in v.timers
    ensures (y in w.timeouts <==> y in v.timeouts) && (y in w.active <==> y in v.active)
  {
    hide Outside, At, Set;
  }

  lemma {:induction false} AddKeeps(v: View, w: View, x: Id, y: Id, tv: Option<Tv>, absolute: bool, now: int, mapOk: bool)
    requires Added(v, w, x, tv, absolute, now, mapOk) && Repeating(v, y) && Waiting(v, y)
    requires x == y && !absolute && tv.Some? ==> tv.value.usec != 0 || tv.value.common.Some?
    ensures Repeating(w, y) && Waiting(w, y)
  {
    hide Outside, At, Set, OnlyThis;
    if x != y && tv.Some? && (mapOk || !NeedsMap(v, x)) {
      OthersStay(StandsIn(v), StandsIn(w), x, y);
    }
  }

  lemma {:induction false} ProcessKeeps(v: View, w: View, p: nat, now: int, mapOk: bool, x: Id)
    requires p < |v.queues| && v.queues[p] != [] && Processed(v, w, p, now, mapOk)
    requires Repeating(v, x) && Waiting(v, x) && !(x == v.queues[p][0] && !mapOk && x in v.io)
    ensures Repeating(w, x) && Waiting(w, x)
  {
    hide Outside, At, Added, Each;
    var y := v.queues[p][0];
    var m :| Taken(v, m, p) && if y in v.persist && y !in v.plain then Persisted(m, w, y, now, mapOk) else w == m;
    if x == y {
      AddedWaits(m, w, x, now, mapOk);
    } else if y in v.persist && y !in v.plain {
      PersistKeeps(m, w, y, x, now, mapOk);
    }
  }

  lemma {:induction false} AddedWaits(v: View, w: View, x: Id, now: int, mapOk: bool)
    requires Persisted(v, w, x, now, mapOk) && Repeating(v, x) && (mapOk || !NeedsMap(v, x))
    ensures Repeating(w, x) && x in w.timeouts
  {
    hide Outside, At, OnlyThis;
  }

  lemma {:induction false} PersistKeeps(v: View, w: View, x: Id, y: Id, now: int, mapOk: bool)
    requires Persisted(v, w, x, now, mapOk) && x != y && Repeating(v, y) && Waiting(v, y)
    ensures Repeating(w, y) && Waiting(w, y)
  {
    hide Added, At, NextRun;
    if x in v.interval && (v.interval[x].usec != 0 || v.interval[x].common.Some?) {
      AddKeeps(v, w, x, y, Some(Tv(NextRun(v, x, v.interval[x].usec, now), v.interval[x].common)), true, now, mapOk);
    }
  }

  /** What fires is active then. */
  lemma {:induction false} ExpireKeeps(v: View, w: View, now: int, x: Id)
    requires Expired(v, w, now) && Repeating(v, x) && Waiting(v, x)
    ensures Repeating(w, x) && Waiting(w, x)
  {
    hide Outside, At, NoDup, Sorted, QueuesAfter;
  }

  lemma {:induction false} ListKeeps(v: View, w: View, c: nat, now: int, x: Id)
    requires c < |v.lists| && c < |v.timers| && ListExpired(v, w, c, now) && Repeating(v, x) && Waiting(v, x)
    ensures Repeating(w, x) && Waiting(w, x)
  {
    hide Outside, At, QueuesAfterBut;
    var t := {v.timers[c]};
    var fired :| w.timeouts - t == v.timeouts - Set(fired) - t && w.active - t == v.active + Set(fired) - t
                 && w.later == v.later - Set(fired);
    assert v.timers[c] in v.timers;
    assert x in w.timeouts <==> x in w.timeouts - t;
    assert x in w.active <==> x in w.active - t;
    assert x in v.timeouts - Set(fired) ==> x in v.timeouts - Set(fired) - t;
    assert x in v.active + Set(fired) ==> x in v.active + Set(fired) - t;
  }

  lemma {:induction false} StepKeepsWaiting(op: Op, v: View, w: View, x: Id)
    requires Possible(v, op) && Effect(op, v, w) && Repeating(v, x) && Waiting(v, x) && !GivesUp(v, op, x)
    ensures Repeating(w, x) && Waiting(w, x)
  {
    hide Added, Processed, Expired, ListExpired, Promoted, Plains, Each, Outside;
    match op
    case Add(y, tv, now, mapOk) => AddKeeps(v, w, y, x, tv, false, now, mapOk);
    case Process(p, now, mapOk) => ProcessKeeps(v, w, p, now, mapOk, x);
    case Expire(now) => ExpireKeeps(v, w, now, x);
    case TimerCallback(now) => ListKeeps(v, w, v.running.value, now, x);
    case _ =>
  }

  /** Over every run a repeating event keeps running: it is pending or in a queue in every state, until a step
      gives it up. */
  lemma {:induction false} RunKeepsWaiting(ops: seq<Op>, states: seq<View>, i: nat, j: nat, x: Id)
    requires Explains(ops, states) && i <= j <= |ops| && Repeating(states[i], x) && Waiting(states[i], x)
    requires forall k :: i <= k < j ==> Possible(states[k], ops[k]) && !GivesUp(states[k], ops[k], x)
    ensures Repeating(states[j], x) && Waiting(states[j], x)
    decreases j - i
  {
    hide Effect, Possible, GivesUp, Repeating, Waiting;
    if i < j {
      RunKeepsWaiting(ops, states, i, j - 1, x);
      assert Effect(ops[j - 1], states[j - 1], states[j - 1 + 1]);
      StepKeepsWaiting(ops[j - 1], states[j - 1], states[j], x);
    }
  }
}
