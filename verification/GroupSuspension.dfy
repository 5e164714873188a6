/** Suspending and unsuspending the members of a rate-limit group under interleaved threads, as a
    state machine for one direction. The group lock is held exactly while `phase` is not Idle, or
    within one step; a member's flag is BEV_SUSPEND_BW_GROUP. */
module GroupSuspension {
  import opened Basics
  import opened TokenBuckets

  type Member = nat
  type Thread = nat

  /** A pass over the members that holds the group lock. */
  datatype Phase =
    | Idle
    | Suspending(todo: set<Member>, holder: Thread)
    | Unsuspending(todo: set<Member>, again: bool, holder: Thread)

  datatype State = State(
    limit: int,
    rate: nat,
    max: nat,
    minShare: nat,
    members: set<Member>,
    flagged: set<Member>,
    suspended: bool,
    pending: bool,
    locks: map<Member, Thread>,
    adding: map<Member, bool>,  // joined, but not yet flagged: what the adder saw of `suspended`
    leaving: set<Member>,       // left the group, but the flag is not yet cleared
    phase: Phase)

  datatype Action =
    | Lock(t: Thread, m: Member)
    | Unlock(t: Thread, m: Member)
    | AddBegin(t: Thread, m: Member)
    | AddEnd(t: Thread, m: Member)
    | RemoveBegin(t: Thread, m: Member)
    | RemoveEnd(t: Thread, m: Member)
    | CheckLimit(t: Thread, m: Member)
    | Charge(t: Thread, m: Member, bytes: nat)
    | Refilling(t: Thread, ticks: nat)
    | Configure(rate: nat, max: nat, share: nat)
    | Visit(m: Member)
    | Finish

  predicate Holds(s: State, t: Thread, m: Member) {
    m in s.locks && s.locks[m] == t
  }

  /** EVLOCK_TRY_LOCK_ on a recursive lock. */
  predicate TryLock(s: State, t: Thread, m: Member) {
    m !in s.locks || s.locks[m] == t
  }

  /** A thread in the middle of an add does nothing else. */
  predicate Free(s: State, t: Thread) {
    forall m :: m in s.adding && m in s.locks ==> s.locks[m] != t
  }

  predicate Enabled(s: State, a: Action) {
    match a
    case Lock(t, m) => m !in s.locks
    case Unlock(t, m) => Holds(s, t, m) && m !in s.adding && m !in s.leaving
    case AddBegin(t, m) => s.phase.Idle? && Holds(s, t, m) && m !in s.members && m !in s.leaving
    case AddEnd(t, m) => Holds(s, t, m) && m in s.adding
    case RemoveBegin(t, m) => s.phase.Idle? && Holds(s, t, m) && m in s.members && m !in s.adding
    case RemoveEnd(t, m) => Holds(s, t, m) && m in s.leaving
    case CheckLimit(t, m) => s.phase.Idle? && Holds(s, t, m) && m in s.members && m !in s.adding
    case Charge(t, m, bytes) =>
      s.phase.Idle? && Holds(s, t, m) && m in s.members && Free(s, t) && -SSIZE_MAX - 1 <= s.limit - bytes
    case Refilling(t, _) => s.phase.Idle? && Free(s, t)
    case Configure(rate, max, _) => s.phase.Idle? && 1 <= rate <= max <= RATE_MAX
    case Visit(m) => !s.phase.Idle? && m in s.phase.todo
    case Finish => !s.phase.Idle? && s.phase.todo == {}
  }

  /** The start of bev_group_suspend_reading_ */
  function SuspendAll(s: State, t: Thread): State {
    s.(suspended := true, pending := false, phase := Suspending(s.members, t))
  }

  /** The start of bev_group_unsuspend_reading_ */
  function UnsuspendAll(s: State, t: Thread): State {
    s.(suspended := false, phase := Unsuspending(s.members, false, t))
  }

  function Next(s: State, a: Action): State
    requires Enabled(s, a)
  {
    match a
    case Lock(t, m) => s.(locks := s.locks[m := t])
    case Unlock(_, m) => s.(locks := s.locks - {m})
    // bufferevent_add_to_rate_limit_group: join under the group lock, then flag without it
    case AddBegin(_, m) => s.(members := s.members + {m}, adding := s.adding[m := s.suspended])
    case AddEnd(_, m) =>
      s.(flagged := if s.adding[m] then s.flagged + {m} else s.flagged, adding := s.adding - {m}, locks := s.locks - {m})
    // bufferevent_remove_from_rate_limit_group
    case RemoveBegin(_, m) => s.(members := s.members - {m}, leaving := s.leaving + {m})
    case RemoveEnd(_, m) => s.(flagged := s.flagged - {m}, leaving := s.leaving - {m})
    // bufferevent_get_rlim_max_
    case CheckLimit(_, m) => if s.suspended then s.(flagged := s.flagged + {m}) else s
    // bufferevent_decrement_read_buckets_
    case Charge(t, _, bytes) =>
      var charged := s.(limit := s.limit - bytes);
      if charged.limit <= 0 then SuspendAll(charged, t)
      else if s.suspended then UnsuspendAll(charged, t)
      else charged
    // bev_group_refill_callback_
    case Refilling(t, ticks) =>
      var filled := s.(limit := if ticks == 0 then s.limit else Refill(s.limit, s.max, s.rate, ticks));
      if s.pending || (s.suspended && filled.limit >= s.minShare) then UnsuspendAll(filled, t) else filled
    // bufferevent_rate_limit_group_set_cfg and _set_min_share
    case Configure(rate, max, share) =>
      s.(rate := rate, max := max, limit := Min(max, s.limit), minShare := Min(share, rate))
    // one round of the loop over the members
    case Visit(m) =>
      var p := s.phase.(todo := s.phase.todo - {m});
      if s.phase.Suspending? then
        s.(flagged := if TryLock(s, s.phase.holder, m) then s.flagged + {m} else s.flagged, phase := p)
      else if TryLock(s, s.phase.holder, m) then
        s.(flagged := s.flagged - {m}, phase := p)
      else
        s.(phase := p.(again := true))
    case Finish => if s.phase.Suspending? then s.(phase := Idle) else s.(pending := s.phase.again, phase := Idle)
  }

  /** A member that is flagged, or about to be. */
  predicate Owed(s: State, m: Member) {
    m in s.members && (m in s.flagged || (m in s.adding && s.adding[m]))
  }

  ghost predicate WellFormed(s: State) {
    && s.adding.Keys <= s.members && s.adding.Keys <= s.locks.Keys
    && s.leaving <= s.locks.Keys && s.leaving !! s.members
    && s.flagged <= s.members + s.leaving
    && (!s.phase.Idle? ==> s.phase.todo <= s.members && Free(s, s.phase.holder))
  }

  /** The bucket is within its bounds, and an overdrawn bucket has its group suspended. */
  ghost predicate BucketOk(s: State) {
    && s.minShare <= s.rate <= s.max <= RATE_MAX && 1 <= s.rate
    && -SSIZE_MAX - 1 <= s.limit <= s.max
    && (s.limit < 0 ==> s.suspended)
    && (s.pending ==> !s.suspended)
    && (s.phase.Suspending? ==> s.suspended)
    && (s.phase.Unsuspending? ==> !s.suspended)
  }

  /** Somebody will come back for this member. */
  ghost predicate Remembered(s: State, m: Member) {
    if s.phase.Unsuspending? then m in s.phase.todo || s.phase.again else s.suspended || s.pending
  }

  ghost predicate Inv(s: State) {
    WellFormed(s) && BucketOk(s) && forall m :: Owed(s, m) ==> Remembered(s, m)
  }

  ghost predicate Init(s: State) {
    && s.members == {} && s.flagged == {} && !s.suspended && !s.pending && s.locks == map[]
    && s.adding == map[] && s.leaving == {} && s.phase == Idle
    && 1 <= s.rate <= s.max <= RATE_MAX && s.minShare <= s.rate && s.limit == s.rate
  }

  lemma {:induction false} StepKeepsWellFormed(s: State, a: Action)
    requires WellFormed(s) && Enabled(s, a)
    ensures WellFormed(Next(s, a))
  {
  }

  lemma {:induction false} StepKeepsBucket(s: State, a: Action)
    requires BucketOk(s) && Enabled(s, a)
    ensures BucketOk(Next(s, a))
  {
    hide Refill;
    if a.Refilling? && a.ticks > 0 {
      RefillIsClippedSum(s.limit, s.max, s.rate, a.ticks);
      Product(a.ticks, s.rate);
    }
  }

  /** Every step remembers whoever is owed after it. */
  lemma {:induction false} StepRemembers(s: State, a: Action, m: Member)
    requires WellFormed(s) && BucketOk(s) && (Owed(s, m) ==> Remembered(s, m))
    requires Enabled(s, a) && Owed(Next(s, a), m)
    ensures Remembered(Next(s, a), m)
  {
    hide Refill;
  }

  lemma {:induction false} StepKeepsInv(s: State, a: Action)
    requires Inv(s) && Enabled(s, a)
    ensures Inv(Next(s, a))
  {
    hide WellFormed, BucketOk, Remembered, Owed, Next;
    StepKeepsWellFormed(s, a);
    StepKeepsBucket(s, a);
    forall m | Owed(Next(s, a), m)
      ensures Remembered(Next(s, a), m)
    {
      StepRemembers(s, a, m);
    }
  }

  /** A run: each state follows from the one before. */
  ghost predicate Run(states: seq<State>, actions: seq<Action>) {
    && |states| == |actions| + 1 && Init(states[0])
    && forall i :: 0 <= i < |actions| ==> Enabled(states[i], actions[i]) && states[i + 1] == Next(states[i], actions[i])
  }

  lemma {:induction false} RunKeepsInv(states: seq<State>, actions: seq<Action>, i: nat)
    requires Run(states, actions) && i < |states|
    ensures Inv(states[i])
  {
    hide Next, Enabled, WellFormed, BucketOk;
    if i == 0 {
      InitInv(states[0]);
    } else {
      RunKeepsInv(states, actions, i - 1);
      StepKeepsInv(states[i - 1], actions[i - 1]);
      assert states[i - 1 + 1] == Next(states[i - 1], actions[i - 1]);
    }
  }

  lemma {:induction false} InitInv(s: State)
    requires Init(s)
    ensures Inv(s)
  {
  }

  /** In every reachable state in which nobody holds the group lock, a member that is flagged, or
      that an unfinished add will flag, has its group suspended or an unsuspend pending; and an
      overdrawn bucket has its group suspended. */
  lemma {:induction false} FlaggedMembersAreRemembered(states: seq<State>, actions: seq<Action>, i: nat)
    requires Run(states, actions) && i < |states| && states[i].phase.Idle?
    ensures forall m :: Owed(states[i], m) ==> states[i].suspended || states[i].pending
    ensures states[i].limit < 0 ==> states[i].suspended
  {
    hide Next, Enabled, WellFormed;
    RunKeepsInv(states, actions, i);
  }

  /** The refill timer starts an unsuspend pass over every owed member as soon as the bucket has its
      minimum share again, which a bounded number of ticks ensures. */
  lemma {:induction false} RefillRetries(s: State, t: Thread, ticks: nat, m: Member)
    requires Inv(s) && s.phase.Idle? && Free(s, t) && Owed(s, m)
    requires 1 <= ticks && s.minShare <= s.limit + ticks * s.rate
    ensures Next(s, Refilling(t, ticks)).phase == Unsuspending(s.members, false, t) && m in s.members
  {
    hide Refill;
    RefillIsClippedSum(s.limit, s.max, s.rate, ticks);
    assert Remembered(s, m);
  }

  /** Released for the rest of the pass. */
  ghost predicate Released(s: State, m: Member) {
    m in s.members && m !in s.flagged && m !in s.adding && (s.phase.Unsuspending? ==> m !in s.phase.todo)
  }

  lemma {:induction false} ReleasedStays(s: State, a: Action, m: Member)
    requires Inv(s) && Enabled(s, a) && s.phase.Unsuspending? && Released(s, m)
    ensures Released(Next(s, a), m)
  {
    hide Refill;
  }

  lemma {:induction false} VisitReleases(s: State, m: Member)
    requires Inv(s) && s.phase.Unsuspending? && m in s.phase.todo && TryLock(s, s.phase.holder, m)
    ensures Released(Next(s, Visit(m)), m)
  {
  }

  /** A member whose lock was free, or was the caller's own, when an unsuspend pass came to it is not
      flagged any more when the pass ends. */
  lemma {:induction false} PassReleases(states: seq<State>, actions: seq<Action>, i: nat, j: nat, m: Member)
    requires Run(states, actions) && i < j < |states|
    requires actions[i] == Visit(m) && TryLock(states[i], states[i].phase.holder, m)
    requires forall k :: i <= k < j ==> states[k].phase.Unsuspending?
    ensures Released(states[j], m)
  {
    hide Next, WellFormed, BucketOk, TryLock, Released, Init;
    RunKeepsInv(states, actions, j - 1);
    assert Enabled(states[j - 1], actions[j - 1]);
    assert states[j - 1 + 1] == Next(states[j - 1], actions[j - 1]);
    if j == i + 1 {
      VisitReleases(states[i], m);
    } else {
      PassReleases(states, actions, i, j - 1, m);
      ReleasedStays(states[j - 1], actions[j - 1], m);
    }
  }

  /** When the pass ends, whoever is still owed has an unsuspend pending. */
  lemma {:induction false} PassEnds(s: State, m: Member)
    requires Inv(s) && s.phase.Unsuspending? && Enabled(s, Finish) && Owed(s, m)
    ensures Next(s, Finish).pending && !Next(s, Finish).suspended && Owed(Next(s, Finish), m)
  {
    assert Remembered(s, m);
  }

  /** A charge takes exactly its bytes from the bucket. It starts a suspend pass over every member exactly if that
      exhausts the bucket, and an unsuspend pass exactly if the bucket of a suspended group is not exhausted. */
  lemma {:induction false} ChargeIs(s: State, t: Thread, m: Member, bytes: nat)
    requires Enabled(s, Charge(t, m, bytes))
    ensures var n := Next(s, Charge(t, m, bytes));
            && n.limit == s.limit - bytes && n.flagged == s.flagged && n.members == s.members
            && (s.limit - bytes <= 0 ==> n.suspended && n.phase == Suspending(s.members, t))
            && (s.limit - bytes > 0 && s.suspended ==> !n.suspended && n.phase == Unsuspending(s.members, false, t))
            && (s.limit - bytes > 0 && !s.suspended ==> !n.suspended && n.phase == Idle && n.pending == s.pending)
  {
  }

  /** A refill adds the rate for each tick up to the maximum, and starts an unsuspend pass exactly if one is pending or
      the group is suspended and has its minimum share again. */
  lemma {:induction false} RefillingIs(s: State, t: Thread, ticks: nat)
    requires BucketOk(s) && Enabled(s, Refilling(t, ticks))
    ensures var n := Next(s, Refilling(t, ticks));
            && n.limit == Min(s.max, s.limit + ticks * s.rate)
            && (n.phase == Unsuspending(s.members, false, t) <==> s.pending || (s.suspended && n.limit >= s.minShare))
            && (n.phase.Idle? ==> n.suspended == s.suspended && !s.pending)
  {
    hide Refill;
    if ticks > 0 {
      RefillIsClippedSum(s.limit, s.max, s.rate, ticks);
    } else {
      assert ticks * s.rate == 0;
    }
  }

  /** A member that left is not flagged and in no group. */
  lemma {:induction false} RemovedIs(s: State, t: Thread, m: Member)
    requires WellFormed(s) && Enabled(s, RemoveEnd(t, m))
    ensures var n := Next(s, RemoveEnd(t, m)); m !in n.flagged && m !in n.members && m !in n.leaving
  {
  }

  /** Flagged, and not by an add that is still going on. */
  predicate Held(s: State, m: Member) {
    m in s.flagged && m !in s.adding
  }

  /** A suspend pass flags every member whose lock it gets. */
  lemma {:induction false} VisitFlags(s: State, m: Member)
    requires Enabled(s, Visit(m)) && s.phase.Suspending? && TryLock(s, s.phase.holder, m)
    ensures m in Next(s, Visit(m)).flagged && Next(s, Visit(m)).adding == s.adding
  {
  }

  /** One whose lock it did not get is flagged when it asks how much it may read. */
  lemma {:induction false} CheckLimitFlags(s: State, t: Thread, m: Member)
    requires Enabled(s, CheckLimit(t, m)) && s.suspended
    ensures Held(Next(s, CheckLimit(t, m)), m) && Next(s, CheckLimit(t, m)).suspended
  {
  }

  /** One that is added to a suspended group is flagged when the add is done. */
  lemma {:induction false} AddFlags(s: State, t: Thread, m: Member)
    requires Enabled(s, AddEnd(t, m)) && s.adding[m]
    ensures Held(Next(s, AddEnd(t, m)), m)
  {
  }

  lemma {:induction false} AddingStays(s: State, a: Action, m: Member)
    requires WellFormed(s) && Enabled(s, a) && m in s.adding && !(a.AddEnd? && a.m == m)
    ensures m in Next(s, a).adding && Next(s, a).adding[m] == s.adding[m]
  {
    hide Refill;
  }

  /** A flagged member stays flagged while its group stays suspended, until it has left. */
  lemma {:induction false} HeldStays(s: State, a: Action, m: Member)
    requires Inv(s) && Enabled(s, a) && Held(s, m) && s.suspended && Next(s, a).suspended && !(a.RemoveEnd? && a.m == m)
    ensures Held(Next(s, a), m) || m !in s.members
    ensures m in Next(s, a).flagged
  {
    hide Refill;
  }

  /** From `i` to `j` the group is suspended and the member does not leave it. */
  ghost predicate SuspendedWith(states: seq<State>, actions: seq<Action>, i: nat, j: nat, m: Member)
    requires |states| == |actions| + 1 && i <= j < |states|
  {
    && (forall k :: i <= k <= j ==> states[k].suspended && m in states[k].members)
    && (forall k :: i <= k < j ==> !(actions[k].RemoveEnd? && actions[k].m == m))
  }

  /** In every run: a member flagged in a suspended group is flagged as long as the group is suspended. */
  lemma {:induction false} RunHolds(states: seq<State>, actions: seq<Action>, i: nat, j: nat, m: Member)
    requires Run(states, actions) && i <= j < |states| && SuspendedWith(states, actions, i, j, m) && Held(states[i], m)
    ensures Held(states[j], m)
    decreases j - i
  {
    hide Next, WellFormed, BucketOk, Held, Init, Enabled;
    if i < j {
      RunHolds(states, actions, i, j - 1, m);
      RunKeepsInv(states, actions, j - 1);
      assert states[j - 1 + 1] == Next(states[j - 1], actions[j - 1]);
      HeldStays(states[j - 1], actions[j - 1], m);
    }
  }

  /** So a suspend pass is the end of reading for every member whose lock was free, or was the caller's own, when the
      pass came to it; and for every other member its next question is. */
  lemma {:induction false} SuspendedMembersStop(states: seq<State>, actions: seq<Action>, i: nat, j: nat, m: Member)
    requires Run(states, actions) && i < j < |states| && SuspendedWith(states, actions, i, j, m) && m !in states[i].adding
    requires || (actions[i] == Visit(m) && states[i].phase.Suspending? && TryLock(states[i], states[i].phase.holder, m))
             || (actions[i].CheckLimit? && actions[i].m == m)
    ensures Held(states[j], m)
  {
    hide Next, WellFormed, BucketOk, Init, TryLock;
    assert Enabled(states[i], actions[i]) && states[i + 1] == Next(states[i], actions[i]);
    if actions[i].CheckLimit? {
      CheckLimitFlags(states[i], actions[i].t, m);
    } else {
      VisitFlags(states[i], m);
    }
    RunHolds(states, actions, i + 1, j, m);
  }

  /** And one added to a suspended group is flagged from the end of the add on. */
  lemma {:induction false} AddedMembersStop(states: seq<State>, actions: seq<Action>, i: nat, j: nat, m: Member)
    requires Run(states, actions) && i < j < |actions| && actions[i].AddBegin? && actions[i].m == m && states[i].suspended
    requires actions[j].AddEnd? && actions[j].m == m
    requires forall k :: i < k < j ==> !(actions[k].AddEnd? && actions[k].m == m)
    ensures Held(states[j + 1], m)
  {
    hide Next, WellFormed, BucketOk, Init;
    StillAdding(states, actions, i, j, m);
    assert Enabled(states[j], actions[j]) && states[j + 1] == Next(states[j], actions[j]);
    AddFlags(states[j], actions[j].t, m);
  }

  lemma {:induction false} StillAdding(states: seq<State>, actions: seq<Action>, i: nat, j: nat, m: Member)
    requires Run(states, actions) && i < j < |states| && actions[i].AddBegin? && actions[i].m == m && states[i].suspended
    requires forall k :: i < k < j ==> !(actions[k].AddEnd? && actions[k].m == m)
    ensures m in states[j].adding && states[j].adding[m]
    decreases j - i
  {
    hide Next, BucketOk, WellFormed, Init, Enabled;
    assert states[j - 1 + 1] == Next(states[j - 1], actions[j - 1]);
    if j > i + 1 {
      StillAdding(states, actions, i, j - 1, m);
      RunKeepsInv(states, actions, j - 1);
      AddingStays(states[j - 1], actions[j - 1], m);
    } else {
      AddBegun(states[i], actions[i].t, m);
    }
  }

  lemma {:induction false} AddBegun(s: State, t: Thread, m: Member)
    requires Enabled(s, AddBegin(t, m))
    ensures var n := Next(s, AddBegin(t, m)); m in n.members && m in n.adding && n.adding[m] == s.suspended
  {
  }

  /** No pass gets stuck, and between passes every member's thread can ask, charge, leave and let go, and the timer can
      refill. */
  lemma {:induction false} NobodyIsStuck(s: State, t: Thread, m: Member)
    requires Inv(s)
    ensures !s.phase.Idle? ==> Enabled(s, Finish) || exists k :: Enabled(s, Visit(k))
    ensures m !in s.locks ==> Enabled(s, Lock(t, m))
    ensures Holds(s, t, m) && m in s.adding ==> Enabled(s, AddEnd(t, m))
    ensures Holds(s, t, m) && m in s.leaving ==> Enabled(s, RemoveEnd(t, m))
    ensures s.phase.Idle? && Holds(s, t, m) && m in s.members && m !in s.adding ==>
              && Enabled(s, CheckLimit(t, m)) && Enabled(s, RemoveBegin(t, m)) && Enabled(s, Unlock(t, m))
              && forall bytes: nat :: Free(s, t) && s.limit - bytes >= -0x8000_0000_0000_0000 ==> Enabled(s, Charge(t, m, bytes))
    ensures s.phase.Idle? && Holds(s, t, m) && m !in s.members && m !in s.leaving ==> Enabled(s, AddBegin(t, m))
    ensures s.phase.Idle? && Free(s, t) ==> forall ticks: nat :: Enabled(s, Refilling(t, ticks))
  {
    if !s.phase.Idle? && s.phase.todo != {} {
      var k :| k in s.phase.todo;
      assert Enabled(s, Visit(k));
    }
  }

  /** A new configuration clips the bucket, and the minimum share is at most one tick's rate. */
  lemma {:induction false} ConfigureIs(s: State, rate: nat, max: nat, share: nat)
    requires Enabled(s, Configure(rate, max, share))
    ensures var n := Next(s, Configure(rate, max, share));
            && n == s.(limit := n.limit, rate := rate, max := max, minShare := n.minShare)
            && n.limit <= max && (s.limit <= max ==> n.limit == s.limit) && (s.limit > max ==> n.limit == max)
            && n.minShare <= rate && (share <= rate ==> n.minShare == share) && (share > rate ==> n.minShare == rate)
  {
  }
}
