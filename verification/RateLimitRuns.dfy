/** Whole runs of a rate-limited bufferevent: how much it reads in a span of time, that it always wakes
    up again, and when refills survive a change of the tick length. */
module RateLimitRuns {
  import opened Basics
  import opened TokenBuckets
  import opened RateLimits

  /** What can happen to a bufferevent. */
  datatype Op =
    | Readable(tick: nat, high: nat, held: nat, socket: Socket, maxSingle: nat)
    | ChargeRead(bytes: nat)
    | ChargeWrite(bytes: nat)
    | Fire(tick: nat)
    | Suspend(read: bool, why: Reason)
    | Unsuspend(read: bool, why: Reason)
    | Enable(read: bool, write: bool)
    | Disable(read: bool, write: bool)
    | Configure(c: Option<Cfg>, tick: nat, same: bool)

  /** A step with the limits it respects: reasons other than bandwidth are the callers' own, charges
      do not underflow the counters, only a pending timer fires, and configurations are valid ones. */
  predicate Allowed(v: Bev, op: Op) {
    match op
    case ChargeRead(n) => v.cfg.Some? ==> v.readLimit - n >= -SSIZE_MAX - 1
    case ChargeWrite(n) => v.cfg.Some? ==> v.writeLimit - n >= -SSIZE_MAX - 1
    case Fire(_) => v.timer
    case Suspend(_, why) => why != BW
    case Unsuspend(_, why) => why != BW
    case Configure(c, _, same) => (c.Some? ==> c.value.Valid()) && (same ==> c == v.cfg)
    case _ => true
  }

  /** Reading, enabling and disabling can happen at any time, charges as long as the counter does not underflow, the
      timer's callback while it is pending. */
  lemma {:induction false} AlwaysAllowed(v: Bev, op: Op)
    ensures op.Readable? || op.Enable? || op.Disable? ==> Allowed(v, op)
    ensures op.ChargeRead? && v.readLimit - op.bytes >= -0x8000_0000_0000_0000 ==> Allowed(v, op)
    ensures op.ChargeWrite? && v.writeLimit - op.bytes >= -0x8000_0000_0000_0000 ==> Allowed(v, op)
    ensures op.Fire? && v.timer ==> Allowed(v, op)
    ensures (op.Suspend? || op.Unsuspend?) && op.why != BW ==> Allowed(v, op)
    ensures op.Configure? && (op.c.None? || op.c.value.Valid()) && (op.same ==> op.c == v.cfg) ==> Allowed(v, op)
  {
  }

  /** The bytes a step reads from the socket. */
  function ReadBy(v: Bev, op: Op): nat {
    if op.Readable? then ReadBytes(v, op.tick, op.high, op.held, op.socket, op.maxSingle) else 0
  }

  function After(v: Bev, op: Op): Bev {
    match op
    case Readable(tick, high, held, socket, maxSingle) => AfterRead(v, tick, high, held, socket, maxSingle)
    case ChargeRead(n) => ChargedRead(v, n)
    case ChargeWrite(n) => ChargedWrite(v, n)
    case Fire(tick) => Fired(v, tick)
    case Suspend(r, why) =>
      if r then v.(readSuspended := v.readSuspended + {why}) else v.(writeSuspended := v.writeSuspended + {why})
    case Unsuspend(r, why) =>
      if r then v.(readSuspended := v.readSuspended - {why}) else v.(writeSuspended := v.writeSuspended - {why})
    case Enable(r, w) => v.(enabledRead := v.enabledRead || r, enabledWrite := v.enabledWrite || w)
    case Disable(r, w) => v.(enabledRead := v.enabledRead && !r, enabledWrite := v.enabledWrite && !w)
    case Configure(c, tick, same) => Configured(v, c, tick, same)
  }

  /** A run: the states passed through and the bytes each step read. */
  ghost predicate Explains(ops: seq<Op>, states: seq<Bev>, got: seq<nat>) {
    && |states| == |ops| + 1 && |got| == |ops|
    && forall i :: 0 <= i < |ops| ==>
         Allowed(states[i], ops[i]) && states[i + 1] == After(states[i], ops[i]) && got[i] == ReadBy(states[i], ops[i])
  }

  method Step(b: Bufferevent, op: Op) returns (read: nat)
    requires b.Valid() && Allowed(b.View(), op)
    modifies b, b.limit
    ensures b.Valid() && b.View() == After(old(b.View()), op) && read == ReadBy(old(b.View()), op)
  {
    hide Refilled, ChargedRead, ChargedWrite, Fired, Configured, ReadBytes, AfterRead, BandwidthOk;
    read := 0;
    match op
    case Readable(tick, high, held, socket, maxSingle) => read := b.ReadReady(tick, high, held, socket, maxSingle);
    case ChargeRead(n) => b.DecrementRead(n);
    case ChargeWrite(n) => b.DecrementWrite(n);
    case Fire(tick) => b.RefillFired(tick);
    case Suspend(_, _) => Flag(b, op);
    case Unsuspend(_, _) => Flag(b, op);
    case Enable(r, w) => b.Enable(r, w);
    case Disable(r, w) => b.Disable(r, w);
    case Configure(c, tick, same) => b.SetRateLimit(c, tick, same);
  }

  /** Suspensions other than the bucket's. */
  method Flag(b: Bufferevent, op: Op)
    requires b.Valid() && (op.Suspend? || op.Unsuspend?) && op.why != BW
    modifies b
    ensures b.Valid() && b.View() == After(old(b.View()), op)
  {
    if op.Suspend? {
      if op.read { b.SuspendRead(op.why); } else { b.SuspendWrite(op.why); }
    } else {
      if op.read { b.UnsuspendRead(op.why); } else { b.UnsuspendWrite(op.why); }
    }
  }

  /** Every run of the bufferevent is a run of the specification, up to its first step that is not allowed;
      no wake-up is lost on the way (`Valid`). */
  method Run(b: Bufferevent, ops: seq<Op>) returns (got: seq<nat>, ghost states: seq<Bev>)
    requires b.Valid()
    modifies b, b.limit
    ensures b.Valid() && |got| <= |ops| && Explains(ops[..|got|], states, got)
    ensures states[0] == old(b.View()) && states[|got|] == b.View()
    ensures |got| < |ops| ==> !Allowed(b.View(), ops[|got|])
  {
    hide After, ReadBy, Allowed;
    got, states := [], [b.View()];
    while |got| < |ops|
      invariant b.Valid() && |got| <= |ops| && Explains(ops[..|got|], states, got)
      invariant states[0] == old(b.View()) && states[|got|] == b.View()
      decreases |ops| - |got|
    {
      var ok := CanStep(b, ops[|got|]);
      if !ok {
        return;
      }
      var read := Step(b, ops[|got|]);
      got, states := got + [read], states + [b.View()];
    }
  }

  method CanStep(b: Bufferevent, op: Op) returns (ok: bool)
    ensures ok == Allowed(b.View(), op)
  {
    match op
    case ChargeRead(n) => ok := b.cfg.Some? ==> b.limit.readLimit - n >= -SSIZE_MAX - 1;
    case ChargeWrite(n) => ok := b.cfg.Some? ==> b.limit.writeLimit - n >= -SSIZE_MAX - 1;
    case Fire(_) => ok := b.timer;
    case Suspend(_, why) => ok := why != BW;
    case Unsuspend(_, why) => ok := why != BW;
    case Configure(c, _, same) => ok := (c.Some? ==> c.value.Valid()) && (same ==> c == b.cfg);
    case _ => ok := true;
  }

  lemma {:induction false} ChargeKeepsWakeUps(v: Bev, n: nat)
    requires BandwidthOk(v)
    ensures v.cfg.Some? ==> v.readLimit - n >= -SSIZE_MAX - 1 ==> BandwidthOk(ChargedRead(v, n))
    ensures v.cfg.Some? ==> v.writeLimit - n >= -SSIZE_MAX - 1 ==> BandwidthOk(ChargedWrite(v, n))
  {
  }

  lemma {:induction false} FireKeepsWakeUps(v: Bev, tick: nat)
    requires BandwidthOk(v)
    ensures BandwidthOk(Fired(v, tick))
  {
    hide Refilled;
    RefilledOk(v, tick);
  }

  lemma {:induction false} ConfigureKeepsWakeUps(v: Bev, c: Option<Cfg>, tick: nat, same: bool)
    requires BandwidthOk(v) && (c.Some? ==> c.value.Valid()) && (same ==> c == v.cfg)
    ensures BandwidthOk(Configured(v, c, tick, same))
  {
  }

  /** Every step keeps the suspensions and the timer right. */
  lemma {:induction false} StepKeepsWakeUps(v: Bev, op: Op)
    requires BandwidthOk(v) && Allowed(v, op)
    ensures BandwidthOk(After(v, op))
  {
    match op
    case Readable(tick, high, held, socket, maxSingle) =>
      hide Refilled, ChargedRead, Wanted, AtMark;
      RefilledOk(v, tick);
      ReadWithin(v, op);
      ChargeKeepsWakeUps(Refilled(v, tick), ReadBy(v, op));
    case ChargeRead(n) => hide ChargedRead; ChargeKeepsWakeUps(v, n);
    case ChargeWrite(n) => hide ChargedWrite; ChargeKeepsWakeUps(v, n);
    case Fire(tick) => hide Fired; FireKeepsWakeUps(v, tick);
    case Configure(c, tick, same) => hide Configured; ConfigureKeepsWakeUps(v, c, tick, same);
    case _ =>
  }

  /** A read takes no more than the bucket, brought up to date, lets through. */
  lemma {:induction false} ReadWithin(v: Bev, op: Op)
    requires op.Readable?
    ensures v.cfg.Some? ==> ReadBy(v, op) <= Credit(Refilled(v, op.tick))
    ensures ReadBy(v, op) > 0 ==> !AtMark(op.high, op.held) && v.readSuspended == {}
  {
    hide AtMark, Wanted;
    if !AtMark(op.high, op.held) {
      WantedWithin(Refilled(v, op.tick), op.high, op.held, op.socket.reported, op.maxSingle);
    }
  }

  lemma {:induction false} RefilledOk(v: Bev, tick: nat)
    requires BandwidthOk(v)
    ensures BandwidthOk(Refilled(v, tick))
    ensures var u := Refilled(v, tick);
            && u == v.(readLimit := u.readLimit, writeLimit := u.writeLimit, last := u.last)
            && v.readLimit <= u.readLimit && v.writeLimit <= u.writeLimit
  {
    hide Ticks;
    if v.cfg.Some? {
      Product(Ticks(v.last, tick), v.cfg.value.readRate);
      Product(Ticks(v.last, tick), v.cfg.value.writeRate);
    }
  }

  function Sum(got: seq<nat>): nat {
    if got == [] then 0 else Sum(got[..|got| - 1]) + got[|got| - 1]
  }

  /** Whether a step brings the buckets up to date; a read at the watermark does not. */
  predicate HasTick(op: Op) {
    (op.Readable? && !AtMark(op.high, op.held)) || op.Fire?
  }

  /** The ticks one step sees pass. */
  function TicksOf(last: nat, op: Op): nat {
    if HasTick(op) then Ticks(last, op.tick) else 0
  }

  /** The tick number of the bucket after some steps, and the ticks they saw pass. */
  function LastSeen(last: nat, ops: seq<Op>): nat {
    if ops == [] then last
    else
      var before := LastSeen(last, ops[..|ops| - 1]);
      if TicksOf(before, ops[|ops| - 1]) > 0 then ops[|ops| - 1].tick else before
  }

  function Seen(last: nat, ops: seq<Op>): nat {
    if ops == [] then 0
    else Seen(last, ops[..|ops| - 1]) + TicksOf(LastSeen(last, ops[..|ops| - 1]), ops[|ops| - 1])
  }

  lemma {:induction false} RefillBalance(v: Bev, tick: nat)
    requires BandwidthOk(v) && v.cfg.Some?
    ensures Credit(Refilled(v, tick)) <= Credit(v) + Ticks(v.last, tick) * v.cfg.value.readRate
    ensures Refilled(v, tick).last == if Ticks(v.last, tick) > 0 then tick else v.last
  {
    hide Ticks;
    Product(Ticks(v.last, tick), v.cfg.value.readRate);
  }

  /** What a step reads and leaves is at most what was there and what the ticks it saw brought. */
  lemma {:induction false} StepBalance(v: Bev, op: Op)
    requires BandwidthOk(v) && v.cfg.Some? && Allowed(v, op) && !op.Configure?
    ensures var u := After(v, op);
            && u.cfg == v.cfg && u.last == (if TicksOf(v.last, op) > 0 then op.tick else v.last)
            && ReadBy(v, op) + Credit(u) <= Credit(v) + TicksOf(v.last, op) * v.cfg.value.readRate
  {
    hide Ticks, Refilled, BandwidthOk, AtMark, Wanted;
    if HasTick(op) {
      RefilledOk(v, op.tick);
      RefillBalance(v, op.tick);
    }
    if op.Readable? {
      ReadWithin(v, op);
    }
  }

  /** Over any run with one configuration. */
  lemma {:induction false} RunBalance(ops: seq<Op>, states: seq<Bev>, got: seq<nat>, n: nat)
    requires Explains(ops, states, got) && n <= |ops| && BandwidthOk(states[0]) && states[0].cfg.Some?
    requires forall i :: 0 <= i < n ==> !ops[i].Configure?
    ensures BandwidthOk(states[n]) && states[n].cfg == states[0].cfg && states[n].last == LastSeen(states[0].last, ops[..n])
    ensures Sum(got[..n]) + Credit(states[n]) <= Credit(states[0]) + Seen(states[0].last, ops[..n]) * states[0].cfg.value.readRate
  {
    hide After, ReadBy, Allowed, TicksOf, BandwidthOk, Credit;
    if n > 0 {
      var m := n - 1;
      RunBalance(ops, states, got, m);
      assert Allowed(states[m], ops[m]) && states[m + 1] == After(states[m], ops[m]);
      StepKeepsWakeUps(states[m], ops[m]);
      StepBalance(states[m], ops[m]);
      assert ops[..n][..m] == ops[..m] && got[..n][..m] == got[..m];
      var rate := states[0].cfg.value.readRate;
      Distribute(Seen(states[0].last, ops[..m]), TicksOf(states[m].last, ops[m]), rate);
    }
  }

  lemma {:induction false} Distribute(a: nat, b: nat, r: nat)
    ensures (a + b) * r == a * r + b * r
  {
  }

  /** The steps' tick numbers are taken modulo 2^32 from a clock that never goes back. */
  ghost predicate FromClock(ops: seq<Op>, start: nat, clock: seq<nat>) {
    && |clock| == |ops|
    && (forall i :: 0 <= i < |ops| && HasTick(ops[i]) ==> ops[i].tick == clock[i] % TWO32)
    && (forall i :: 0 <= i < |ops| ==> start <= clock[i])
    && (forall i, j :: 0 <= i < j < |ops| ==> clock[i] <= clock[j])
  }

  /** What the clock showed when the bucket last saw a new tick. */
  function LastTime(start: nat, ops: seq<Op>, clock: seq<nat>): nat
    requires |clock| == |ops|
  {
    if ops == [] then start
    else
      var m := |ops| - 1;
      if TicksOf(LastSeen(start % TWO32, ops[..m]), ops[m]) > 0 then clock[m] else LastTime(start, ops[..m], clock[..m])
  }

  /** The ticks seen are ticks that really passed, wrap-around of the tick number included. */
  lemma {:induction false} SeenPassed(ops: seq<Op>, start: nat, clock: seq<nat>)
    requires FromClock(ops, start, clock)
    ensures LastSeen(start % TWO32, ops) == LastTime(start, ops, clock) % TWO32
    ensures start + Seen(start % TWO32, ops) <= LastTime(start, ops, clock)
    ensures LastTime(start, ops, clock) <= if ops == [] then start else clock[|ops| - 1]
    decreases |ops|
  {
    if ops != [] {
      var m := |ops| - 1;
      SeenPassed(ops[..m], start, clock[..m]);
      var before := LastTime(start, ops[..m], clock[..m]);
      if HasTick(ops[m]) {
        ElapsedPassed(before, clock[m]);
      }
    }
  }

  lemma {:induction false} ElapsedPassed(before: nat, now: nat)
    requires before <= now
    ensures before + Ticks(before % TWO32, now % TWO32) <= now
  {
    assert (now % TWO32 - before % TWO32) % TWO32 == (now - before) % TWO32;
  }

  /** From clock tick `start` to clock tick `end` a rate-limited bufferevent reads at most the bucket's
      maximum plus `end - start` times its rate. */
  lemma {:induction false} ReadsWithinRate(ops: seq<Op>, states: seq<Bev>, got: seq<nat>, start: nat, clock: seq<nat>, end: nat)
    requires Explains(ops, states, got) && BandwidthOk(states[0]) && states[0].cfg.Some? && states[0].last == start % TWO32
    requires forall i :: 0 <= i < |ops| ==> !ops[i].Configure?
    requires FromClock(ops, start, clock) && start <= end && (ops != [] ==> clock[|ops| - 1] <= end)
    ensures var c := states[0].cfg.value; Sum(got) <= c.readMax + (end - start) * c.readRate
  {
    hide After, ReadBy, Allowed, Seen, LastSeen, LastTime, FromClock;
    var rate := states[0].cfg.value.readRate;
    RunBalance(ops, states, got, |ops|);
    assert ops[..|ops|] == ops && got[..|ops|] == got;
    SeenPassed(ops, start, clock);
    var seen := Seen(states[0].last, ops);
    Distribute(seen, end - start - seen, rate);
    Product(end - start - seen, rate);
  }

  /** Each of these tick numbers is new when its firing comes. */
  ghost predicate NewTicks(last: nat, ticks: seq<nat>) {
    ticks != [] ==>
      var m := |ticks| - 1;
      NewTicks(last, ticks[..m]) && Ticks(if m == 0 then last else ticks[m - 1], ticks[m]) > 0
  }

  lemma {:induction false} NewPrefix(last: nat, ticks: seq<nat>, k: nat)
    requires NewTicks(last, ticks) && k <= |ticks|
    ensures NewTicks(last, ticks[..k])
    decreases |ticks|
  {
    if k == |ticks| {
      assert ticks[..k] == ticks;
    } else {
      NewPrefix(last, ticks[..|ticks| - 1], k);
      assert ticks[..|ticks| - 1][..k] == ticks[..k];
    }
  }

  /** The refill timer fires at these ticks. */
  function Firings(v: Bev, ticks: seq<nat>): Bev {
    if ticks == [] then v else Fired(Firings(v, ticks[..|ticks| - 1]), ticks[|ticks| - 1])
  }

  /** A firing that sees a new tick shrinks a deficit by at least one tick's rate, lets go of a direction
      exactly when it is positive, and leaves the timer pending exactly if a direction stays suspended. */
  lemma {:induction false} FiringShrinksDeficit(v: Bev, tick: nat)
    requires BandwidthOk(v) && v.cfg.Some? && Ticks(v.last, tick) > 0
    ensures var u := Fired(v, tick);
            && u.cfg == v.cfg && u.last == tick && (u.timer <==> BW in u.readSuspended || BW in u.writeSuspended)
            && (u.readLimit > 0 || u.readLimit >= v.readLimit + v.cfg.value.readRate)
            && (u.writeLimit > 0 || u.writeLimit >= v.writeLimit + v.cfg.value.writeRate)
            && (BW in u.readSuspended <==> BW in v.readSuspended && u.readLimit <= 0)
            && (BW in u.writeSuspended <==> BW in v.writeSuspended && u.writeLimit <= 0)
  {
    hide Ticks;
    var n := Ticks(v.last, tick);
    Product(n, v.cfg.value.readRate);
    Product(n, v.cfg.value.writeRate);
  }

  lemma {:induction false} FiringsShrink(v: Bev, ticks: seq<nat>)
    requires BandwidthOk(v) && v.cfg.Some? && NewTicks(v.last, ticks)
    ensures var u := Firings(v, ticks);
            && BandwidthOk(u) && u.cfg == v.cfg && u.last == (if ticks == [] then v.last else ticks[|ticks| - 1])
            && (u.readLimit > 0 || u.readLimit >= v.readLimit + |ticks| * v.cfg.value.readRate)
            && (u.writeLimit > 0 || u.writeLimit >= v.writeLimit + |ticks| * v.cfg.value.writeRate)
    decreases |ticks|
  {
    hide Ticks, Fired, BandwidthOk;
    if ticks != [] {
      var m := |ticks| - 1;
      var before := Firings(v, ticks[..m]);
      FiringsShrink(v, ticks[..m]);
      FireKeepsWakeUps(before, ticks[m]);
      FiringShrinksDeficit(before, ticks[m]);
      Distribute(m, 1, v.cfg.value.readRate);
      Distribute(m, 1, v.cfg.value.writeRate);
      FiredGrows(before, ticks[m]);
    }
  }

  lemma {:induction false} FiredGrows(v: Bev, tick: nat)
    requires BandwidthOk(v) && v.cfg.Some?
    ensures var u := Fired(v, tick); u.readLimit >= v.readLimit && u.writeLimit >= v.writeLimit
  {
    hide Refilled;
    RefilledOk(v, tick);
  }

  /** Waiting for the refill timer: it stays pending until both directions are let go, and however deep a
      deficit was, enough firings with new ticks let its direction go. */
  method Wait(b: Bufferevent, ticks: seq<nat>) returns (fired: nat)
    requires b.Valid() && b.cfg.Some? && NewTicks(b.limit.lastUpdated, ticks)
    modifies b, b.limit
    ensures b.Valid() && b.cfg == old(b.cfg) && fired <= |ticks| && b.View() == Firings(old(b.View()), ticks[..fired])
    ensures forall j :: 0 <= j < fired ==> Firings(old(b.View()), ticks[..j]).timer
    ensures fired < |ticks| ==> !b.timer
    ensures ticks != [] && |ticks| * b.cfg.value.readRate > -old(b.limit.readLimit) ==> BW !in b.readSuspended
    ensures ticks != [] && |ticks| * b.cfg.value.writeRate > -old(b.limit.writeLimit) ==> BW !in b.writeSuspended
  {
    hide Ticks, Fired, BandwidthOk;
    fired := 0;
    while fired < |ticks| && b.timer
      invariant fired <= |ticks| && b.Valid() && b.View() == Firings(old(b.View()), ticks[..fired])
      invariant forall j :: 0 <= j < fired ==> Firings(old(b.View()), ticks[..j]).timer
    {
      assert ticks[..fired + 1][..fired] == ticks[..fired];
      b.RefillFired(ticks[fired]);
      fired := fired + 1;
    }
    NewPrefix(old(b.limit.lastUpdated), ticks, fired);
    FiringsShrink(old(b.View()), ticks[..fired]);
    FiringsSame(old(b.View()), ticks[..fired]);
    Released(b.View(), old(b.View()), ticks[..fired]);
    assert fired == |ticks| ==> ticks[..fired] == ticks;
  }

  lemma {:induction false} FiringsSame(v: Bev, ticks: seq<nat>)
    ensures Firings(v, ticks).cfg == v.cfg
    decreases |ticks|
  {
    if ticks != [] {
      FiringsSame(v, ticks[..|ticks| - 1]);
    }
  }

  /** A positive direction that fired is not suspended, and without a timer none is. */
  lemma {:induction false} Released(u: Bev, v: Bev, ticks: seq<nat>)
    requires BandwidthOk(u) && u.cfg.Some? && u == Firings(v, ticks)
    ensures !u.timer ==> BW !in u.readSuspended && BW !in u.writeSuspended
    ensures ticks != [] && u.readLimit > 0 ==> BW !in u.readSuspended
    ensures ticks != [] && u.writeLimit > 0 ==> BW !in u.writeSuspended
  {
    if ticks != [] {
      FiringsSame(v, ticks[..|ticks| - 1]);
    }
  }

  /** The number of ticks of the given length since the epoch, before it is cut to 32 bits. */
  function TickNumber(sec: nat, usec: nat, c: Cfg): nat
    requires c.msecPerTick > 0
  {
    (sec * 1000 + usec / 1000) / c.msecPerTick
  }

  /** The number in the bucket, counted in ticks of the old length, set against the new tick number. */
  function Gap(lastNumber: nat, number: nat): (gap: nat)
    ensures gap < TWO32
  {
    (number - lastNumber) % TWO32
  }

  lemma {:induction false} TicksOfGap(lastNumber: nat, number: nat, k: nat)
    ensures Ticks(lastNumber % TWO32, (number + k) % TWO32)
            == var n := (Gap(lastNumber, number) + k) % TWO32; if n <= INT_MAX then n else 0
  {
    assert ((number + k) % TWO32 - lastNumber % TWO32) % TWO32 == (number + k - lastNumber) % TWO32;
    assert (Gap(lastNumber, number) + k) % TWO32 == (number - lastNumber + k) % TWO32;
  }

  lemma {:induction false} GapIs(lastNumber: nat, number: nat)
    ensures 0 <= number - lastNumber < TWO32 ==> Gap(lastNumber, number) == number - lastNumber
    ensures 0 < lastNumber - number <= TWO32 ==> Gap(lastNumber, number) == TWO32 - (lastNumber - number)
  {
  }

  /** Changing the configuration while the bucket was last updated at old tick `lastNumber`: the tick after
      the change refills the bucket if and only if the gap between the two counts is below INT_MAX. While
      the counts are less than 2^31 apart this means that the new count is not behind the old one. */
  lemma {:induction false} RefillsGoOn(v: Bev, c: Cfg, sec: nat, usec: nat, lastNumber: nat)
    requires v.cfg.Some? && c.msecPerTick > 0 && v.last == lastNumber % TWO32
    ensures var number := TickNumber(sec, usec, c);
            var w := Configured(v, Some(c), Tick(sec, usec, c), false);
            && w.last == v.last
            && (Ticks(w.last, (number + 1) % TWO32) > 0 <==> Gap(lastNumber, number) < INT_MAX)
            && (-INT_MAX - 1 <= number - lastNumber < INT_MAX ==>
                  (Ticks(w.last, (number + 1) % TWO32) > 0 <==> lastNumber <= number))
  {
    hide Ticks, Tick, TickNumber, Gap;
    TicksOfGap(lastNumber, TickNumber(sec, usec, c), 1);
    GapIs(lastNumber, TickNumber(sec, usec, c));
  }

  /** Otherwise no tick refills the bucket until the new count has caught up with the old one, and the
      first tick after that counts as one tick. */
  lemma {:induction false} StallLasts(v: Bev, c: Cfg, sec: nat, usec: nat, lastNumber: nat, k: nat)
    requires v.cfg.Some? && c.msecPerTick > 0 && v.last == lastNumber % TWO32
    requires Gap(lastNumber, TickNumber(sec, usec, c)) >= INT_MAX
    ensures var number := TickNumber(sec, usec, c);
            var w := Configured(v, Some(c), Tick(sec, usec, c), false);
            var stall := TWO32 - Gap(lastNumber, number);
            && (1 <= k <= stall ==> Refilled(w, (number + k) % TWO32) == w)
            && Ticks(w.last, (number + stall + 1) % TWO32) == 1
            && (0 < lastNumber - number <= INT_MAX + 1 ==> stall == lastNumber - number)
  {
    hide Ticks, Tick, TickNumber, Gap;
    var number := TickNumber(sec, usec, c);
    TicksOfGap(lastNumber, number, k);
    TicksOfGap(lastNumber, number, TWO32 - Gap(lastNumber, number) + 1);
    GapIs(lastNumber, number);
  }

  /** A tick length that does not grow keeps the new count ahead, so refills go on until the counts are
      2^31 apart. */
  lemma {:induction false} ShorterTicksAreSafe(sec: nat, usec: nat, old_: Cfg, new_: Cfg)
    requires 0 < new_.msecPerTick <= old_.msecPerTick
    ensures TickNumber(sec, usec, old_) <= TickNumber(sec, usec, new_)
  {
    var ms := sec * 1000 + usec / 1000;
    var a := ms / old_.msecPerTick;
    QuotientBelow(ms, old_.msecPerTick, a);
    Distribute(new_.msecPerTick, old_.msecPerTick - new_.msecPerTick, a);
    QuotientBelow(ms, new_.msecPerTick, a);
  }

  /** From ticks of a millisecond to ticks of a second, at second 1000: nothing is refilled until second
      1000000 is over. */
  lemma {:induction false} LongerTicksStall(v: Bev, c: Cfg, sec: nat)
    requires v.cfg.Some? && c.msecPerTick == 1000 && 1000 < sec <= 1000000
    requires v.cfg.value.msecPerTick == 1 && v.last == Tick(1000, 0, v.cfg.value)
    ensures var w := Configured(v, Some(c), Tick(1000, 0, c), false); Refilled(w, Tick(sec, 0, c)) == w
  {
    assert TickNumber(1000, 0, v.cfg.value) == 1000000 && TickNumber(1000, 0, c) == 1000;
    assert sec * 1000 / 1000 == sec;
    StallLasts(v, c, 1000, 0, 1000000, sec - 1000);
  }
}
