/** Per-descriptor interest counts (evmap.c), the changelist that coalesces their changes, and the
    epoll backend that turns each queued change into one kernel operation (epoll.c). */
module InterestMaps {
  import opened Basics
  import opened EpollTable

  /** An event pending on a descriptor, with the kinds it waits for. */
  datatype Event = Event(id: nat, kinds: Kinds)

  /** `struct evmap_io` with its changelist slot. */
  datatype Ctx = Ctx(nread: nat, nwrite: nat, nclose: nat, events: seq<Event>, idxplus1: nat) {
    function Want(): Kinds {
      Kinds(nread > 0, nwrite > 0, nclose > 0)
    }
  }

  const NEW_CTX := Ctx(0, 0, 0, [], 0)
  const INT_MAX := 0x7fff_ffff
  const SLOT_SIZE := 8
  const MAX_COUNT := 0xffff
  /** Descriptors below this always get a slot. */
  const FD_LIMIT := 0x800_0000

  /** `struct event_change` */
  datatype Change = Change(fd: nat, was: Kinds, write: nat, read: nat, close: nat) {
    predicate Possible() {
      write < 3 && read < 3 && close < 3
    }

    function Left(): Kinds {
      Remaining(was, write, read, close)
    }

    predicate NoChange() {
      write == NONE && read == NONE && close == NONE
    }
  }

  /** The kinds somebody waits for. */
  ghost function Interest(events: seq<Event>): Kinds {
    Kinds(exists e :: e in events && e.kinds.read,
          exists e :: e in events && e.kinds.write,
          exists e :: e in events && e.kinds.close)
  }

  ghost function Reads(events: seq<Event>): nat {
    if events == [] then 0 else (if events[0].kinds.read then 1 else 0) + Reads(events[1..])
  }

  ghost function Writes(events: seq<Event>): nat {
    if events == [] then 0 else (if events[0].kinds.write then 1 else 0) + Writes(events[1..])
  }

  ghost function Closes(events: seq<Event>): nat {
    if events == [] then 0 else (if events[0].kinds.close then 1 else 0) + Closes(events[1..])
  }

  /** The counts are the numbers of pending events of each kind. */
  ghost predicate Counted(c: Ctx) {
    && c.nread == Reads(c.events) <= MAX_COUNT
    && c.nwrite == Writes(c.events) <= MAX_COUNT
    && c.nclose == Closes(c.events) <= MAX_COUNT
  }

  lemma {:induction false} CountsShowInterest(events: seq<Event>)
    ensures Kinds(Reads(events) > 0, Writes(events) > 0, Closes(events) > 0) == Interest(events)
  {
    if events != [] {
      var rest := events[1..];
      CountsShowInterest(rest);
      assert events == [events[0]] + rest;
      assert forall e :: e in events <==> e == events[0] || e in rest;
    }
  }

  /** A descriptor takes an event as long as no more than 65535 events wait there for any of its kinds; the
      descriptors that are sure of a slot are those below 2^27. */
  lemma {:induction false} RoomIs(events: seq<Event>, ev: Event)
    ensures Room(events, ev) <==>
              && (if ev.kinds.read then Reads(events) < 65535 else Reads(events) <= 65535)
              && (if ev.kinds.write then Writes(events) < 65535 else Writes(events) <= 65535)
              && (if ev.kinds.close then Closes(events) < 65535 else Closes(events) <= 65535)
    ensures FD_LIMIT == 134217728
  {
  }

  lemma {:induction false} CountsJoin(a: seq<Event>, b: seq<Event>)
    ensures Reads(a + b) == Reads(a) + Reads(b)
    ensures Writes(a + b) == Writes(a) + Writes(b)
    ensures Closes(a + b) == Closes(a) + Closes(b)
  {
    if a == [] {
      assert a + b == b;
    } else {
      assert (a + b)[1..] == a[1..] + b;
      CountsJoin(a[1..], b);
    }
  }

  function Find(events: seq<Event>, ev: Event): (i: nat)
    requires ev in events
    ensures i < |events| && events[i] == ev
  {
    if events[0] == ev then 0 else 1 + Find(events[1..], ev)
  }

  /** LIST_REMOVE */
  function Without(events: seq<Event>, ev: Event): seq<Event>
    requires ev in events
  {
    var i := Find(events, ev);
    events[..i] + events[i + 1..]
  }

  function One(b: bool): nat {
    if b then 1 else 0
  }

  lemma {:induction false} CountsWithout(events: seq<Event>, ev: Event)
    requires ev in events
    ensures Reads(events) == Reads(Without(events, ev)) + One(ev.kinds.read)
    ensures Writes(events) == Writes(Without(events, ev)) + One(ev.kinds.write)
    ensures Closes(events) == Closes(Without(events, ev)) + One(ev.kinds.close)
  {
    var i := Find(events, ev);
    var a, b := events[..i], events[i + 1..];
    assert events == a + ([ev] + b);
    CountsJoin(a, [ev] + b);
    CountsJoin(a, b);
    assert ([ev] + b)[1..] == b;
  }

  /** The state shared by the map, the changelist and the kernel. */
  datatype State = State(entries: seq<Option<Ctx>>, changes: seq<Change>, kernel: map<nat, Kinds>) {

    ghost predicate Has(fd: int) {
      0 <= fd < |entries| && entries[fd].Some?
    }

    ghost function Pending(fd: nat): seq<Event> {
      if Has(fd) then entries[fd].value.events else []
    }

    ghost function WantAt(fd: nat): Kinds {
      if Has(fd) then entries[fd].value.Want() else NOTHING
    }

    ghost function KernelAt(fd: nat): Kinds {
      if fd in kernel then kernel[fd] else NOTHING
    }

    /** 1 + the index of the queued change of `fd`, or 0. */
    ghost function Slot(fd: nat): nat {
      if Has(fd) then entries[fd].value.idxplus1 else 0
    }

    /** evmap_io_check_integrity_fn */
    ghost predicate CountsOk() {
      forall fd :: Has(fd) ==> Counted(entries[fd].value)
    }

    /** event_changelist_assert_ok, and that each queued change leads to what is wanted. */
    ghost predicate SlotsOk() {
      && (forall i :: 0 <= i < |changes| ==> Slot(changes[i].fd) == i + 1)
      && (forall i :: 0 <= i < |changes| ==> changes[i].Possible() && changes[i].Left() == WantAt(changes[i].fd))
      && (forall fd :: Slot(fd) <= |changes|)
      && (forall fd, i :: 0 <= i < |changes| && Slot(fd) == i + 1 ==> changes[i].fd == fd)
    }

    /** Queued changes were recorded against what the kernel holds; other descriptors are settled. */
    ghost predicate RecordOk() {
      && (forall i :: 0 <= i < |changes| ==> changes[i].was == KernelAt(changes[i].fd))
      && (forall fd :: Slot(fd) == 0 ==> KernelAt(fd) == WantAt(fd))
      && (forall fd :: fd in kernel ==> !kernel[fd].Empty())
    }

    ghost predicate Valid() {
      CountsOk() && SlotsOk() && RecordOk()
    }
  }

  /** What the kernel holds after one change. */
  ghost function Applied(kernel: map<nat, Kinds>, ch: Change): map<nat, Kinds> {
    if ch.NoChange() then kernel
    else if ch.Left().Empty() then kernel - {ch.fd} else kernel[ch.fd := ch.Left()]
  }

  lemma {:induction false} AppliedAt(kernel: map<nat, Kinds>, ch: Change)
    requires ch.was == if ch.fd in kernel then kernel[ch.fd] else NOTHING
    requires forall fd :: fd in kernel ==> !kernel[fd].Empty()
    ensures var after := Applied(kernel, ch);
            && (if ch.fd in after then after[ch.fd] else NOTHING) == ch.Left()
            && (forall fd :: fd in after ==> !after[fd].Empty())
            && (forall fd :: fd != ch.fd ==> (fd in after <==> fd in kernel) && (fd in after ==> after[fd] == kernel[fd]))
  {
  }

  /** event_changelist_add_ on a change record. */
  function AddTo(ch: Change, res: Kinds): Change {
    ch.(write := if res.write then ADD else ch.write,
        read := if res.read then ADD else ch.read,
        close := if res.close then ADD else ch.close)
  }

  /** event_changelist_del_ on a change record: deleting what was not there is no change. */
  function DelFrom(ch: Change, res: Kinds): Change {
    ch.(write := if !res.write then ch.write else if ch.was.write then DEL else NONE,
        read := if !res.read then ch.read else if ch.was.read then DEL else NONE,
        close := if !res.close then ch.close else if ch.was.close then DEL else NONE)
  }

  /** The change record epoll_nochangelist_add or epoll_nochangelist_del builds. */
  function Direct(fd: nat, was: Kinds, res: Kinds, value: nat): Change {
    Change(fd, was, if res.write then value else NONE, if res.read then value else NONE,
           if res.close then value else NONE)
  }

  /** The wanted kinds after those in `res` were switched on or off. */
  function Switched(want: Kinds, res: Kinds, add: bool): Kinds {
    if add then Kinds(want.read || res.read, want.write || res.write, want.close || res.close)
    else Kinds(want.read && !res.read, want.write && !res.write, want.close && !res.close)
  }

  lemma {:induction false} SwitchedChange(ch: Change, res: Kinds, add: bool)
    requires ch.Possible()
    ensures var ch' := if add then AddTo(ch, res) else DelFrom(ch, res);
            ch'.Possible() && ch'.fd == ch.fd && ch'.was == ch.was && ch'.Left() == Switched(ch.Left(), res, add)
  {
  }

  lemma {:induction false} SwitchedDirect(fd: nat, want: Kinds, res: Kinds, add: bool)
    requires add || ((res.read ==> want.read) && (res.write ==> want.write) && (res.close ==> want.close))
    ensures var ch := Direct(fd, want, res, if add then ADD else DEL);
            ch.Possible() && ch.Left() == Switched(want, res, add)
  {
  }

  /** Storing `c` for `fd` changes nothing for other descriptors. */
  lemma {:induction false} Store(st: State, fd: nat, c: Ctx, changes: seq<Change>, kernel: map<nat, Kinds>)
    requires st.CountsOk() && st.Has(fd) && Counted(c)
    ensures var st' := State(st.entries[fd := Some(c)], changes, kernel);
            && st'.CountsOk() && st'.Slot(fd) == c.idxplus1 && st'.WantAt(fd) == c.Want()
            && (forall f: nat :: f != fd ==> st'.Slot(f) == st.Slot(f))
            && (forall f: nat :: f != fd ==> st'.WantAt(f) == st.WantAt(f))
  {
  }

  /** No two queued changes are about the same descriptor. */
  lemma {:induction false} OneChangeEach(st: State, i: nat, fd: nat)
    requires st.SlotsOk() && i < |st.changes| && st.Slot(fd) > 0 && i != st.Slot(fd) - 1
    ensures st.changes[i].fd != fd
  {
  }

  /** Storing `c` for `fd` after its queued change was updated to lead there. */
  lemma {:induction false} QueuedStep(st: State, fd: nat, c: Ctx, ch: Change)
    requires st.Valid() && st.Has(fd) && st.Slot(fd) > 0 && c.idxplus1 == st.Slot(fd) && Counted(c)
    requires ch.Possible() && ch.fd == fd && ch.was == st.KernelAt(fd) && ch.Left() == c.Want()
    ensures State(st.entries[fd := Some(c)], st.changes[st.Slot(fd) - 1 := ch], st.kernel).Valid()
  {
    hide Counted, Change.Left, Change.Possible, Kinds.Empty, State.Slot, State.WantAt, State.CountsOk, Ctx.Want;
    var k := st.Slot(fd) - 1;
    Store(st, fd, c, st.changes[k := ch], st.kernel);
    var st' := State(st.entries[fd := Some(c)], st.changes[k := ch], st.kernel);
    forall i | 0 <= i < |st.changes| && i != k ensures st'.changes[i] == st.changes[i] && st.changes[i].fd != fd {
      OneChangeEach(st, i, fd);
    }
    assert st'.changes[k] == ch;
    assert st'.RecordOk();
    forall i | 0 <= i < |st'.changes|
      ensures st'.Slot(st'.changes[i].fd) == i + 1 && st'.changes[i].Possible() && st'.changes[i].Left() == st'.WantAt(st'.changes[i].fd)
    {
      assert st'.changes[i] == if i == k then ch else st.changes[i];
    }
    forall f: nat, i | 0 <= i < |st'.changes| && st'.Slot(f) == i + 1
      ensures st'.changes[i].fd == f
    {
      assert st.Slot(f) == i + 1 && st.changes[i].fd == f;
      assert st.changes[k].fd == fd;
      assert st'.changes[i] == if i == k then ch else st.changes[i];
    }
    assert st'.SlotsOk();
  }

  /** Storing `c` for `fd` with a new change at the end of the list. */
  lemma {:induction false} AppendedStep(st: State, fd: nat, c: Ctx, ch: Change)
    requires st.Valid() && st.Has(fd) && st.Slot(fd) == 0 && c.idxplus1 == |st.changes| + 1 && Counted(c)
    requires ch.Possible() && ch.fd == fd && ch.was == st.KernelAt(fd) && ch.Left() == c.Want()
    ensures State(st.entries[fd := Some(c)], st.changes + [ch], st.kernel).Valid()
  {
    hide Counted, Change.Left, Change.Possible, Kinds.Empty, State.Slot, State.WantAt, State.CountsOk, Ctx.Want;
    Store(st, fd, c, st.changes + [ch], st.kernel);
  }

  /** Storing `c` for `fd` after the kernel was told at once. */
  lemma {:induction false} DirectStep(st: State, fd: nat, c: Ctx, kernel: map<nat, Kinds>)
    requires st.Valid() && st.changes == [] && st.Has(fd) && c.idxplus1 == 0 && Counted(c)
    requires (if fd in kernel then kernel[fd] else NOTHING) == c.Want()
    requires forall f :: f in kernel ==> !kernel[f].Empty()
    requires forall f :: f != fd ==> (f in kernel <==> f in st.kernel) && (f in kernel ==> kernel[f] == st.kernel[f])
    ensures State(st.entries[fd := Some(c)], [], kernel).Valid()
  {
    hide Counted, Kinds.Empty, State.Slot, State.WantAt, State.CountsOk, Ctx.Want;
    Store(st, fd, c, [], kernel);
  }

  /** Storing `c` for `fd` when the wanted kinds stay the same. */
  lemma {:induction false} KeptStep(st: State, fd: nat, c: Ctx)
    requires st.Valid() && st.Has(fd) && c.idxplus1 == st.Slot(fd) && Counted(c) && c.Want() == st.WantAt(fd)
    ensures State(st.entries[fd := Some(c)], st.changes, st.kernel).Valid()
  {
    hide Counted, Change.Left, Change.Possible, Kinds.Empty, State.Slot, State.WantAt, State.CountsOk, Ctx.Want;
    Store(st, fd, c, st.changes, st.kernel);
  }

  /** More slots, or a fresh context in an unused slot, change nothing. */
  lemma {:induction false} OpenedStep(st: State, es: seq<Option<Ctx>>)
    requires st.Valid() && |st.entries| <= |es|
    requires forall f :: 0 <= f < |es| ==>
               if f < |st.entries| && st.entries[f].Some? then es[f] == st.entries[f]
               else es[f] == None || es[f] == Some(NEW_CTX)
    ensures State(es, st.changes, st.kernel).Valid()
    ensures forall f: nat :: State(es, st.changes, st.kernel).Pending(f) == st.Pending(f)
  {
    hide Change.Left, Change.Possible, Kinds.Empty;
    var st' := State(es, st.changes, st.kernel);
    assert forall f: nat :: st'.Slot(f) == st.Slot(f);
    assert forall f: nat :: st'.WantAt(f) == st.WantAt(f);
  }

  /** Pending lists after `fd` got the list `events`. */
  ghost predicate PendingBecomes(st: State, st': State, fd: nat, events: seq<Event>) {
    st'.Pending(fd) == events && forall f: nat :: f != fd ==> st'.Pending(f) == st.Pending(f)
  }

  /** The context after one event more or less. */
  function Plus(c: Ctx, ev: Event): Ctx {
    c.(nread := c.nread + One(ev.kinds.read), nwrite := c.nwrite + One(ev.kinds.write),
       nclose := c.nclose + One(ev.kinds.close), events := [ev] + c.events)
  }

  function Minus(c: Ctx, ev: Event): (d: Ctx)
    requires ev in c.events && Counted(c)
    ensures Counted(d)
  {
    CountsWithout(c.events, ev);
    c.(nread := c.nread - One(ev.kinds.read), nwrite := c.nwrite - One(ev.kinds.write),
       nclose := c.nclose - One(ev.kinds.close), events := Without(c.events, ev))
  }

  lemma {:induction false} PlusCounted(c: Ctx, ev: Event)
    requires Counted(c)
    ensures var d := Plus(c, ev);
            Counted(d) <==> d.nread <= MAX_COUNT && d.nwrite <= MAX_COUNT && d.nclose <= MAX_COUNT
  {
    assert ([ev] + c.events)[1..] == c.events;
  }

  class IoMap {
    /** base->io: one slot per descriptor. */
    var entries: seq<Option<Ctx>>
    /** base->changelist */
    var changes: seq<Change>
    /** What the kernel's epoll instance holds. */
    var kernel: map<nat, Kinds>
    /** Whether the backend is "epoll (with changelist)". */
    const coalesce: bool

    ghost function S(): State
      reads this
    {
      State(entries, changes, kernel)
    }

    ghost predicate Valid()
      reads this
    {
      S().Valid() && (!coalesce ==> changes == [])
    }

    constructor (coalesce: bool)
      ensures Valid() && entries == [] && changes == [] && kernel == map[] && this.coalesce == coalesce
    {
      entries, changes, kernel, this.coalesce := [], [], map[], coalesce;
    }

    /** epoll_ctl on an open descriptor: the errors are EEXIST and ENOENT. */
    method EpollCtl(op: EpollOp, fd: nat, events: Kinds) returns (ok: bool)
      requires op.CtlAdd? || op.CtlDel? || op.CtlMod?
      modifies this`kernel
      ensures ok <==> if op.CtlAdd? then fd !in old(kernel) else fd in old(kernel)
      ensures kernel == if !ok then old(kernel) else if op.CtlDel? then old(kernel) - {fd}
                        else old(kernel)[fd := events]
    {
      ok := if op.CtlAdd? then fd !in kernel else fd in kernel;
      if ok {
        kernel := if op.CtlDel? then kernel - {fd} else kernel[fd := events];
      }
    }

    /** epoll_apply_one_change. Whatever the kernel holds for the descriptor, even if it was closed
        and reopened since `ch.was` was recorded, it ends up holding what the change asks for. */
    method ApplyOne(ch: Change) returns (r: int)
      requires ch.Possible()
      modifies this`kernel
      ensures r == 0
      ensures kernel == Applied(old(kernel), ch)
    {
      TableIsRuleAt(ch.was, ch.write, ch.read, ch.close);
      var row := Lookup(ch.was, ch.write, ch.read, ch.close);
      if row.events.Empty() {
        assert row.op == NoOp;
        return 0;
      }
      var ok := EpollCtl(row.op, ch.fd, row.events);
      if ok {
        return 0;
      }
      if row.op.CtlMod? {
        ok := EpollCtl(CtlAdd, ch.fd, row.events);
        return if ok then 0 else -1;
      } else if row.op.CtlAdd? {
        ok := EpollCtl(CtlMod, ch.fd, row.events);
        return if ok then 0 else -1;
      }
      assert ch.fd !in kernel;
      r := 0;
    }

    /** evmap_make_space */
    method MakeSpace(slot: nat) returns (ok: bool)
      requires Valid() && slot >= |entries|
      modifies this`entries
      ensures Valid() && forall f: nat :: S().Pending(f) == old(S()).Pending(f)
      ensures slot < FD_LIMIT ==> ok
      ensures if ok then slot < |entries| && entries[slot].None? else entries == old(entries)
    {
      var n := if |entries| > 0 then |entries| else 32;
      if slot > INT_MAX / 2 {
        return false;
      }
      while n <= slot
        invariant |entries| <= n && (n <= 32 || n <= 2 * slot || n == |entries|) && n > 0
      {
        n := 2 * n;
      }
      if n > INT_MAX / SLOT_SIZE {
        return false;
      }
      var es := entries + seq(n - |entries|, _ => None);
      OpenedStep(S(), es);
      entries := es;
      ok := true;
    }

    /** `c` can now be stored for `fd`. */
    ghost predicate Ready(fd: nat, c: Ctx)
      reads this
    {
      S().Has(fd) && State(entries[fd := Some(c.(idxplus1 := entries[fd].value.idxplus1))], changes, kernel).Valid()
    }

    /** epoll_nochangelist_add and epoll_nochangelist_del */
    method TellKernel(fd: nat, was: Kinds, res: Kinds, add: bool, ghost c: Ctx) returns (r: int)
      requires Valid() && !coalesce && S().Has(fd) && was == S().WantAt(fd)
      requires add || ((res.read ==> was.read) && (res.write ==> was.write) && (res.close ==> was.close))
      requires Counted(c) && c.Want() == Switched(was, res, add)
      modifies this`kernel
      ensures r == 0 && Ready(fd, c)
    {
      hide Counted, Change.Left, Change.Possible, Switched, Direct, Applied, Kinds.Empty, Ctx.Want;
      ghost var st := S();
      var ch := Direct(fd, was, res, if add then ADD else DEL);
      SwitchedDirect(fd, was, res, add);
      assert ch.fd == fd && ch.was == was by { DirectIs(fd, was, res, if add then ADD else DEL); }
      assert st.Slot(fd) == 0;
      AppliedAt(kernel, ch);
      CountedSlot(c);
      r := ApplyOne(ch);
      DirectStep(st, fd, c.(idxplus1 := 0), kernel);
    }

    /** event_changelist_add_ and event_changelist_del_ */
    method Queue(fd: nat, was: Kinds, res: Kinds, add: bool, ghost c: Ctx) returns (r: int)
      requires Valid() && coalesce && S().Has(fd) && was == S().WantAt(fd)
      requires Counted(c) && c.Want() == Switched(was, res, add)
      modifies this`entries, this`changes
      ensures r == 0 && Ready(fd, c)
      ensures |entries| == |old(entries)|
      ensures entries == old(entries)[fd := Some(old(entries)[fd].value.(idxplus1 := entries[fd].value.idxplus1))]
    {
      hide Counted, Change.Left, Change.Possible, Switched, AddTo, DelFrom, Kinds.Empty, Ctx.Want;
      ghost var st := S();
      CountedSlot(c);
      var ctx := entries[fd].value;
      if ctx.idxplus1 == 0 {
        var fresh_ := Change(fd, was, NONE, NONE, NONE);
        assert fresh_.Possible() && fresh_.Left() == was by { FreshChange(fd, was); }
        SwitchedChange(fresh_, res, add);
        var ch := if add then AddTo(fresh_, res) else DelFrom(fresh_, res);
        AppendedStep(st, fd, c.(idxplus1 := |changes| + 1), ch);
        entries := entries[fd := Some(ctx.(idxplus1 := |changes| + 1))];
        changes := changes + [ch];
      } else {
        var i := ctx.idxplus1 - 1;
        assert st.Slot(fd) == i + 1;
        SwitchedChange(changes[i], res, add);
        var ch := if add then AddTo(changes[i], res) else DelFrom(changes[i], res);
        QueuedStep(st, fd, c.(idxplus1 := i + 1), ch);
        changes := changes[i := ch];
      }
      r := 0;
      assert Ready(fd, c) by {
        assert entries[fd := Some(c.(idxplus1 := entries[fd].value.idxplus1))] ==
               old(entries)[fd := Some(c.(idxplus1 := entries[fd].value.idxplus1))];
      }
    }

    /** epoll_apply_changes */
    method ApplyChanges() returns (r: int)
      requires Valid()
      modifies this`kernel
      ensures r == 0 && PartlyApplied(S(), |changes|) && S().SlotsOk() && S().CountsOk()
    {
      hide Applied, PartlyApplied, Change.Left, Change.Possible, State.CountsOk;
      var i := 0;
      r := 0;
      PartlyAppliedStart(S());
      ghost var st := S();
      while i < |changes|
        invariant i <= |changes| && r == 0 && PartlyApplied(S(), i)
        invariant S() == st.(kernel := kernel)
      {
        SlotsKept(st, kernel);
        PartlyAppliedStep(S(), i);
        var one := ApplyOne(changes[i]);
        if one < 0 {
          r := -1;
        }
        i := i + 1;
      }
      SlotsKept(st, kernel);
    }

    /** event_changelist_remove_all_ */
    method RemoveAll()
      requires S().SlotsOk() && S().CountsOk() && PartlyApplied(S(), |changes|)
      modifies this`entries, this`changes
      ensures Valid() && changes == []
      ensures forall f: nat :: S().Pending(f) == old(S()).Pending(f)
      ensures forall f: nat :: S().KernelAt(f) == S().WantAt(f)
    {
      hide PartlyApplied, Change.Left, Change.Possible, Counted;
      ghost var st := S();
      var i := 0;
      while i < |changes|
        invariant i <= |changes| && changes == st.changes && Unslotted(st, entries, i)
      {
        UnslottedStep(st, entries, i);
        var fd := changes[i].fd;
        entries := entries[fd := Some(entries[fd].value.(idxplus1 := 0))];
        i := i + 1;
      }
      changes := [];
      UnslottedEnd(st, entries);
    }

    /** The part of epoll_dispatch that precedes the wait. */
    method Flush() returns (r: int)
      requires Valid()
      modifies this`entries, this`changes, this`kernel
      ensures Valid() && r == 0 && changes == []
      ensures forall f: nat :: S().Pending(f) == old(S()).Pending(f)
      ensures forall f: nat :: S().KernelAt(f) == S().WantAt(f)
    {
      hide State.Valid, PartlyApplied, State.SlotsOk, State.CountsOk;
      ghost var st := S();
      r := ApplyChanges();
      RemoveAll();
    }

    /** The backend call, then the new counts. */
    method Switch(fd: nat, res: Kinds, add: bool, c: Ctx) returns (r: int)
      requires Valid() && S().Has(fd) && Counted(c)
      requires var was := S().WantAt(fd);
               && c.Want() == Switched(was, res, add)
               && (add || ((res.read ==> was.read) && (res.write ==> was.write) && (res.close ==> was.close)))
      modifies this`entries, this`changes, this`kernel
      ensures Valid() && PendingBecomes(old(S()), S(), fd, c.events)
      ensures r == if res.Empty() then 0 else 1
    {
      hide Counted, Switched, State.Valid, State.WantAt, Ctx.Want;
      ghost var es := entries;
      var was := Kinds(entries[fd].value.nread > 0, entries[fd].value.nwrite > 0, entries[fd].value.nclose > 0);
      assert was == S().WantAt(fd) by { WantIs(S(), fd); }
      r := 0;
      if !res.Empty() {
        if coalesce {
          r := Queue(fd, was, res, add, c);
        } else {
          r := TellKernel(fd, was, res, add, c);
        }
        r := if r == -1 then -1 else 1;
      } else {
        assert Ready(fd, c) by {
          SwitchedNothing(was, res, add);
          CountedSlot(c);
          KeptStep(S(), fd, c.(idxplus1 := entries[fd].value.idxplus1));
        }
      }
      entries := entries[fd := Some(c.(idxplus1 := entries[fd].value.idxplus1))];
    }

    /** evmap_io_add_ */
    method IoAdd(fd: int, ev: Event) returns (r: int)
      requires Valid()
      modifies this`entries, this`changes, this`kernel
      ensures Valid() && -1 <= r <= 1
      ensures fd < 0 || r == -1 ==> forall f: nat :: S().Pending(f) == old(S()).Pending(f)
      ensures fd < 0 ==> r == 0
      ensures fd >= 0 && r != -1 ==> PendingBecomes(old(S()), S(), fd, [ev] + old(S()).Pending(fd))
      ensures 0 <= fd < FD_LIMIT && old(Room(S().Pending(fd), ev)) ==> r >= 0
      ensures fd >= 0 && r >= 0 ==> old(Room(S().Pending(fd), ev))
      ensures fd >= 0 && r >= 0 ==>
                (r == 1 <==> Interest([ev] + old(S()).Pending(fd)) != Interest(old(S()).Pending(fd)))
    {
      hide Counted, Interest, Room, Switched, PendingBecomes;
      if fd < 0 {
        return 0;
      }
      if fd >= |entries| {
        var ok := MakeSpace(fd);
        if !ok {
          return -1;
        }
      }
      if entries[fd].None? {
        OpenedStep(S(), entries[fd := Some(NEW_CTX)]);
        entries := entries[fd := Some(NEW_CTX)];
      }
      ghost var st := S();
      var ctx := entries[fd].value;
      var c := Plus(ctx, ev);
      PlusCounted(ctx, ev);
      PlusFacts(ctx, ev);
      if c.nread > MAX_COUNT || c.nwrite > MAX_COUNT || c.nclose > MAX_COUNT {
        return -1;
      }
      var res := Kinds(ev.kinds.read && c.nread == 1, ev.kinds.write && c.nwrite == 1, ev.kinds.close && c.nclose == 1);
      r := Switch(fd, res, true, c);
      PendingSame(old(S()), st, S(), fd, c.events);
    }

    /** evmap_io_del_, for an event that was added */
    method IoDel(fd: int, ev: Event) returns (r: int)
      requires Valid() && (fd >= 0 ==> ev in S().Pending(fd))
      modifies this`entries, this`changes, this`kernel
      ensures Valid()
      ensures fd < 0 ==> r == 0 && S() == old(S())
      ensures fd >= 0 ==> PendingBecomes(old(S()), S(), fd, Without(old(S()).Pending(fd), ev))
      ensures fd >= 0 ==>
                (r == 1 <==> Interest(Without(old(S()).Pending(fd), ev)) != Interest(old(S()).Pending(fd)))
    {
      hide Counted, Interest, Switched, PendingBecomes;
      if fd < 0 {
        return 0;
      }
      var ctx := entries[fd].value;
      var c := Minus(ctx, ev);
      var res := Kinds(ev.kinds.read && c.nread == 0, ev.kinds.write && c.nwrite == 0, ev.kinds.close && c.nclose == 0);
      MinusFacts(ctx, ev);
      r := Switch(fd, res, false, c);
    }
  }

  /** The first `i` queued changes have reached the kernel. */
  ghost predicate PartlyApplied(st: State, i: nat) {
    && (forall j :: i <= j < |st.changes| ==> st.changes[j].was == st.KernelAt(st.changes[j].fd))
    && (forall fd: nat :: st.Slot(fd) <= i ==> st.KernelAt(fd) == st.WantAt(fd))
    && (forall fd :: fd in st.kernel ==> !st.kernel[fd].Empty())
  }

  lemma {:induction false} PartlyAppliedStart(st: State)
    requires st.RecordOk()
    ensures PartlyApplied(st, 0)
  {
  }

  lemma {:induction false} SlotsKept(st: State, kernel: map<nat, Kinds>)
    requires st.SlotsOk() && st.CountsOk()
    ensures st.(kernel := kernel).SlotsOk() && st.(kernel := kernel).CountsOk()
  {
    hide Counted, Change.Left, Change.Possible;
    var st' := st.(kernel := kernel);
    assert forall fd: nat :: st'.Slot(fd) == st.Slot(fd) && st'.WantAt(fd) == st.WantAt(fd);
    assert forall fd :: st'.Has(fd) == st.Has(fd);
  }

  lemma {:induction false} PartlyAppliedStep(st: State, i: nat)
    requires st.SlotsOk() && i < |st.changes| && PartlyApplied(st, i)
    ensures PartlyApplied(st.(kernel := Applied(st.kernel, st.changes[i])), i + 1)
  {
    hide Applied, Change.Left, Change.Possible, Kinds.Empty, State.Slot, State.WantAt;
    var ch := st.changes[i];
    var st' := st.(kernel := Applied(st.kernel, ch));
    AppliedAt(st.kernel, ch);
    KernelOnly(st, st'.kernel);
    forall j | i < j < |st.changes| ensures st.changes[j].fd != ch.fd {
      OneChangeEach(st, j, ch.fd);
    }
  }

  lemma {:induction false} KernelOnly(st: State, kernel: map<nat, Kinds>)
    ensures var st' := st.(kernel := kernel);
            && (forall fd: nat :: st'.Slot(fd) == st.Slot(fd))
            && (forall fd: nat :: st'.WantAt(fd) == st.WantAt(fd))
  {
  }

  /** The first `i` changes have been taken out of their descriptors' slots. */
  ghost predicate Unslotted(st: State, es: seq<Option<Ctx>>, i: nat) {
    && |es| == |st.entries|
    && forall fd :: 0 <= fd < |es| ==>
         if st.entries[fd].None? then es[fd].None?
         else
           && es[fd].Some?
           && es[fd].value == st.entries[fd].value.(idxplus1 := if st.entries[fd].value.idxplus1 <= i then 0 else st.entries[fd].value.idxplus1)
  }

  lemma {:induction false} UnslottedStep(st: State, es: seq<Option<Ctx>>, i: nat)
    requires st.SlotsOk() && Unslotted(st, es, i) && i < |st.changes|
    ensures var fd := st.changes[i].fd;
            fd < |es| && es[fd].Some? && Unslotted(st, es[fd := Some(es[fd].value.(idxplus1 := 0))], i + 1)
  {
    hide Change.Left, Change.Possible;
    var fd := st.changes[i].fd;
    assert st.Slot(fd) == i + 1;
    forall f | 0 <= f < |es| && es[f].Some? && st.entries[f].value.idxplus1 == i + 1 ensures f == fd {
      assert st.Slot(f) == i + 1;
    }
  }

  lemma {:induction false} UnslottedEnd(st: State, es: seq<Option<Ctx>>)
    requires st.SlotsOk() && st.CountsOk() && PartlyApplied(st, |st.changes|) && Unslotted(st, es, |st.changes|)
    ensures var st' := State(es, [], st.kernel);
            && st'.Valid()
            && (forall f: nat :: st'.Pending(f) == st.Pending(f))
            && (forall f: nat :: st'.KernelAt(f) == st'.WantAt(f))
  {
    hide Change.Left, Change.Possible, Kinds.Empty;
    var st' := State(es, [], st.kernel);
    forall f: nat ensures st'.Slot(f) == 0 && st'.WantAt(f) == st.WantAt(f) {
      assert st.Slot(f) <= |st.changes|;
    }
    forall f | st'.Has(f) ensures Counted(es[f].value) {
      assert Counted(st.entries[f].value);
    }
  }

  /** One more event of these kinds can be counted in 16 bits. */
  ghost predicate Room(events: seq<Event>, ev: Event) {
    && Reads(events) + One(ev.kinds.read) <= MAX_COUNT
    && Writes(events) + One(ev.kinds.write) <= MAX_COUNT
    && Closes(events) + One(ev.kinds.close) <= MAX_COUNT
  }

  lemma {:induction false} WantIs(st: State, fd: nat)
    requires st.Has(fd)
    ensures st.WantAt(fd) == st.entries[fd].value.Want()
    ensures st.WantAt(fd) == Kinds(st.entries[fd].value.nread > 0, st.entries[fd].value.nwrite > 0, st.entries[fd].value.nclose > 0)
  {
  }

  lemma {:induction false} SwitchedNothing(want: Kinds, res: Kinds, add: bool)
    requires res.Empty()
    ensures Switched(want, res, add) == want
  {
  }

  lemma {:induction false} PendingSame(a: State, b: State, c: State, fd: nat, events: seq<Event>)
    requires forall f: nat :: b.Pending(f) == a.Pending(f)
    requires PendingBecomes(b, c, fd, events)
    ensures PendingBecomes(a, c, fd, events)
  {
  }

  /** What adding an event means for the counts and the wanted kinds. */
  lemma {:induction false} PlusFacts(c: Ctx, ev: Event)
    requires Counted(c)
    ensures var d := Plus(c, ev);
            var res := Kinds(ev.kinds.read && d.nread == 1, ev.kinds.write && d.nwrite == 1, ev.kinds.close && d.nclose == 1);
            && d.Want() == Switched(c.Want(), res, true)
            && (res.Empty() <==> Interest([ev] + c.events) == Interest(c.events))
            && (Room(c.events, ev) <==> d.nread <= MAX_COUNT && d.nwrite <= MAX_COUNT && d.nclose <= MAX_COUNT)
  {
    hide Interest;
    CountsShowInterest(c.events);
    CountsShowInterest([ev] + c.events);
    assert ([ev] + c.events)[1..] == c.events;
  }

  /** What deleting an event means for the counts and the wanted kinds. */
  lemma {:induction false} MinusFacts(c: Ctx, ev: Event)
    requires Counted(c) && ev in c.events
    ensures var d := Minus(c, ev);
            var res := Kinds(ev.kinds.read && d.nread == 0, ev.kinds.write && d.nwrite == 0, ev.kinds.close && d.nclose == 0);
            var was := c.Want();
            && d.Want() == Switched(was, res, false)
            && (res.read ==> was.read) && (res.write ==> was.write) && (res.close ==> was.close)
            && (res.Empty() <==> Interest(Without(c.events, ev)) == Interest(c.events))
  {
    hide Interest, Without;
    CountsWithout(c.events, ev);
    CountsShowInterest(c.events);
    CountsShowInterest(Without(c.events, ev));
  }

  lemma {:induction false} DirectIs(fd: nat, was: Kinds, res: Kinds, value: nat)
    ensures Direct(fd, was, res, value).fd == fd && Direct(fd, was, res, value).was == was
  {
  }

  lemma {:induction false} FreshChange(fd: nat, was: Kinds)
    ensures Change(fd, was, NONE, NONE, NONE).Possible() && Change(fd, was, NONE, NONE, NONE).Left() == was
  {
  }

  lemma {:induction false} CountedSlot(c: Ctx)
    requires Counted(c)
    ensures forall i: nat :: Counted(c.(idxplus1 := i)) && c.(idxplus1 := i).Want() == c.Want()
  {
  }

  /** A step of a run: a call into the map, or a dispatch. */
  datatype IoOp = Add(fd: nat, ev: Event) | Del(fd: nat, ev: Event) | Dispatch

  /** Pending events by descriptor, without counts, changes or kernel. */
  type Lists = map<nat, seq<Event>>

  ghost function At(m: Lists, fd: nat): seq<Event> {
    if fd in m then m[fd] else []
  }

  ghost function StepLists(op: IoOp, m: Lists): Lists
    requires op.Del? ==> op.ev in At(m, op.fd)
  {
    match op
    case Add(fd, ev) => if Room(At(m, fd), ev) then m[fd := [ev] + At(m, fd)] else m
    case Del(fd, ev) => m[fd := Without(At(m, fd), ev)]
    case Dispatch => m
  }

  /** Every delete is about an event that is pending at that point. */
  ghost predicate Legal(ops: seq<IoOp>, m: Lists)
    decreases |ops|
  {
    ops == [] ||
    (var op := ops[0];
     && (!op.Dispatch? ==> op.fd < FD_LIMIT)
     && (op.Del? ==> op.ev in At(m, op.fd))
     && Legal(ops[1..], StepLists(op, m)))
  }

  ghost function RunLists(ops: seq<IoOp>, m: Lists): Lists
    requires Legal(ops, m)
    decreases |ops|
  {
    if ops == [] then m else RunLists(ops[1..], StepLists(ops[0], m))
  }

  ghost predicate Holds(m: Lists, st: State) {
    forall fd: nat :: st.Pending(fd) == At(m, fd)
  }

  /** A run of legal operations leaves exactly the pending lists it should. */
  method Run(io: IoMap, ops: seq<IoOp>, ghost m: Lists)
    requires io.Valid() && Holds(m, io.S()) && Legal(ops, m)
    modifies io`entries, io`changes, io`kernel
    ensures io.Valid() && Holds(RunLists(ops, m), io.S())
  {
    hide State.Valid, Interest, Room;
    var i := 0;
    ghost var cur := m;
    while i < |ops|
      invariant i <= |ops| && io.Valid() && Holds(cur, io.S())
      invariant Legal(ops[i..], cur) && RunLists(ops[i..], cur) == RunLists(ops, m)
    {
      assert ops[i..][0] == ops[i] && ops[i..][1..] == ops[i + 1..];
      Perform(io, ops[i], cur);
      cur := StepLists(ops[i], cur);
      i := i + 1;
    }
  }

  method Perform(io: IoMap, op: IoOp, ghost m: Lists)
    requires io.Valid() && Holds(m, io.S()) && (!op.Dispatch? ==> op.fd < FD_LIMIT)
    requires op.Del? ==> op.ev in At(m, op.fd)
    modifies io`entries, io`changes, io`kernel
    ensures io.Valid() && Holds(StepLists(op, m), io.S())
  {
    hide State.Valid, Interest, Room, State.Pending;
    match op
    case Add(fd, ev) =>
      assert io.S().Pending(fd) == At(m, fd);
      var r := io.IoAdd(fd, ev);
    case Del(fd, ev) =>
      assert io.S().Pending(fd) == At(m, fd);
      var r := io.IoDel(fd, ev);
    case Dispatch =>
      var r := io.Flush();
  }

  /** Nothing is queued, so the kernel holds exactly the kinds somebody waits for. */
  lemma {:induction false} FlushedInterest(st: State, m: Lists)
    requires st.Valid() && st.changes == [] && Holds(m, st)
    ensures forall fd: nat :: st.KernelAt(fd) == Interest(At(m, fd))
  {
    hide Interest;
    forall fd: nat ensures st.KernelAt(fd) == Interest(At(m, fd)) {
      assert st.Slot(fd) == 0;
      assert st.Pending(fd) == At(m, fd);
      if st.Has(fd) {
        assert Counted(st.entries[fd].value);
        CountsShowInterest(st.entries[fd].value.events);
      } else {
        CountsShowInterest([]);
      }
    }
  }

  /** Coalescing every change between two dispatches and telling the kernel about each change at
      once leave the same interest set, and it is the set of kinds with a non-zero count. */
  method CoalescingAgrees(a: IoMap, b: IoMap, ops: seq<IoOp>, ghost m: Lists)
    requires a != b && a.coalesce && !b.coalesce && a.Valid() && b.Valid()
    requires Holds(m, a.S()) && Holds(m, b.S()) && Legal(ops, m)
    modifies a`entries, a`changes, a`kernel, b`entries, b`changes, b`kernel
    ensures a.Valid() && b.Valid() && a.kernel == b.kernel
    ensures forall fd: nat :: a.S().KernelAt(fd) == Interest(At(RunLists(ops, m), fd))
  {
    hide State.Valid, Interest, RunLists, Legal;
    Run(a, ops, m);
    Run(b, ops, m);
    ghost var end := RunLists(ops, m);
    var r := a.Flush();
    FlushedInterest(a.S(), end);
    FlushedInterest(b.S(), end);
    SameKernel(a.S(), b.S());
  }

  lemma {:induction false} SameKernel(s: State, t: State)
    requires s.Valid() && t.Valid() && forall fd: nat :: s.KernelAt(fd) == t.KernelAt(fd)
    ensures s.kernel == t.kernel
  {
    forall fd: nat ensures (fd in s.kernel <==> fd in t.kernel) && (fd in s.kernel ==> s.kernel[fd] == t.kernel[fd]) {
      assert s.KernelAt(fd) == t.KernelAt(fd);
    }
  }
}
