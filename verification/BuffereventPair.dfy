/** bufferevent_pair.c: two bufferevents joined back to back, each one's output feeding the other's
    input, with the suspend flags and read watermarks of bufferevent.c. */
module BuffereventPair {
  import opened Basics
  import opened Chains
  import opened Evbuffers
  import opened EvbufferMoves
  import opened EvbufferSearch
  import opened PairSpec

  /** One end: `struct bufferevent_pair`. */
  class End {
    const input: Evbuffer
    const output: Evbuffer
    var enabledRead: bool
    var enabledWrite: bool
    var readSuspended: set<Reason>
    var writeSuspended: set<Reason>
    /** wm_read.high; 0 when there is no mark */
    var high: nat

    constructor ()
      ensures fresh(input) && fresh(output) && input != output
      ensures input.Valid() && output.Valid() && input.Contents() == [] && output.Contents() == []
      ensures input.chains == [] && output.chains == []
      ensures input.freezeEnd && !input.freezeStart && output.freezeStart && !output.freezeEnd
      ensures !enabledRead && enabledWrite && readSuspended == {} && writeSuspended == {} && high == 0
    {
      input := new Evbuffer();
      output := new Evbuffer();
      enabledRead, enabledWrite, readSuspended, writeSuspended, high := false, true, {}, {}, 0;
      new;
      input.freezeEnd := true;
      output.freezeStart := true;
    }

    ghost function View(): Side
      requires input.Valid() && output.Valid()
      reads this, input, output
    {
      Side(input.Contents(), output.Contents(), enabledRead, enabledWrite, readSuspended, writeSuspended, high)
    }
  }

  /** One direction: nobody else can add to the reader's input or take from the writer's output, and
      the bytes on their way are in memory. */
  ghost predicate Channel(src: End, dst: End)
    reads src.output, dst.input
  {
    && src.output != dst.input && src.output.Valid() && dst.input.Valid() && Separate(dst.input, src.output)
    && Frozen(src.output, dst.input)
    && src.output.totalLen + dst.input.totalLen <= SIZE_MAX
  }

  predicate Apart(x: End, y: End) {
    && x != y && x.input != x.output && y.input != y.output
    && x.input != y.input && x.output != y.output
  }

  /** Two ends joined in both directions. */
  ghost predicate Linked(x: End, y: End)
    reads x.input, x.output, y.input, y.output
  {
    Apart(x, y) && Channel(x, y) && Channel(y, x)
  }

  ghost function Now(me: End, peer: End): Ends
    requires Linked(me, peer)
    reads me, me.input, me.output, peer, peer.input, peer.output
  {
    Ends(me.View(), peer.View())
  }

  /** Linked, the watermark flags right, and no bytes waiting that could move. */
  ghost predicate Ok(x: End, y: End)
    reads x, x.input, x.output, y, y.input, y.output
  {
    Linked(x, y) && Good(Now(x, y))
  }

  /** bufferevent_pair_new */
  method PairNew() returns (x: End, y: End)
    ensures Ok(x, y) && fresh(x) && fresh(y)
    ensures fresh(x.input) && fresh(x.output) && fresh(y.input) && fresh(y.output)
    ensures var new_ := Side([], [], false, true, {}, {}, 0); Now(x, y) == Ends(new_, new_)
  {
    x := new End();
    y := new End();
  }

  /** evbuffer_freeze and evbuffer_unfreeze */
  method Freeze(buf: Evbuffer, atFront: bool, on: bool)
    requires buf.Valid()
    modifies buf`freezeStart, buf`freezeEnd
    ensures buf.Valid() && buf.Contents() == old(buf.Contents())
    ensures buf.freezeStart == (if atFront then on else old(buf.freezeStart))
    ensures buf.freezeEnd == if atFront then old(buf.freezeEnd) else on
  {
    if atFront {
      buf.freezeStart := on;
    } else {
      buf.freezeEnd := on;
    }
  }

  /** The frozen ends of the two buffers of one direction. */
  ghost predicate Frozen(from: Evbuffer, to: Evbuffer)
    reads from, to
  {
    to.freezeEnd && !to.freezeStart && from.freezeStart && !from.freezeEnd
  }

  /** The part of be_pair_transfer that moves bytes. */
  method Move(from: Evbuffer, to: Evbuffer, high: nat, ignoreWm: bool)
    requires from != to && from.Valid() && to.Valid() && Separate(to, from) && Frozen(from, to)
    requires from.totalLen + to.totalLen <= SIZE_MAX
    modifies from, to
    ensures from.Valid() && to.Valid() && Separate(to, from) && Frozen(from, to)
    ensures var n := Portion(old(from.totalLen), old(to.totalLen), high, ignoreWm);
            && to.Contents() == old(to.Contents()) + old(from.Contents())[..n]
            && from.Contents() == old(from.Contents())[n..]
  {
    hide Flat, SumOff, Distinct, AllValid, PosOf, LastWithData, LinkAt, Addresses, ToInt, Evbuffer.Valid;
    Freeze(from, true, false);
    Freeze(to, false, false);
    if high != 0 && to.totalLen < high {
      var _ := RemoveBuffer(from, to, high - to.totalLen);
    } else if high == 0 || ignoreWm {
      var _ := AddBuffer(to, from);
    }
    Freeze(from, true, true);
    Freeze(to, false, true);
  }

  /** be_pair_transfer, with the input's watermark callback. */
  method Transfer(src: End, dst: End, ignoreWm: bool)
    requires Linked(src, dst)
    modifies src.output, dst.input, dst`readSuspended
    ensures Linked(src, dst) && Now(src, dst) == ToPeer(old(Now(src, dst)), ignoreWm)
  {
    hide Flat, SumOff, Distinct, AllValid, PosOf, LastWithData, LinkAt, Addresses, Evbuffer.Valid, Separate;
    var waiting := src.output.totalLen;
    Move(src.output, dst.input, dst.high, ignoreWm);
    // bufferevent_inbuf_wm_cb; below the mark nothing is left to hand over
    if dst.high != 0 && src.output.totalLen != waiting {
      if dst.input.totalLen >= dst.high {
        dst.readSuspended := dst.readSuspended + {WM};
      } else {
        dst.readSuspended := dst.readSuspended - {WM};
      }
    }
  }

  /** be_pair_wants_to_talk */
  predicate Talks(src: End, dst: End)
    reads src, src.output, dst
  {
    src.enabledWrite && dst.enabledRead && dst.readSuspended == {} && src.output.totalLen != 0
  }

  lemma {:induction false} TalksIs(src: End, dst: End)
    requires Linked(src, dst)
    ensures Talks(src, dst) <==> WantsToTalk(src.View(), dst.View())
    ensures Linked(dst, src) && Now(dst, src) == Swap(Now(src, dst))
  {
    hide Flat, SumOff, Distinct, AllValid, PosOf, LastWithData, LinkAt, Addresses, Evbuffer.Valid, Separate;
    assert |src.output.Contents()| == src.output.totalLen;
  }

  /** be_pair_enable */
  method EnableBackend(me: End, peer: End, read: bool, write: bool)
    requires Linked(me, peer)
    modifies me.input, me.output, peer.input, peer.output, me`readSuspended, peer`readSuspended
    ensures Linked(me, peer) && Now(me, peer) == BackendEnabled(old(Now(me, peer)), read, write)
  {
    hide ToPeer, WantsToTalk, Linked;
    TalksIs(me, peer);
    TalksIs(peer, me);
    if read && Talks(peer, me) {
      Transfer(peer, me, false);
      TalksIs(peer, me);
      TalksIs(me, peer);
    }
    if write && Talks(me, peer) {
      Transfer(me, peer, false);
    }
  }

  /** bufferevent_unsuspend_read_ */
  method UnsuspendRead(me: End, peer: End, what: Reason)
    requires Linked(me, peer)
    modifies me.input, me.output, peer.input, peer.output, me`readSuspended, peer`readSuspended
    ensures Linked(me, peer) && Now(me, peer) == ReadLet(old(Now(me, peer)), what)
  {
    hide BackendEnabled, Channel;
    me.readSuspended := me.readSuspended - {what};
    if me.readSuspended == {} && me.enabledRead {
      EnableBackend(me, peer, true, false);
    }
  }

  /** bufferevent_unsuspend_write_ */
  method UnsuspendWrite(me: End, peer: End, what: Reason)
    requires Linked(me, peer)
    modifies me.input, me.output, peer.input, peer.output, me`readSuspended, peer`readSuspended, me`writeSuspended
    ensures Linked(me, peer) && Now(me, peer) == WriteLet(old(Now(me, peer)), what)
  {
    hide BackendEnabled, Channel;
    me.writeSuspended := me.writeSuspended - {what};
    if me.writeSuspended == {} && me.enabledWrite {
      EnableBackend(me, peer, false, true);
    }
  }

  /** bufferevent_inbuf_wm_cb and the end of bufferevent_setwatermark */
  method CheckMark(me: End, peer: End)
    requires Linked(me, peer)
    modifies me.input, me.output, peer.input, peer.output, me`readSuspended, peer`readSuspended
    ensures Linked(me, peer) && Now(me, peer) == MarkChecked(old(Now(me, peer)))
  {
    hide ReadLet, Channel;
    Lengths(me, peer);
    if me.high != 0 && me.input.totalLen >= me.high {
      me.readSuspended := me.readSuspended + {WM};
    } else {
      UnsuspendRead(me, peer, WM);
    }
  }

  /** bufferevent_setwatermark for the high mark of reading */
  method SetHigh(me: End, peer: End, high: nat)
    requires Linked(me, peer)
    modifies me.input, me.output, peer.input, peer.output, me`readSuspended, peer`readSuspended, me`high
    ensures Linked(me, peer) && Now(me, peer) == After(old(Now(me, peer)), Marking(high))
  {
    hide MarkChecked, Channel;
    me.high := high;
    CheckMark(me, peer);
  }

  /** bufferevent_suspend_read_ */
  method SuspendRead(me: End, peer: End, what: Reason)
    requires Linked(me, peer)
    modifies me`readSuspended
    ensures Linked(me, peer) && Now(me, peer) == After(old(Now(me, peer)), Suspending(true, what))
  {
    hide Channel;
    me.readSuspended := me.readSuspended + {what};
  }

  /** bufferevent_suspend_write_ */
  method SuspendWrite(me: End, peer: End, what: Reason)
    requires Linked(me, peer)
    modifies me`writeSuspended
    ensures Linked(me, peer) && Now(me, peer) == After(old(Now(me, peer)), Suspending(false, what))
  {
    hide Channel;
    me.writeSuspended := me.writeSuspended + {what};
  }

  /** bufferevent_enable */
  method Enable(me: End, peer: End, read: bool, write: bool)
    requires Linked(me, peer)
    modifies me.input, me.output, peer.input, peer.output, me`readSuspended, peer`readSuspended, me`enabledRead, me`enabledWrite
    ensures Linked(me, peer) && Now(me, peer) == After(old(Now(me, peer)), Enabling(read, write))
  {
    hide BackendEnabled, Channel;
    me.enabledRead := me.enabledRead || read;
    me.enabledWrite := me.enabledWrite || write;
    EnableBackend(me, peer, read && me.readSuspended == {}, write && me.writeSuspended == {});
  }

  /** bufferevent_disable */
  method Disable(me: End, peer: End, read: bool, write: bool)
    requires Linked(me, peer)
    modifies me`enabledRead, me`enabledWrite
    ensures Linked(me, peer) && Now(me, peer) == After(old(Now(me, peer)), Disabling(read, write))
  {
    hide Channel;
    me.enabledRead := me.enabledRead && !read;
    me.enabledWrite := me.enabledWrite && !write;
  }

  /** bufferevent_write, with the output's callback be_pair_outbuf_cb. */
  method Write(me: End, peer: End, data: seq<Byte>) returns (ok: bool)
    requires Linked(me, peer) && me.output.totalLen + peer.input.totalLen + |data| <= SIZE_MAX
    modifies me.output, peer.input, peer`readSuspended
    ensures Linked(me, peer) && (ok <==> |data| <= CHAIN_LIMIT) && Now(me, peer) == Sent(old(Now(me, peer)), data)
  {
    hide Flat, SumOff, Distinct, AllValid, PosOf, LastWithData, LinkAt, Addresses, Evbuffer.Valid, Separate;
    hide ToPeer, WantsToTalk;
    ok := Accept(me, peer, data);
    TalksIs(me, peer);
    if ok && |data| > 0 && Talks(me, peer) {
      Transfer(me, peer, false);
    }
  }

  /** The part of bufferevent_write that stores the bytes. */
  method Accept(me: End, peer: End, data: seq<Byte>) returns (ok: bool)
    requires Linked(me, peer) && me.output.totalLen + peer.input.totalLen + |data| <= SIZE_MAX
    modifies me.output
    ensures Linked(me, peer) && (ok <==> |data| <= CHAIN_LIMIT)
    ensures me.output.Contents() == old(me.output.Contents()) + if ok then data else []
  {
    hide Flat, SumOff, Distinct, AllValid, PosOf, LastWithData, LinkAt, Evbuffer.Valid;
    ok := me.output.Add(data);
  }

  /** bufferevent_read, with the input's watermark callback. */
  method Read(me: End, peer: End, size: nat) returns (data: seq<Byte>)
    requires Linked(me, peer)
    modifies me.input, me.output, peer.input, peer.output, me`readSuspended, peer`readSuspended
    ensures Linked(me, peer) && Now(me, peer) == Taken(old(Now(me, peer)), size)
    ensures data == old(me.input.Contents())[..Min(size, old(me.input.totalLen))]
  {
    hide Flat, SumOff, Distinct, AllValid, PosOf, LastWithData, LinkAt, Addresses, Evbuffer.Valid, Separate;
    hide MarkChecked;
    data := Take(me, peer, size);
    if |data| > 0 && me.high != 0 {
      CheckMark(me, peer);
    }
  }

  /** The part of bufferevent_read that takes the bytes. */
  method Take(me: End, peer: End, size: nat) returns (data: seq<Byte>)
    requires Linked(me, peer)
    modifies me.input
    ensures Linked(me, peer) && |old(me.input.Contents())| == old(me.input.totalLen)
    ensures data == old(me.input.Contents())[..Min(size, old(me.input.totalLen))]
    ensures me.input.Contents() == old(me.input.Contents())[|data|..]
  {
    hide Flat, SumOff, Distinct, AllValid, PosOf, LastWithData, LinkAt, Addresses, Evbuffer.Valid;
    var r := EvbufferSearch.Remove(me.input, size);
    data := r.value;
  }

  /** be_pair_flush */
  method FlushPair(me: End, peer: End, read: bool, write: bool, mode: FlushMode)
    requires Linked(me, peer)
    modifies me.input, me.output, peer.input, peer.output, me`readSuspended, peer`readSuspended
    ensures Linked(me, peer) && Now(me, peer) == Flushed(old(Now(me, peer)), read, write, mode)
  {
    hide ToPeer, Channel;
    if mode.Normal? {
      return;
    }
    if read {
      TalksIs(me, peer);
      Transfer(peer, me, true);
      TalksIs(peer, me);
    }
    if write {
      Transfer(me, peer, true);
    }
  }

  /** Each operation has its specified effect on both ends. */
  method Perform(me: End, peer: End, op: Op) returns (data: seq<Byte>)
    requires Linked(me, peer) && Allowed(Now(me, peer), op)
    modifies me, me.input, me.output, peer`readSuspended, peer.input, peer.output
    ensures Linked(me, peer) && Now(me, peer) == After(old(Now(me, peer)), op) && data == ReadBy(old(Now(me, peer)), op)
  {
    hide Channel, Sent, Taken, ReadLet, WriteLet, Flushed, BackendEnabled, MarkChecked;
    Lengths(me, peer);
    data := [];
    match op
    case Writing(bytes) =>
      var _ := Write(me, peer, bytes);
    case Reading(size) =>
      data := Read(me, peer, size);
    case Enabling(r, w) =>
      Enable(me, peer, r, w);
    case Disabling(r, w) =>
      Disable(me, peer, r, w);
    case Marking(high) =>
      SetHigh(me, peer, high);
    case Suspending(reading, what) =>
      if reading { SuspendRead(me, peer, what); } else { SuspendWrite(me, peer, what); }
    case Unsuspending(reading, what) =>
      if reading { UnsuspendRead(me, peer, what); } else { UnsuspendWrite(me, peer, what); }
    case Flushing(r, w, mode) =>
      FlushPair(me, peer, r, w, mode);
  }

  lemma {:induction false} Lengths(me: End, peer: End)
    requires Linked(me, peer)
    ensures |me.input.Contents()| == me.input.totalLen && |me.output.Contents()| == me.output.totalLen
    ensures |peer.input.Contents()| == peer.input.totalLen && |peer.output.Contents()| == peer.output.totalLen
    ensures Linked(peer, me) && Now(peer, me) == Swap(Now(me, peer))
  {
    hide Flat, SumOff, Distinct, AllValid, PosOf, LastWithData, LinkAt, Addresses, Evbuffer.Valid, Separate;
  }

  method CanPerform(me: End, peer: End, op: Op) returns (ok: bool)
    requires Linked(me, peer)
    ensures ok == Allowed(Now(me, peer), op)
  {
    hide Channel;
    Lengths(me, peer);
    match op
    case Writing(data) => ok := me.output.totalLen + peer.input.totalLen + |data| <= SIZE_MAX;
    case Suspending(reading, what) => ok := reading ==> what != WM;
    case Unsuspending(reading, what) => ok := reading ==> what != WM;
    case _ => ok := true;
  }

  method PerformStep(x: End, y: End, step: Step) returns (data: seq<Byte>)
    requires Linked(x, y) && Allowed(Seen(Now(x, y), step.left), step.op)
    modifies x, x.input, x.output, y, y.input, y.output
    ensures Linked(x, y) && Now(x, y) == AfterStep(old(Now(x, y)), step)
    ensures data == ReadBy(Seen(old(Now(x, y)), step.left), step.op)
  {
    hide Linked, Allowed, After, ReadBy, Now;
    Lengths(x, y);
    if step.left {
      data := Perform(x, y, step.op);
    } else {
      data := Perform(y, x, step.op);
      Lengths(y, x);
    }
  }

  method CanStep(x: End, y: End, step: Step) returns (ok: bool)
    requires Linked(x, y)
    ensures ok == Allowed(Seen(Now(x, y), step.left), step.op)
  {
    hide Linked, Allowed, Now;
    Lengths(x, y);
    if step.left {
      ok := CanPerform(x, y, step.op);
    } else {
      ok := CanPerform(y, x, step.op);
    }
  }

  /** The steps one after the other, up to the first that is not allowed. */
  method Follow(x: End, y: End, steps: seq<Step>) returns (got: seq<seq<Byte>>, ghost states: seq<Ends>)
    requires Linked(x, y)
    modifies x, x.input, x.output, y, y.input, y.output
    ensures Linked(x, y) && |got| <= |steps| && Explains(steps[..|got|], states, got)
    ensures states[0] == old(Now(x, y)) && states[|got|] == Now(x, y)
    ensures |got| < |steps| ==> !Allowed(Seen(Now(x, y), steps[|got|].left), steps[|got|].op)
  {
    hide Linked, Allowed, AfterStep, ReadBy, Now, Seen;
    got, states := [], [Now(x, y)];
    var ok := true;
    while ok && |got| < |steps|
      invariant Linked(x, y) && |got| <= |steps| && Explains(steps[..|got|], states, got)
      invariant states[0] == old(Now(x, y)) && states[|got|] == Now(x, y)
      invariant !ok ==> |got| < |steps| && !Allowed(Seen(Now(x, y), steps[|got|].left), steps[|got|].op)
      decreases |steps| - |got|, ok
    {
      ok := CanStep(x, y, steps[|got|]);
      if ok {
        var data := PerformStep(x, y, steps[|got|]);
        OneMore(steps, states, got, Now(x, y), data);
        got, states := got + [data], states + [Now(x, y)];
      }
    }
  }

  lemma {:induction false} OneMore(steps: seq<Step>, states: seq<Ends>, got: seq<seq<Byte>>, u: Ends, data: seq<Byte>)
    requires |got| < |steps| && Explains(steps[..|got|], states, got)
    requires var v, step := states[|got|], steps[|got|];
             Allowed(Seen(v, step.left), step.op) && u == AfterStep(v, step) && data == ReadBy(Seen(v, step.left), step.op)
    ensures Explains(steps[..|got| + 1], states + [u], got + [data])
  {
    hide Allowed, AfterStep, ReadBy;
  }

  /** Every run of operations by the two ends is a run of the specification, up to the first step
      that is not allowed. So each direction is a lossless queue: what was on its way at the start,
      followed by what was written, is what was read followed by what waits in the reader's input
      and the writer's output. Nothing is ever left waiting that could move, and without flushes and
      new marks no input grows above its mark. */
  method Run(x: End, y: End, steps: seq<Step>) returns (got: seq<seq<Byte>>, ghost states: seq<Ends>)
    requires Linked(x, y)
    modifies x, x.input, x.output, y, y.input, y.output
    ensures Linked(x, y) && |got| <= |steps| && Explains(steps[..|got|], states, got)
    ensures states[0] == old(Now(x, y)) && states[|got|] == Now(x, y)
    ensures |got| < |steps| ==> !Allowed(Seen(Now(x, y), steps[|got|].left), steps[|got|].op)
    ensures old(y.input.Contents() + x.output.Contents()) + Written(steps[..|got|], true) ==
            Gathered(steps[..|got|], got, false) + (y.input.Contents() + x.output.Contents())
    ensures old(x.input.Contents() + y.output.Contents()) + Written(steps[..|got|], false) ==
            Gathered(steps[..|got|], got, true) + (x.input.Contents() + y.output.Contents())
    ensures old(Ok(x, y)) ==> Ok(x, y) && forall i :: 0 <= i <= |got| ==> Good(states[i])
    ensures old(Ok(x, y)) ==>
              && (x.enabledWrite && x.writeSuspended == {} && y.enabledRead && y.readSuspended == {} ==> x.output.Contents() == [])
              && (y.enabledWrite && y.writeSuspended == {} && x.enabledRead && x.readSuspended == {} ==> y.output.Contents() == [])
    ensures old(Ok(x, y)) ==> forall i :: 0 <= i < |got| && !MayOpen(steps[i].op) ==>
              && (Closed(states[i].me, states[i].peer) ==> |states[i + 1].peer.input| <= |states[i].peer.input|)
              && (Closed(states[i].peer, states[i].me) ==> |states[i + 1].me.input| <= |states[i].me.input|)
    ensures (forall i :: 0 <= i < |got| ==> KeepsMark(steps[i].op)) ==>
              NotOver(states[0].me, states[|got|].me) && NotOver(states[0].peer, states[|got|].peer)
  {
    hide Channel, Allowed, AfterStep, ReadBy, Written, Gathered, NotOver, Good, KeepsMark, Seen, Closed, MayOpen;
    got, states := Follow(x, y, steps);
    Summary(steps[..|got|], states, got);
  }

  lemma {:induction false} Summary(steps: seq<Step>, states: seq<Ends>, got: seq<seq<Byte>>)
    requires Explains(steps, states, got)
    ensures var v, u := states[0], states[|steps|];
            && v.peer.input + v.me.output + Written(steps, true) == Gathered(steps, got, false) + (u.peer.input + u.me.output)
            && v.me.input + v.peer.output + Written(steps, false) == Gathered(steps, got, true) + (u.me.input + u.peer.output)
            && (Good(v) ==> forall i :: 0 <= i <= |steps| ==> Good(states[i]))
            && (Good(v) ==> Handed(u.me, u.peer) && Handed(u.peer, u.me))
            && (Good(v) ==> forall i :: 0 <= i < |steps| && !MayOpen(steps[i].op) ==>
                  && (Closed(states[i].me, states[i].peer) ==> |states[i + 1].peer.input| <= |states[i].peer.input|)
                  && (Closed(states[i].peer, states[i].me) ==> |states[i + 1].me.input| <= |states[i].me.input|))
            && ((forall i :: 0 <= i < |steps| ==> KeepsMark(steps[i].op)) ==> NotOver(v.me, u.me) && NotOver(v.peer, u.peer))
  {
    hide Allowed, AfterStep, ReadBy, Written, Gathered, NotOver, Good, KeepsMark, Closed, MayOpen, Handed;
    LosslessQueues(steps, states, got);
    if Good(states[0]) {
      forall i | 0 <= i <= |steps|
        ensures Good(states[i])
      {
        RunSettles(steps, states, got, i);
      }
      RunSettles(steps, states, got, |steps|);
      forall i | 0 <= i < |steps| && !MayOpen(steps[i].op)
        ensures && (Closed(states[i].me, states[i].peer) ==> |states[i + 1].peer.input| <= |states[i].peer.input|)
                && (Closed(states[i].peer, states[i].me) ==> |states[i + 1].me.input| <= |states[i].me.input|)
      {
        RunClosed(steps, states, got, i);
      }
    }
    if forall i :: 0 <= i < |steps| ==> KeepsMark(steps[i].op) {
      RunNotOver(steps, states, got, |steps|);
    }
  }
}
