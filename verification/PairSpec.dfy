/** bufferevent_pair.c on plain values: what each operation of one end does to both ends, and what
    holds over every run of such operations. */
module PairSpec {
  import opened Basics
  import Chains
  import RateLimits

  type Reason = RateLimits.Reason
  const WM := RateLimits.Reason.WM

  /** One end: its two buffers, its flags, and wm_read.high, which is 0 when there is no mark. */
  datatype Side = Side(input: seq<Byte>, output: seq<Byte>, enabledRead: bool, enabledWrite: bool,
                       readSuspended: set<Reason>, writeSuspended: set<Reason>, high: nat)

  /** The end that acts and its partner. */
  datatype Ends = Ends(me: Side, peer: Side)

  function Swap(v: Ends): Ends {
    Ends(v.peer, v.me)
  }

  /** be_pair_wants_to_talk */
  predicate WantsToTalk(src: Side, dst: Side) {
    src.enabledWrite && dst.enabledRead && dst.readSuspended == {} && src.output != []
  }

  /** How many bytes one transfer moves. */
  function Portion(waiting: nat, held: nat, high: nat, ignoreWm: bool): (n: nat)
    ensures n <= waiting
  {
    if high == 0 then waiting
    else if held < high then Min(high - held, waiting)
    else if ignoreWm then waiting
    else 0
  }

  /** Bytes added to an input, and the watermark callback. */
  function Arrived(dst: Side, bytes: seq<Byte>): Side {
    var d := dst.(input := dst.input + bytes);
    if dst.high == 0 || bytes == [] then d
    else d.(readSuspended := if |d.input| >= dst.high then d.readSuspended + {WM} else d.readSuspended - {WM})
  }

  /** be_pair_transfer from `me` to its partner */
  function ToPeer(v: Ends, ignoreWm: bool): Ends {
    var n := Portion(|v.me.output|, |v.peer.input|, v.peer.high, ignoreWm);
    Ends(v.me.(output := v.me.output[n..]), Arrived(v.peer, v.me.output[..n]))
  }

  function ToMe(v: Ends, ignoreWm: bool): Ends {
    Swap(ToPeer(Swap(v), ignoreWm))
  }

  /** be_pair_enable */
  function BackendEnabled(v: Ends, read: bool, write: bool): Ends {
    var u := if read && WantsToTalk(v.peer, v.me) then ToMe(v, false) else v;
    if write && WantsToTalk(u.me, u.peer) then ToPeer(u, false) else u
  }

  /** bufferevent_unsuspend_read_ */
  function ReadLet(v: Ends, what: Reason): Ends {
    var u := v.(me := v.me.(readSuspended := v.me.readSuspended - {what}));
    if u.me.readSuspended == {} && u.me.enabledRead then BackendEnabled(u, true, false) else u
  }

  /** bufferevent_unsuspend_write_ */
  function WriteLet(v: Ends, what: Reason): Ends {
    var u := v.(me := v.me.(writeSuspended := v.me.writeSuspended - {what}));
    if u.me.writeSuspended == {} && u.me.enabledWrite then BackendEnabled(u, false, true) else u
  }

  /** bufferevent_inbuf_wm_cb and the end of bufferevent_setwatermark */
  function MarkChecked(v: Ends): Ends {
    if v.me.high != 0 && |v.me.input| >= v.me.high then v.(me := v.me.(readSuspended := v.me.readSuspended + {WM}))
    else ReadLet(v, WM)
  }

  /** bufferevent_write, with the output's callback */
  function Sent(v: Ends, data: seq<Byte>): Ends {
    var u := v.(me := v.me.(output := v.me.output + data));
    if |data| > Chains.CHAIN_LIMIT then v
    else if data != [] && WantsToTalk(u.me, u.peer) then ToPeer(u, false)
    else u
  }

  /** bufferevent_read, with the input's callback */
  function Taken(v: Ends, size: nat): Ends {
    var n := Min(size, |v.me.input|);
    var u := v.(me := v.me.(input := v.me.input[n..]));
    if n > 0 && u.me.high != 0 then MarkChecked(u) else u
  }

  /** bufferevent_enable */
  function Enabled(v: Ends, read: bool, write: bool): Ends {
    var u := v.(me := v.me.(enabledRead := v.me.enabledRead || read, enabledWrite := v.me.enabledWrite || write));
    BackendEnabled(u, read && u.me.readSuspended == {}, write && u.me.writeSuspended == {})
  }

  datatype FlushMode = Normal | Flush | Finished

  /** be_pair_flush */
  function Flushed(v: Ends, read: bool, write: bool, mode: FlushMode): Ends {
    var u := if read then ToMe(v, true) else v;
    if mode.Normal? then v else if write then ToPeer(u, true) else u
  }

  datatype Op =
    | Writing(data: seq<Byte>)
    | Reading(size: nat)
    | Enabling(read: bool, write: bool)
    | Disabling(read: bool, write: bool)
    | Marking(high: nat)
    | Suspending(reading: bool, what: Reason)
    | Unsuspending(reading: bool, what: Reason)
    | Flushing(read: bool, write: bool, mode: FlushMode)

  /** The watermark flag is not the user's to set, and what is written fits in memory. */
  predicate Allowed(v: Ends, op: Op) {
    && ((op.Suspending? || op.Unsuspending?) && op.reading ==> op.what != WM)
    && (op.Writing? ==> |v.me.output| + |v.peer.input| + |op.data| <= Chains.SIZE_MAX)
  }

  /** Everything but setting the watermark's flag can be done at any time, writing as long as there is memory. */
  lemma {:induction false} AlwaysAllowed(v: Ends, op: Op)
    ensures !op.Writing? && !op.Suspending? && !op.Unsuspending? ==> Allowed(v, op)
    ensures op.Writing? && |v.me.output| + |v.peer.input| + |op.data| < 0x4000_0000_0000_0000 ==> Allowed(v, op)
    ensures (op.Suspending? || op.Unsuspending?) && (!op.reading || op.what != WM) ==> Allowed(v, op)
  {
  }

  function After(v: Ends, op: Op): Ends {
    match op
    case Writing(data) => Sent(v, data)
    case Reading(size) => Taken(v, size)
    case Enabling(r, w) => Enabled(v, r, w)
    case Disabling(r, w) =>
      v.(me := v.me.(enabledRead := v.me.enabledRead && !r, enabledWrite := v.me.enabledWrite && !w))
    case Marking(high) => MarkChecked(v.(me := v.me.(high := high)))
    case Suspending(reading, what) =>
      if reading then v.(me := v.me.(readSuspended := v.me.readSuspended + {what}))
      else v.(me := v.me.(writeSuspended := v.me.writeSuspended + {what}))
    case Unsuspending(reading, what) => if reading then ReadLet(v, what) else WriteLet(v, what)
    case Flushing(r, w, mode) => Flushed(v, r, w, mode)
  }

  /** The bytes an operation hands to its user, and those it accepts. */
  function ReadBy(v: Ends, op: Op): seq<Byte> {
    if op.Reading? then v.me.input[..Min(op.size, |v.me.input|)] else []
  }

  function Accepted(op: Op): seq<Byte> {
    if op.Writing? && |op.data| <= Chains.CHAIN_LIMIT then op.data else []
  }

  /** The bytes on their way from `src` to the user of `dst`. */
  function Lane(src: Side, dst: Side): seq<Byte> {
    dst.input + src.output
  }

  predicate SameLanes(v: Ends, u: Ends) {
    Lane(u.me, u.peer) == Lane(v.me, v.peer) && Lane(u.peer, u.me) == Lane(v.peer, v.me)
  }

  lemma {:induction false} TransferConserves(v: Ends, ignoreWm: bool)
    ensures SameLanes(v, ToPeer(v, ignoreWm)) && SameLanes(v, ToMe(v, ignoreWm))
  {
  }

  lemma {:induction false} EnableConserves(v: Ends, read: bool, write: bool)
    ensures SameLanes(v, BackendEnabled(v, read, write))
  {
    hide ToPeer, ToMe, Lane;
    TransferConserves(v, false);
    TransferConserves(if read && WantsToTalk(v.peer, v.me) then ToMe(v, false) else v, false);
  }

  lemma {:induction false} LetConserves(v: Ends, what: Reason)
    ensures SameLanes(v, ReadLet(v, what)) && SameLanes(v, WriteLet(v, what))
  {
    hide BackendEnabled;
    EnableConserves(v.(me := v.me.(readSuspended := v.me.readSuspended - {what})), true, false);
    EnableConserves(v.(me := v.me.(writeSuspended := v.me.writeSuspended - {what})), false, true);
  }

  lemma {:induction false} SentConserves(v: Ends, data: seq<Byte>)
    requires |data| <= Chains.CHAIN_LIMIT
    ensures var u := Sent(v, data); Lane(u.me, u.peer) == Lane(v.me, v.peer) + data && Lane(u.peer, u.me) == Lane(v.peer, v.me)
  {
    hide ToPeer;
    TransferConserves(v.(me := v.me.(output := v.me.output + data)), false);
  }

  lemma {:induction false} TakenConserves(v: Ends, size: nat)
    ensures var u := Taken(v, size);
            Lane(u.me, u.peer) == Lane(v.me, v.peer) && v.me.input[..Min(size, |v.me.input|)] + Lane(u.peer, u.me) == Lane(v.peer, v.me)
  {
    hide ReadLet;
    var n := Min(size, |v.me.input|);
    LetConserves(v.(me := v.me.(input := v.me.input[n..])), WM);
    assert v.me.input == v.me.input[..n] + v.me.input[n..];
  }

  /** Each direction is a queue: a write adds at its end, a read takes from its front, and nothing
      else changes what is on its way. */
  lemma {:induction false} StepConserves(v: Ends, op: Op)
    ensures var u := After(v, op);
            && Lane(v.me, v.peer) + Accepted(op) == Lane(u.me, u.peer)
            && Lane(v.peer, v.me) == ReadBy(v, op) + Lane(u.peer, u.me)
  {
    match op
    case Writing(data) =>
      hide Lane, Sent;
      if |data| <= Chains.CHAIN_LIMIT {
        SentConserves(v, data);
      } else {
        assert Sent(v, data) == v by { SentNothing(v, data); }
      }
    case Reading(size) =>
      hide Lane, Taken;
      TakenConserves(v, size);
    case _ =>
      hide Lane, After;
      OtherConserves(v, op);
  }

  lemma {:induction false} SentNothing(v: Ends, data: seq<Byte>)
    requires |data| > Chains.CHAIN_LIMIT
    ensures Sent(v, data) == v
  {
  }

  lemma {:induction false} OtherConserves(v: Ends, op: Op)
    requires !op.Writing? && !op.Reading?
    ensures SameLanes(v, After(v, op))
  {
    hide ToPeer, ToMe, BackendEnabled, ReadLet, WriteLet;
    match op
    case Enabling(r, w) =>
      var u := v.(me := v.me.(enabledRead := v.me.enabledRead || r, enabledWrite := v.me.enabledWrite || w));
      EnableConserves(u, r && u.me.readSuspended == {}, w && u.me.writeSuspended == {});
    case Marking(high) =>
      LetConserves(v.(me := v.me.(high := high)), WM);
    case Unsuspending(_, what) =>
      LetConserves(v, what);
    case Flushing(r, _, _) =>
      TransferConserves(v, true);
      TransferConserves(if r then ToMe(v, true) else v, true);
    case _ =>
  }

  /** The watermark flag says exactly that the input has reached the mark. */
  predicate WmOk(s: Side) {
    WM in s.readSuspended <==> s.high != 0 && |s.input| >= s.high
  }

  /** No bytes wait that could move: the writer is held back, or there is nothing to say. */
  predicate Settled(src: Side, dst: Side) {
    src.writeSuspended == {} ==> !WantsToTalk(src, dst)
  }

  predicate Good(v: Ends) {
    WmOk(v.me) && WmOk(v.peer) && Settled(v.me, v.peer) && Settled(v.peer, v.me)
  }

  /** With the writer writing, the reader reading and neither suspended, no output waits. */
  predicate Handed(src: Side, dst: Side) {
    src.enabledWrite && src.writeSuspended == {} && dst.enabledRead && dst.readSuspended == {} ==> src.output == []
  }

  lemma {:induction false} GoodIsHanded(v: Ends)
    requires Good(v)
    ensures Handed(v.me, v.peer) && Handed(v.peer, v.me)
  {
  }

  /** A transfer leaves nothing that could move, and the other direction as it was. */
  lemma {:induction false} TransferSettles(v: Ends, ignoreWm: bool)
    requires WmOk(v.peer)
    ensures var u := ToPeer(v, ignoreWm);
            && WmOk(u.peer) && (ignoreWm || WM !in v.peer.readSuspended ==> !WantsToTalk(u.me, u.peer))
            && u.me == v.me.(output := u.me.output) && u.peer == v.peer.(input := u.peer.input, readSuspended := u.peer.readSuspended)
            && u.peer.readSuspended - {WM} == v.peer.readSuspended - {WM}
            && (v.peer.readSuspended != {} ==> u.peer.readSuspended != {} || u.me.output == [])
  {
  }

  lemma {:induction false} EnableSettles(v: Ends, read: bool, write: bool)
    requires WmOk(v.me) && WmOk(v.peer)
    ensures var u := BackendEnabled(v, read, write);
            && WmOk(u.me) && WmOk(u.peer)
            && (read ==> !WantsToTalk(u.peer, u.me)) && (write ==> !WantsToTalk(u.me, u.peer))
            && (!WantsToTalk(v.peer, v.me) ==> !WantsToTalk(u.peer, u.me))
            && (!WantsToTalk(v.me, v.peer) ==> !WantsToTalk(u.me, u.peer))
            && u.me.writeSuspended == v.me.writeSuspended && u.peer.writeSuspended == v.peer.writeSuspended
  {
    hide ToPeer;
    TransferSettles(Swap(v), false);
    var u := if read && WantsToTalk(v.peer, v.me) then ToMe(v, false) else v;
    TransferSettles(u, false);
  }

  /** Lifting a suspension of reading, the mark included if it is not reached. */
  lemma {:induction false} LetSettles(v: Ends, what: Reason)
    requires WmOk(v.peer) && Settled(v.me, v.peer)
    requires if what == WM then v.me.high == 0 || |v.me.input| < v.me.high else WmOk(v.me)
    ensures Good(ReadLet(v, what)) && !WantsToTalk(ReadLet(v, what).peer, ReadLet(v, what).me)
  {
    hide BackendEnabled;
    EnableSettles(v.(me := v.me.(readSuspended := v.me.readSuspended - {what})), true, false);
  }

  lemma {:induction false} MarkSettles(v: Ends)
    requires WmOk(v.peer) && Settled(v.me, v.peer)
    ensures Good(MarkChecked(v)) && !WantsToTalk(MarkChecked(v).peer, MarkChecked(v).me)
  {
    hide ReadLet;
    if v.me.high == 0 || |v.me.input| < v.me.high {
      LetSettles(v, WM);
    }
  }

  /** Every operation leaves nothing waiting that could move, and the watermark flags right. */
  lemma {:induction false} StepSettles(v: Ends, op: Op)
    requires Good(v) && Allowed(v, op)
    ensures Good(After(v, op))
  {
    hide ToPeer, BackendEnabled, ReadLet, MarkChecked;
    match op
    case Writing(data) =>
      TransferSettles(v.(me := v.me.(output := v.me.output + data)), false);
    case Reading(size) =>
      MarkSettles(v.(me := v.me.(input := v.me.input[Min(size, |v.me.input|)..])));
    case Enabling(r, w) =>
      var u := v.(me := v.me.(enabledRead := v.me.enabledRead || r, enabledWrite := v.me.enabledWrite || w));
      EnableSettles(u, r && u.me.readSuspended == {}, w && u.me.writeSuspended == {});
    case Marking(high) =>
      MarkSettles(v.(me := v.me.(high := high)));
    case Unsuspending(reading, what) =>
      if reading {
        LetSettles(v, what);
      } else {
        EnableSettles(v.(me := v.me.(writeSuspended := v.me.writeSuspended - {what})), false, true);
      }
    case Flushing(r, _, _) =>
      TransferSettles(Swap(v), true);
      TransferSettles(if r then ToMe(v, true) else v, true);
    case _ =>
  }

  /** Whether an operation leaves the input of an end no fuller than its mark. */
  predicate KeepsMark(op: Op) {
    !op.Flushing? && !op.Marking?
  }

  /** Nothing but a flush or a lower mark takes an input above its high watermark. */
  predicate NotOver(before: Side, after: Side) {
    after.high == before.high && (after.high != 0 && |after.input| > after.high ==> |after.input| <= |before.input|)
  }

  lemma {:induction false} TransferNotOver(v: Ends)
    ensures NotOver(v.peer, ToPeer(v, false).peer) && ToPeer(v, false).me.input == v.me.input && ToPeer(v, false).me.high == v.me.high
  {
  }

  lemma {:induction false} EnableNotOver(v: Ends, read: bool, write: bool)
    ensures var u := BackendEnabled(v, read, write); NotOver(v.me, u.me) && NotOver(v.peer, u.peer)
  {
    hide ToPeer;
    TransferNotOver(Swap(v));
    TransferNotOver(if read && WantsToTalk(v.peer, v.me) then ToMe(v, false) else v);
  }

  lemma {:induction false} StepNotOver(v: Ends, op: Op)
    requires KeepsMark(op)
    ensures NotOver(v.me, After(v, op).me) && NotOver(v.peer, After(v, op).peer)
  {
    hide ToPeer, BackendEnabled;
    match op
    case Writing(data) =>
      TransferNotOver(v.(me := v.me.(output := v.me.output + data)));
    case Reading(size) =>
      var u := v.(me := v.me.(input := v.me.input[Min(size, |v.me.input|)..]));
      EnableNotOver(u.(me := u.me.(readSuspended := u.me.readSuspended - {WM})), true, false);
    case Enabling(r, w) =>
      var u := v.(me := v.me.(enabledRead := v.me.enabledRead || r, enabledWrite := v.me.enabledWrite || w));
      EnableNotOver(u, r && u.me.readSuspended == {}, w && u.me.writeSuspended == {});
    case Unsuspending(reading, what) =>
      EnableNotOver(v.(me := v.me.(readSuspended := v.me.readSuspended - {what})), true, false);
      EnableNotOver(v.(me := v.me.(writeSuspended := v.me.writeSuspended - {what})), false, true);
    case _ =>
  }

  /** The reader does not read, or the writer does not write. */
  predicate Closed(src: Side, dst: Side) {
    !dst.enabledRead || dst.readSuspended != {} || !src.enabledWrite
  }

  /** Operations that may open a direction, or pass the mark. */
  predicate MayOpen(op: Op) {
    op.Flushing? || op.Enabling? || op.Unsuspending? || op.Marking?
  }

  /** Through a closed direction nothing goes: no other operation makes the input longer. */
  lemma {:induction false} ClosedStays(v: Ends, op: Op)
    requires Good(v) && !MayOpen(op)
    ensures Closed(v.me, v.peer) ==> |After(v, op).peer.input| <= |v.peer.input|
    ensures Closed(v.peer, v.me) ==> |After(v, op).me.input| <= |v.me.input|
  {
    match op
    case Writing(data) =>
    case Reading(size) => ReadClosed(v, size);
    case _ =>
  }

  lemma {:induction false} ReadClosed(v: Ends, size: nat)
    requires Good(v)
    ensures Closed(v.me, v.peer) ==> |Taken(v, size).peer.input| <= |v.peer.input|
    ensures Closed(v.peer, v.me) ==> |Taken(v, size).me.input| <= |v.me.input|
  {
    hide ToPeer;
    var n := Min(size, |v.me.input|);
    var u := v.(me := v.me.(input := v.me.input[n..], readSuspended := v.me.readSuspended - {WM}));
    TransferNotOver(Swap(u));
  }

  predicate SameBytes(a: Side, b: Side) {
    a.input == b.input && a.output == b.output
  }

  /** Disabling and suspending move nothing. Enabling moves bytes only towards readers and from writers nobody suspends,
      lifting a suspension only if it was the last and the direction is enabled, and a new mark only if it is above the
      input. */
  lemma {:induction false} OpensOnlyIfFree(v: Ends, op: Op)
    ensures var u := After(v, op);
            && (op.Disabling? || op.Suspending? ==> SameBytes(v.me, u.me) && SameBytes(v.peer, u.peer))
            && (op.Enabling? && (!op.read || v.me.readSuspended != {}) ==> u.me.input == v.me.input && u.peer.output == v.peer.output)
            && (op.Enabling? && (!op.write || v.me.writeSuspended != {}) ==> u.peer.input == v.peer.input && u.me.output == v.me.output)
            && (op.Unsuspending? && op.reading && (v.me.readSuspended - {op.what} != {} || !v.me.enabledRead) ==>
                  SameBytes(v.me, u.me) && SameBytes(v.peer, u.peer))
            && (op.Unsuspending? && !op.reading && (v.me.writeSuspended - {op.what} != {} || !v.me.enabledWrite) ==>
                  SameBytes(v.me, u.me) && SameBytes(v.peer, u.peer))
            && (op.Marking? && op.high != 0 && |v.me.input| >= op.high ==> SameBytes(v.me, u.me) && SameBytes(v.peer, u.peer))
            && (op.Flushing? && op.mode.Normal? ==> u == v)
  {
  }

  /** What an operation does to the flags and the mark, the watermark's own flag apart. */
  ghost predicate FlagsRight(v: Ends, op: Op, u: Ends) {
    && (u.me.enabledRead <==> (v.me.enabledRead || (op.Enabling? && op.read)) && !(op.Disabling? && op.read))
    && (u.me.enabledWrite <==> (v.me.enabledWrite || (op.Enabling? && op.write)) && !(op.Disabling? && op.write))
    && u.me.high == (if op.Marking? then op.high else v.me.high)
    && u.me.writeSuspended == (if op.Suspending? && !op.reading then v.me.writeSuspended + {op.what}
                               else if op.Unsuspending? && !op.reading then v.me.writeSuspended - {op.what}
                               else v.me.writeSuspended)
    && u.me.readSuspended - {WM} == (if op.Suspending? && op.reading then v.me.readSuspended + {op.what}
                                     else if op.Unsuspending? && op.reading then v.me.readSuspended - {op.what}
                                     else v.me.readSuspended) - {WM}
    && u.peer.enabledRead == v.peer.enabledRead && u.peer.enabledWrite == v.peer.enabledWrite && u.peer.high == v.peer.high
    && u.peer.writeSuspended == v.peer.writeSuspended && u.peer.readSuspended - {WM} == v.peer.readSuspended - {WM}
  }

  lemma {:induction false} StepFlags(v: Ends, op: Op)
    ensures FlagsRight(v, op, After(v, op))
  {
    hide ToPeer, BackendEnabled, ReadLet;
    match op
    case Writing(data) => TransferFlags(v.(me := v.me.(output := v.me.output + data)), false);
    case Reading(size) => LetFlags(v.(me := v.me.(input := v.me.input[Min(size, |v.me.input|)..])), WM);
    case Enabling(r, w) =>
      var u := v.(me := v.me.(enabledRead := v.me.enabledRead || r, enabledWrite := v.me.enabledWrite || w));
      EnableFlags(u, r && u.me.readSuspended == {}, w && u.me.writeSuspended == {});
    case Marking(high) => LetFlags(v.(me := v.me.(high := high)), WM);
    case Unsuspending(reading, what) =>
      LetFlags(v, what);
      EnableFlags(v.(me := v.me.(writeSuspended := v.me.writeSuspended - {what})), false, true);
    case Flushing(r, w, mode) => FlushFlags(v, r, w, mode);
    case _ =>
  }

  lemma {:induction false} FlushFlags(v: Ends, r: bool, w: bool, mode: FlushMode)
    ensures var u := Flushed(v, r, w, mode); SameFlags(v.me, u.me) && SameFlags(v.peer, u.peer)
  {
    hide ToPeer;
    TransferFlags(Swap(v), true);
    TransferFlags(if r then ToMe(v, true) else v, true);
  }

  lemma {:induction false} TransferFlags(v: Ends, ignoreWm: bool)
    ensures var u := ToPeer(v, ignoreWm);
            && u.me == v.me.(output := u.me.output)
            && u.peer == v.peer.(input := u.peer.input, readSuspended := u.peer.readSuspended)
            && u.peer.readSuspended - {WM} == v.peer.readSuspended - {WM}
  {
  }

  predicate SameFlags(a: Side, b: Side) {
    b == a.(input := b.input, output := b.output, readSuspended := b.readSuspended) && b.readSuspended - {WM} == a.readSuspended - {WM}
  }

  lemma {:induction false} EnableFlags(v: Ends, read: bool, write: bool)
    ensures var u := BackendEnabled(v, read, write); SameFlags(v.me, u.me) && SameFlags(v.peer, u.peer)
  {
    hide ToPeer;
    TransferFlags(Swap(v), false);
    TransferFlags(if read && WantsToTalk(v.peer, v.me) then ToMe(v, false) else v, false);
  }

  lemma {:induction false} LetFlags(v: Ends, what: Reason)
    ensures var u := ReadLet(v, what);
            SameFlags(v.me.(readSuspended := v.me.readSuspended - {what}), u.me) && SameFlags(v.peer, u.peer)
  {
    hide BackendEnabled;
    EnableFlags(v.(me := v.me.(readSuspended := v.me.readSuspended - {what})), true, false);
  }

  /** When a flush hands everything over. */
  predicate FlushEmpties(waiting: nat, held: nat, high: nat) {
    high == 0 || held >= high || held + waiting <= high
  }

  /** A flush empties an output exactly if there is no mark, the mark is reached, or all of it fits
      below the mark; otherwise it fills the input up to the mark. */
  lemma {:induction false} FlushIs(v: Ends, read: bool, write: bool, mode: FlushMode)
    requires !mode.Normal?
    ensures var u := Flushed(v, read, write, mode);
            && (write ==> (u.me.output == [] <==> FlushEmpties(|v.me.output|, |v.peer.input|, v.peer.high)))
            && (write && u.me.output != [] ==> |u.peer.input| == u.peer.high)
            && (read ==> (u.peer.output == [] <==> FlushEmpties(|v.peer.output|, |v.me.input|, v.me.high)))
            && (read && u.peer.output != [] ==> |u.me.input| == u.me.high)
  {
  }

  /** An operation by the left end or by the right one. */
  datatype Step = Step(left: bool, op: Op)

  /** The ends as the acting one sees them; `v` has the left end first. */
  function Seen(v: Ends, left: bool): Ends {
    if left then v else Swap(v)
  }

  function AfterStep(v: Ends, step: Step): Ends {
    Seen(After(Seen(v, step.left), step.op), step.left)
  }

  /** A run: the states passed through and the bytes each step handed to its user. */
  ghost predicate Explains(steps: seq<Step>, states: seq<Ends>, got: seq<seq<Byte>>) {
    && |states| == |steps| + 1 && |got| == |steps|
    && forall i :: 0 <= i < |steps| ==>
         && Allowed(Seen(states[i], steps[i].left), steps[i].op)
         && states[i + 1] == AfterStep(states[i], steps[i]) && got[i] == ReadBy(Seen(states[i], steps[i].left), steps[i].op)
  }

  /** Everything one end was given to write, and everything its user read. */
  function Written(steps: seq<Step>, left: bool): seq<Byte> {
    if steps == [] then []
    else
      var last := steps[|steps| - 1];
      Written(steps[..|steps| - 1], left) + if last.left == left then Accepted(last.op) else []
  }

  function Gathered(steps: seq<Step>, got: seq<seq<Byte>>, left: bool): seq<Byte>
    requires |got| == |steps|
  {
    if steps == [] then []
    else
      var m := |steps| - 1;
      Gathered(steps[..m], got[..m], left) + if steps[m].left == left then got[m] else []
  }

  lemma {:induction false} Prefix(steps: seq<Step>, states: seq<Ends>, got: seq<seq<Byte>>, n: nat)
    requires Explains(steps, states, got) && n <= |steps|
    ensures Explains(steps[..n], states[..n + 1], got[..n])
  {
    hide Allowed, AfterStep, ReadBy;
  }

  /** Each direction is a lossless queue over every run: what was on its way, followed by what was
      written, is what was read followed by what is on its way now. */
  lemma {:induction false} LosslessQueues(steps: seq<Step>, states: seq<Ends>, got: seq<seq<Byte>>)
    requires Explains(steps, states, got)
    ensures var v, u := states[0], states[|steps|];
            && Lane(v.me, v.peer) + Written(steps, true) == Gathered(steps, got, false) + Lane(u.me, u.peer)
            && Lane(v.peer, v.me) + Written(steps, false) == Gathered(steps, got, true) + Lane(u.peer, u.me)
    decreases |steps|
  {
    hide After, Lane, Allowed, ReadBy, Accepted;
    if steps != [] {
      var m := |steps| - 1;
      Prefix(steps, states, got, m);
      LosslessQueues(steps[..m], states[..m + 1], got[..m]);
      var v, step := states[m], steps[m];
      assert states[m + 1] == AfterStep(v, step);
      StepConserves(Seen(v, step.left), step.op);
      var a, d := Accepted(step.op), got[m];
      if step.left {
        QueueStep(Lane(states[0].me, states[0].peer), Written(steps[..m], true), Gathered(steps[..m], got[..m], false),
                  Lane(v.me, v.peer), a, [], Lane(states[m + 1].me, states[m + 1].peer));
        QueueStep(Lane(states[0].peer, states[0].me), Written(steps[..m], false), Gathered(steps[..m], got[..m], true),
                  Lane(v.peer, v.me), [], d, Lane(states[m + 1].peer, states[m + 1].me));
      } else {
        QueueStep(Lane(states[0].me, states[0].peer), Written(steps[..m], true), Gathered(steps[..m], got[..m], false),
                  Lane(v.me, v.peer), [], d, Lane(states[m + 1].me, states[m + 1].peer));
        QueueStep(Lane(states[0].peer, states[0].me), Written(steps[..m], false), Gathered(steps[..m], got[..m], true),
                  Lane(v.peer, v.me), a, [], Lane(states[m + 1].peer, states[m + 1].me));
      }
    }
  }

  lemma {:induction false} QueueStep(start: seq<Byte>, w: seq<Byte>, g: seq<Byte>, q: seq<Byte>, a: seq<Byte>, d: seq<Byte>, q': seq<Byte>)
    requires start + w == g + q && q + a == d + q'
    ensures start + (w + a) == (g + d) + q'
  {
    assert start + (w + a) == (start + w) + a;
    assert (g + q) + a == g + (q + a);
    assert g + (d + q') == (g + d) + q';
  }

  /** Over every run nothing is left waiting that could move. */
  lemma {:induction false} RunSettles(steps: seq<Step>, states: seq<Ends>, got: seq<seq<Byte>>, n: nat)
    requires Explains(steps, states, got) && Good(states[0]) && n <= |steps|
    ensures Good(states[n]) && Handed(states[n].me, states[n].peer) && Handed(states[n].peer, states[n].me)
  {
    hide After, Allowed, ReadBy, WantsToTalk;
    GoodIsHanded(states[0]);
    if n > 0 {
      RunSettles(steps, states, got, n - 1);
      assert states[n - 1 + 1] == AfterStep(states[n - 1], steps[n - 1]);
      StepSettles(Seen(states[n - 1], steps[n - 1].left), steps[n - 1].op);
      GoodIsHanded(states[n]);
    }
  }

  /** In every state of a run a step through a closed direction adds nothing to its input. */
  lemma {:induction false} RunClosed(steps: seq<Step>, states: seq<Ends>, got: seq<seq<Byte>>, n: nat)
    requires Explains(steps, states, got) && Good(states[0]) && n < |steps| && !MayOpen(steps[n].op)
    ensures Closed(states[n].me, states[n].peer) ==> |states[n + 1].peer.input| <= |states[n].peer.input|
    ensures Closed(states[n].peer, states[n].me) ==> |states[n + 1].me.input| <= |states[n].me.input|
  {
    hide After, Allowed, ReadBy, Good, Handed;
    RunSettles(steps, states, got, n);
    assert Good(Swap(states[n])) by { GoodSwap(states[n]); }
    ClosedStays(Seen(states[n], steps[n].left), steps[n].op);
  }

  lemma {:induction false} GoodSwap(v: Ends)
    requires Good(v)
    ensures Good(Swap(v))
  {
  }

  /** Over every run without flushes and new marks each input stays within its mark, or shrinks. */
  lemma {:induction false} RunNotOver(steps: seq<Step>, states: seq<Ends>, got: seq<seq<Byte>>, n: nat)
    requires Explains(steps, states, got) && n <= |steps| && forall i :: 0 <= i < n ==> KeepsMark(steps[i].op)
    ensures NotOver(states[0].me, states[n].me) && NotOver(states[0].peer, states[n].peer)
  {
    hide After, Allowed, ReadBy, KeepsMark;
    if n > 0 {
      RunNotOver(steps, states, got, n - 1);
      assert states[n - 1 + 1] == AfterStep(states[n - 1], steps[n - 1]);
      StepNotOver(Seen(states[n - 1], steps[n - 1].left), steps[n - 1].op);
    }
  }
}
