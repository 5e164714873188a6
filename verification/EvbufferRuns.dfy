/** Whole runs over two evbuffers against two plain byte strings. */
module EvbufferRuns {
  import opened Basics
  import opened Chains
  import opened Evbuffers
  import opened EvbufferMoves
  import opened EvbufferSearch

  /** An operation on one buffer. */
  datatype Op =
    | Add(data: seq<Byte>)
    | AddReference(data: seq<Byte>)
    | Prepend(data: seq<Byte>)
    | Drain(n: nat)
    | Remove(n: nat)
    | CopyOut(n: nat)
    | Pullup(size: int)
    | ReadLn(style: EolStyle)
    | FreezeStart(on: bool)
    | FreezeEnd(on: bool)

  /** A step of a run over buffers a (`left`) and b. */
  datatype Step =
    | On(left: bool, op: Op)
    | AddBuffer(toLeft: bool)
    | PrependBuffer(toLeft: bool)
    | MoveBuffer(toLeft: bool, n: nat)

  /** What a caller sees of one buffer. */
  datatype Flat1 = Flat1(bytes: seq<Byte>, frozenStart: bool, frozenEnd: bool)

  datatype Out = Code(ok: bool) | Bytes(data: Option<seq<Byte>>) | Count(n: int)

  /** Arguments the memory of one chain can hold. */
  predicate Small(op: Op) {
    match op
    case AddReference(d) => |d| <= CHAIN_LIMIT
    case Prepend(d) => |d| <= CHAIN_LIMIT
    case _ => true
  }

  ghost function View(buf: Evbuffer): Flat1
    requires buf.Valid()
    reads buf
  {
    Flat1(buf.Contents(), buf.freezeStart, buf.freezeEnd)
  }

  /** The text is the line, its first terminator of `k` bytes, and what is left. */
  ghost predicate LineSplit(style: EolStyle, s: Flat1, t: Flat1, line: seq<Byte>, k: nat) {
    && EolAt(style, s.bytes, 0, |line|, k) && |line| + k <= |s.bytes|
    && s.bytes == line + s.bytes[|line|..|line| + k] + t.bytes
    && t == s.(bytes := t.bytes)
  }

  /** One operation on a byte string, as a relation between before, after and the answer. */
  ghost predicate Effect(op: Op, s: Flat1, t: Flat1, out: Out) {
    var n := |s.bytes|;
    match op
    case Add(d) =>
      var ok := !s.frozenEnd && |d| <= SIZE_MAX - n && |d| <= CHAIN_LIMIT;
      out == Code(ok) && t == s.(bytes := s.bytes + if ok then d else [])
    case AddReference(d) =>
      out == Code(!s.frozenEnd) && t == s.(bytes := s.bytes + if s.frozenEnd then [] else d)
    case Prepend(d) =>
      var ok := d == [] || (!s.frozenStart && |d| <= SIZE_MAX - n);
      out == Code(ok) && t == s.(bytes := (if ok then d else []) + s.bytes)
    case Drain(k) =>
      var ok := n == 0 || !s.frozenStart;
      out == Code(ok) && t == s.(bytes := s.bytes[if ok then Min(k, n) else 0..])
    case Remove(k) =>
      if Min(k, n) > 0 && s.frozenStart then out == Bytes(None) && t == s
      else out == Bytes(Some(s.bytes[..Min(k, n)])) && t == s.(bytes := s.bytes[Min(k, n)..])
    case CopyOut(k) =>
      t == s && out == Bytes(if Min(k, n) > 0 && s.frozenStart then None else Some(s.bytes[..Min(k, n)]))
    case Pullup(size) =>
      var k := if size < 0 then n else size;
      t == s && out.Bytes? && (out.data.Some? <==> 0 < k <= n && k <= CHAIN_LIMIT)
      && (out.data.Some? ==> k <= |out.data.value| && out.data.value <= s.bytes)
    case ReadLn(style) =>
      && out.Bytes?
      && (out.data.None? <==> s.frozenStart || NoEol(style, s.bytes, 0))
      && (out.data.None? ==> t == s)
      && (out.data.Some? ==> exists k: nat :: LineSplit(style, s, t, out.data.value, k))
    case FreezeStart(on) => out == Code(true) && t == s.(frozenStart := on)
    case FreezeEnd(on) => out == Code(true) && t == s.(frozenEnd := on)
  }

  /** One operation, performed on the chains. */
  method Perform(buf: Evbuffer, op: Op) returns (out: Out)
    requires buf.Valid() && Small(op)
    modifies buf
    ensures buf.Valid() && Effect(op, old(View(buf)), View(buf), out)
    ensures forall a :: a in Addresses(buf.chains) && a !in old(Addresses(buf.chains)) ==> fresh(a)
  {
    hide Flat, SumOff, Distinct, AllValid, PosOf, LastWithData, LinkAt, EolAt, NoEol, Addresses;
    match op
    case Add(d) =>
      var ok := buf.Add(d);
      out := Code(ok);
    case AddReference(d) =>
      var ok := buf.AddReference(d);
      out := Code(ok);
    case Prepend(d) =>
      var ok := buf.Prepend(d);
      out := Code(ok);
    case Drain(n) =>
      var ok := buf.Drain(n);
      out := Code(ok);
    case FreezeStart(on) =>
      buf.freezeStart := on;
      out := Code(true);
    case FreezeEnd(on) =>
      buf.freezeEnd := on;
      out := Code(true);
    case _ =>
      out := Query(buf, op);
  }

  /** The operations that hand bytes to the caller. */
  method Query(buf: Evbuffer, op: Op) returns (out: Out)
    requires buf.Valid() && (op.Remove? || op.CopyOut? || op.Pullup? || op.ReadLn?)
    modifies buf`chains, buf`last, buf`lwdp, buf`lwd, buf`totalLen
    ensures buf.Valid() && Effect(op, old(View(buf)), View(buf), out)
    ensures forall a :: a in Addresses(buf.chains) && a !in old(Addresses(buf.chains)) ==> fresh(a)
  {
    hide Flat, SumOff, Distinct, AllValid, PosOf, LastWithData, LinkAt, EolAt, NoEol, Addresses;
    match op
    case Remove(n) =>
      var r := EvbufferSearch.Remove(buf, n);
      out := Bytes(r);
    case CopyOut(n) =>
      var r := EvbufferSearch.CopyOut(buf, None, n);
      out := Bytes(r);
    case Pullup(size) =>
      var r := EvbufferMoves.Pullup(buf, size);
      out := Bytes(r);
    case ReadLn(style) =>
      var r, n := EvbufferSearch.ReadLn(buf, style);
      out := Bytes(r);
      assert r.Some? ==> LineSplit(style, old(View(buf)), View(buf), r.value, n);
  }

  /** Moving bytes from `src` to `dst`: all of them, or at most as many as the step says. */
  ghost predicate MoveEffect(step: Step, dst: Flat1, src: Flat1, dst': Flat1, src': Flat1, out: Out) {
    match step
    case On(_, _) => false
    case AddBuffer(_) =>
      var ok := src.bytes == [] || (!dst.frozenEnd && !src.frozenStart);
      out == Code(ok) && dst' == dst.(bytes := dst.bytes + if ok then src.bytes else [])
      && src' == src.(bytes := if ok then [] else src.bytes)
    case PrependBuffer(_) =>
      var ok := src.bytes == [] || (!dst.frozenStart && !src.frozenStart);
      out == Code(ok) && dst' == dst.(bytes := (if ok then src.bytes else []) + dst.bytes)
      && src' == src.(bytes := if ok then [] else src.bytes)
    case MoveBuffer(_, n) =>
      var frozen := dst.frozenEnd || src.frozenStart;
      var moved := if frozen then 0 else Min(n, |src.bytes|);
      out == Count(if n != 0 && frozen then -1 else ToInt(moved))
      && dst' == dst.(bytes := dst.bytes + src.bytes[..moved]) && src' == src.(bytes := src.bytes[moved..])
  }

  datatype Pair = Pair(a: Flat1, b: Flat1)

  ghost predicate StepEffect(step: Step, s: Pair, t: Pair, out: Out) {
    match step
    case On(left, op) =>
      if left then Effect(op, s.a, t.a, out) && t.b == s.b else Effect(op, s.b, t.b, out) && t.a == s.a
    case AddBuffer(toLeft) => Moved(step, toLeft, s, t, out)
    case PrependBuffer(toLeft) => Moved(step, toLeft, s, t, out)
    case MoveBuffer(toLeft, _) => Moved(step, toLeft, s, t, out)
  }

  ghost predicate Moved(step: Step, toLeft: bool, s: Pair, t: Pair, out: Out) {
    if toLeft then MoveEffect(step, s.a, s.b, t.a, t.b, out) else MoveEffect(step, s.b, s.a, t.b, t.a, out)
  }

  /** Lengths add up without wrapping: both buffers are in memory. */
  ghost predicate InMemory(s: Pair) {
    |s.a.bytes| + |s.b.bytes| <= SIZE_MAX
  }

  /** A run: the states passed through and the answers given. */
  ghost predicate Explains(steps: seq<Step>, states: seq<Pair>, outs: seq<Out>) {
    && |states| == |steps| + 1 && |outs| == |steps|
    && forall i :: 0 <= i < |steps| ==> StepEffect(steps[i], states[i], states[i + 1], outs[i])
  }

  method PerformMove(dst: Evbuffer, src: Evbuffer, step: Step) returns (out: Out)
    requires dst.Valid() && src.Valid() && dst != src && Separate(dst, src) && !step.On?
    requires dst.totalLen + src.totalLen <= SIZE_MAX
    modifies dst, src
    ensures dst.Valid() && src.Valid() && Separate(dst, src)
    ensures MoveEffect(step, old(View(dst)), old(View(src)), View(dst), View(src), out)
  {
    hide Flat, SumOff, Distinct, AllValid, PosOf, LastWithData, LinkAt, Addresses, ToInt;
    match step
    case AddBuffer(_) =>
      var ok := EvbufferMoves.AddBuffer(dst, src);
      out := Code(ok);
    case PrependBuffer(_) =>
      var ok := EvbufferMoves.PrependBuffer(dst, src);
      out := Code(ok);
    case MoveBuffer(_, n) =>
      var r := RemoveBuffer(src, dst, n);
      out := Count(r);
  }

  ghost function Views(a: Evbuffer, b: Evbuffer): Pair
    requires a.Valid() && b.Valid()
    reads a, b
  {
    Pair(View(a), View(b))
  }

  method PerformStep(a: Evbuffer, b: Evbuffer, step: Step) returns (out: Out)
    requires a.Valid() && b.Valid() && a != b && Separate(a, b) && (step.On? ==> Small(step.op))
    requires InMemory(Views(a, b))
    modifies a, b
    ensures a.Valid() && b.Valid() && Separate(a, b)
    ensures StepEffect(step, old(Views(a, b)), Views(a, b), out)
  {
    hide Flat, SumOff, Distinct, AllValid, PosOf, LastWithData, LinkAt, Effect, MoveEffect;
    match step
    case On(left, op) =>
      if left {
        out := Perform(a, op);
      } else {
        out := Perform(b, op);
      }
    case AddBuffer(toLeft) =>
      if toLeft { out := PerformMove(a, b, step); } else { out := PerformMove(b, a, step); }
    case PrependBuffer(toLeft) =>
      if toLeft { out := PerformMove(a, b, step); } else { out := PerformMove(b, a, step); }
    case MoveBuffer(toLeft, _) =>
      if toLeft { out := PerformMove(a, b, step); } else { out := PerformMove(b, a, step); }
  }

  /** Every run of operations on two evbuffers is a run on two byte strings, and the buffers stay
      well formed and never share a chain. A run stops early only when the two lengths together
      no longer fit in a size_t. */
  method Run(a: Evbuffer, b: Evbuffer, steps: seq<Step>) returns (outs: seq<Out>, ghost states: seq<Pair>)
    requires a.Valid() && b.Valid() && a != b && Separate(a, b)
    requires forall i :: 0 <= i < |steps| && steps[i].On? ==> Small(steps[i].op)
    modifies a, b
    ensures a.Valid() && b.Valid() && Separate(a, b)
    ensures |outs| <= |steps| && Explains(steps[..|outs|], states, outs)
    ensures states[0] == old(Views(a, b)) && states[|outs|] == Views(a, b)
    ensures |outs| < |steps| ==> !InMemory(Views(a, b))
  {
    hide Flat, SumOff, Distinct, AllValid, PosOf, LastWithData, LinkAt, StepEffect, Addresses;
    outs, states := [], [Views(a, b)];
    while |outs| < |steps| && a.totalLen + b.totalLen <= SIZE_MAX
      invariant a.Valid() && b.Valid() && Separate(a, b)
      invariant |outs| <= |steps| && Explains(steps[..|outs|], states, outs)
      invariant states[0] == old(Views(a, b)) && states[|outs|] == Views(a, b)
      decreases |steps| - |outs|
    {
      var out := PerformStep(a, b, steps[|outs|]);
      outs, states := outs + [out], states + [Views(a, b)];
    }
  }

  /** A step that only moves bytes from b to the end of a. */
  predicate Leftward(step: Step) {
    (step.AddBuffer? || step.MoveBuffer?) && step.toLeft
  }

  /** Moving from b to a, in whatever pieces, keeps every byte and its place in a followed by b. */
  lemma {:induction false} LeftwardKeepsOrder(steps: seq<Step>, states: seq<Pair>, outs: seq<Out>, n: nat)
    requires Explains(steps, states, outs) && n <= |steps|
    requires forall i :: 0 <= i < |steps| ==> Leftward(steps[i])
    ensures states[n].a.bytes + states[n].b.bytes == states[0].a.bytes + states[0].b.bytes
  {
    hide ToInt;
    if n > 0 {
      LeftwardKeepsOrder(steps, states, outs, n - 1);
      var s, t := states[n - 1], states[n - 1 + 1];
      assert StepEffect(steps[n - 1], s, t, outs[n - 1]);
      LeftwardStep(steps[n - 1], s, t, outs[n - 1]);
    }
  }

  lemma {:induction false} LeftwardStep(step: Step, s: Pair, t: Pair, out: Out)
    requires Leftward(step) && StepEffect(step, s, t, out)
    ensures t.a.bytes + t.b.bytes == s.a.bytes + s.b.bytes
  {
    hide ToInt, Effect;
    if step.MoveBuffer? {
      var moved := |t.a.bytes| - |s.a.bytes|;
      MovedJoin(s.a.bytes, s.b.bytes, moved);
    }
  }

  lemma {:induction false} MovedJoin(a: seq<Byte>, b: seq<Byte>, n: nat)
    requires n <= |b|
    ensures (a + b[..n]) + b[n..] == a + b
  {
  }
}
