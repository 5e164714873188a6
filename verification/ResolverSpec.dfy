/** evdns.c: the steps of the resolver on plain values. The only choices left open are the random
    transaction ids. */
module ResolverSpec {
  import opened Basics
  import opened Nameservers
  import opened RequestLists

  /** Requests in flight by bucket, requests waiting, the limit, the ring of servers and those that are up. */
  datatype Snap = Snap(heads: seq<seq<Request>>, waiting: seq<Request>, max: nat, ring: seq<Ns>, up: set<Ns>)

  ghost predicate SnapOk(s: Snap) {
    && 1 <= s.max <= MAX_INFLIGHT && |s.heads| == (s.max + 4) / 5 && Placed(s.heads, s.ring)
    && forall n :: n in s.up ==> n in s.ring
  }

  function Inflight(s: Snap): nat {
    Total(s.heads, Any)
  }

  /** Nothing waits, the limit is reached, or there is no server. */
  ghost predicate Pumped(s: Snap) {
    s.waiting == [] || Inflight(s) >= s.max || s.ring == []
  }

  ghost predicate UniqueIds(s: Snap) {
    forall id :: Total(s.heads, ById(id)) <= 1
  }

  /** An id transaction_id_pick may return. */
  ghost predicate FreeId(heads: seq<seq<Request>>, id: nat) {
    id < NO_ID && Total(heads, ById(id)) == 0
  }

  function Put(heads: seq<seq<Request>>, r: Request): seq<seq<Request>>
    requires heads != []
  {
    var b := r.transId % |heads|;
    heads[b := heads[b] + [r]]
  }

  function Taken(heads: seq<seq<Request>>, b: nat, i: nat): seq<seq<Request>>
    requires b < |heads| && i < |heads[b]|
  {
    heads[b := heads[b][..i] + heads[b][i + 1..]]
  }

  predicate At(s: Snap, b: nat, i: nat) {
    b < |s.heads| && i < |s.heads[b]|
  }

  /** The oldest waiting request goes in flight with the id `id`. */
  function Sent(s: Snap, id: nat): Snap
    requires s.waiting != [] && s.heads != []
  {
    s.(waiting := s.waiting[1..], ring := NextRing(s.ring, s.up),
       heads := Put(s.heads, s.waiting[0].(ns := NextPick(s.ring, s.up), transId := id)))
  }

  ghost predicate PumpStep(s: Snap, t: Snap) {
    !Pumped(s) && s.heads != [] && exists id :: FreeId(s.heads, id) && t == Sent(s, id)
  }

  /** evdns_requests_pump_waiting_queue, from beginning to end. */
  ghost predicate Pumps(s: Snap, t: Snap)
    decreases |s.waiting|
  {
    if Pumped(s) then t == s
    else exists m :: PumpStep(s, m) && |m.waiting| < |s.waiting| && Pumps(m, t)
  }

  /** request_new */
  ghost predicate NewRequest(s: Snap, key: nat, r: Request) {
    if Inflight(s) < s.max then FreeId(s.heads, r.transId) && r == Request(key, r.transId, NextPick(s.ring, s.up), 0, 0)
    else r == Request(key, NO_ID, None, 0, 0)
  }

  /** The ring after request_new picked a server, if it did. */
  function AfterNew(s: Snap): Snap {
    if Inflight(s) < s.max then s.(ring := NextRing(s.ring, s.up)) else s
  }

  /** request_submit */
  function Submitted(s: Snap, r: Request): Snap
    requires s.heads != []
  {
    if r.ns.Some? then s.(heads := Put(s.heads, r)) else s.(waiting := s.waiting + [r])
  }

  /** The end of search_try_next. */
  ghost predicate Searched(s: Snap, b: nat, i: nat, key: nat, t: Snap) {
    && At(s, b, i)
    && exists r, m :: NewRequest(s, key, r) && Pumps(AfterNew(s).(heads := Taken(s.heads, b, i)), m)
                      && m.heads != [] && t == Submitted(m, r)
  }

  lemma {:induction false} PutTotal(heads: seq<seq<Request>>, r: Request)
    requires heads != []
    ensures |Put(heads, r)| == |heads| && forall q :: Total(Put(heads, r), q) == Total(heads, q) + Hit(r, q)
  {
    var b := r.transId % |heads|;
    forall q
      ensures Total(Put(heads, r), q) == Total(heads, q) + Hit(r, q)
    {
      TotalUpdate(heads, b, heads[b] + [r], q);
      CountAppend(heads[b], [r], q);
      CountOne(r, q);
    }
  }

  lemma {:induction false} TakenTotal(heads: seq<seq<Request>>, b: nat, i: nat)
    requires b < |heads| && i < |heads[b]|
    ensures |Taken(heads, b, i)| == |heads| && forall q :: Total(Taken(heads, b, i), q) + Hit(heads[b][i], q) == Total(heads, q)
  {
    forall q
      ensures Total(Taken(heads, b, i), q) + Hit(heads[b][i], q) == Total(heads, q)
    {
      TotalUpdate(heads, b, heads[b][..i] + heads[b][i + 1..], q);
      CountAt(heads[b], i, q);
    }
  }

  lemma {:induction false} ReplaceTotal(heads: seq<seq<Request>>, b: nat, i: nat, r: Request)
    requires b < |heads| && i < |heads[b]|
    ensures forall q :: Total(heads[b := heads[b][i := r]], q) + Hit(heads[b][i], q) == Total(heads, q) + Hit(r, q)
  {
    forall q
      ensures Total(heads[b := heads[b][i := r]], q) + Hit(heads[b][i], q) == Total(heads, q) + Hit(r, q)
    {
      TotalUpdate(heads, b, heads[b][i := r], q);
      CountAt(heads[b], i, q);
    }
  }

  /** A pump step keeps ids unique, and every id that is in use stays in use. */
  lemma {:induction false} PumpStepIds(s: Snap, t: Snap)
    requires PumpStep(s, t)
    ensures t.heads != [] && |t.waiting| == |s.waiting| - 1 && (UniqueIds(s) ==> UniqueIds(t))
    ensures forall id :: Total(t.heads, ById(id)) >= Total(s.heads, ById(id))
  {
    hide Total, NextPick, NextRing, Put;
    var id :| FreeId(s.heads, id) && t == Sent(s, id);
    PutTotal(s.heads, s.waiting[0].(ns := NextPick(s.ring, s.up), transId := id));
  }

  lemma {:induction false} PumpsIds(s: Snap, t: Snap)
    requires Pumps(s, t) && s.heads != []
    ensures t.heads != [] && Pumped(t) && (UniqueIds(s) ==> UniqueIds(t))
    ensures forall id :: Total(t.heads, ById(id)) >= Total(s.heads, ById(id))
    decreases |s.waiting|
  {
    hide Total, UniqueIds, PumpStep;
    if !Pumped(s) {
      var m :| PumpStep(s, m) && |m.waiting| < |s.waiting| && Pumps(m, t);
      PumpStepIds(s, m);
      PumpsIds(m, t);
    }
  }

  /** The pump always comes to an end. */
  lemma {:induction false} CanPump(s: Snap) returns (t: Snap)
    requires s.heads != [] && Placed(s.heads, s.ring) && s.max <= MAX_INFLIGHT
    requires forall n :: n in s.up ==> n in s.ring
    ensures Pumps(s, t)
    decreases |s.waiting|
  {
    hide Total, Placed;
    if Pumped(s) {
      t := s;
    } else {
      var id := SomeFreeId(s);
      var m := Sent(s, id);
      assert PumpStep(s, m);
      SentOk(s, id);
      t := CanPump(m);
    }
  }

  lemma {:induction false} SomeFreeId(s: Snap) returns (id: nat)
    requires s.heads != [] && Placed(s.heads, s.ring) && Inflight(s) < NO_ID
    ensures FreeId(s.heads, id)
  {
    hide Total, Placed, Unused;
    SomeIdUnused(s.heads);
    id :| id < NO_ID && Unused(s.heads, id);
    OneBucket(s.heads, s.ring, id);
  }

  lemma {:induction false} SentOk(s: Snap, id: nat)
    requires s.heads != [] && Placed(s.heads, s.ring) && !Pumped(s) && id < NO_ID
    requires forall n :: n in s.up ==> n in s.ring
    ensures var m := Sent(s, id); m.heads != [] && Placed(m.heads, m.ring) && forall n :: n in m.up ==> n in m.ring
  {
    hide Total, FirstAlive;
    NextPickIn(s.ring, s.up);
  }

  lemma {:induction false} NextPickIn(ring: seq<Ns>, up: set<Ns>)
    requires ring != []
    ensures NextPick(ring, up).Some? && NextPick(ring, up).value in ring
    ensures forall n :: n in NextRing(ring, up) <==> n in ring
  {
    hide FirstAlive;
    var k := FirstAlive(ring, up);
    assert ring == ring[..1] + ring[1..];
    if k < |ring| {
      assert ring == ring[..k + 1] + ring[k + 1..];
    }
  }

  /** Going on to the next name of a search keeps ids unique if the queue was pumped. */
  lemma {:induction false} SearchKeepsIds(s: Snap, b: nat, i: nat, key: nat, t: Snap)
    requires Searched(s, b, i, key, t) && UniqueIds(s) && Pumped(s)
    ensures UniqueIds(t)
  {
    hide Total, Taken, Put, NextPick, NextRing;
    var r, m :| NewRequest(s, key, r) && Pumps(AfterNew(s).(heads := Taken(s.heads, b, i)), m) && m.heads != [] && t == Submitted(m, r);
    TakenTotal(s.heads, b, i);
    var u := AfterNew(s).(heads := Taken(s.heads, b, i));
    PumpsIds(u, m);
    NoServer(s);
    if r.ns.Some? {
      assert m == u;
      PutTotal(m.heads, r);
    }
  }

  lemma {:induction false} NoServer(s: Snap)
    ensures NextPick(s.ring, s.up).None? <==> s.ring == []
  {
    hide FirstAlive;
  }

  /** And only then: in every other state the pump may give a waiting request the id chosen for the new one. */
  lemma {:induction false} SearchMayClash(s: Snap, b: nat, i: nat, key: nat) returns (t: Snap)
    requires SnapOk(s) && At(s, b, i) && !Pumped(s)
    ensures Searched(s, b, i, key, t) && !UniqueIds(t)
  {
    hide Total, Placed, NextPick, NextRing, Put, Taken;
    var id := SomeFreeId(s);
    var r := Request(key, id, NextPick(s.ring, s.up), 0, 0);
    TakenTotal(s.heads, b, i);
    var u := AfterNew(s).(heads := Taken(s.heads, b, i));
    RingKept(s);
    StillPlaced(s, b, i);
    var m := Sent(u, id);
    assert PumpStep(u, m);
    SentOk(u, id);
    PutTotal(u.heads, u.waiting[0].(ns := NextPick(u.ring, u.up), transId := id));
    var e := CanPump(m);
    assert Pumps(u, e);
    PumpsIds(m, e);
    t := Submitted(e, r);
    PutTotal(e.heads, r);
    assert Total(t.heads, ById(id)) >= 2;
  }

  lemma {:induction false} RingKept(s: Snap)
    requires s.ring != []
    ensures NextPick(s.ring, s.up).Some? && NextRing(s.ring, s.up) != []
    ensures forall n :: n in NextRing(s.ring, s.up) <==> n in s.ring
  {
    hide FirstAlive;
    NextPickIn(s.ring, s.up);
    assert s.ring[0] in s.ring;
  }

  lemma {:induction false} StillPlaced(s: Snap, b: nat, i: nat)
    requires Placed(s.heads, s.ring) && At(s, b, i) && forall n :: n in NextRing(s.ring, s.up) <==> n in s.ring
    ensures Placed(Taken(s.heads, b, i), NextRing(s.ring, s.up))
  {
    hide NextRing;
  }

  /** Exactly when a search may put two requests with one id in flight: when requests wait although there
      is room and a server, as after a raised limit or a first server. */
  lemma {:induction false} SearchClashesIff(s: Snap, b: nat, i: nat, key: nat)
    requires SnapOk(s) && UniqueIds(s) && At(s, b, i)
    ensures (exists t :: Searched(s, b, i, key, t) && !UniqueIds(t)) <==> !Pumped(s)
  {
    hide Searched, UniqueIds, Pumped;
    if Pumped(s) {
      forall t | Searched(s, b, i, key, t)
        ensures UniqueIds(t)
      {
        SearchKeepsIds(s, b, i, key, t);
      }
    } else {
      var t := SearchMayClash(s, b, i, key);
    }
  }

  /** A step of a run; requests in flight are named by bucket and place. */
  datatype Op =
    | Resolve(key: nat)
    | Finish(b: nat, i: nat)
    | CancelWaiting(i: nat)
    | Search(b: nat, i: nat, key: nat)
    | Probe(ns: Ns, key: nat)
    | Transmit(b: nat, i: nat)
    | Reissue(b: nat, i: nat)
    | Timeout(b: nat, i: nat, retransmits: nat, serverOut: bool)
    | ServerFailed(ns: Ns)
    | ServerUp(ns: Ns, b: nat, i: nat, probed: bool)
    | AddServer(ns: Ns)
    | SetMax(limit: int)
    | Resume

  /** Whether there is such a request, such a server, such a limit. */
  predicate Possible(s: Snap, op: Op) {
    match op
    case Finish(b, i) => At(s, b, i)
    case CancelWaiting(i) => i < |s.waiting|
    case Search(b, i, _) => At(s, b, i)
    case Probe(n, _) => n in s.ring && Inflight(s) < NO_ID
    case Transmit(b, i) => At(s, b, i)
    case Reissue(b, i) => At(s, b, i)
    case Timeout(b, i, _, _) => At(s, b, i)
    case ServerFailed(n) => n in s.ring
    case ServerUp(n, b, i, probed) => n in s.ring && (probed ==> At(s, b, i))
    case SetMax(limit) => limit <= MAX_INFLIGHT
    case _ => true
  }

  /** A request in flight replaced by another. */
  function Changed(s: Snap, b: nat, i: nat, r: Request): Snap
    requires At(s, b, i)
  {
    s.(heads := s.heads[b := s.heads[b][i := r]])
  }

  /** request_reissue, with the server the rotation gives. */
  function Reissued(s: Snap, b: nat, i: nat): Snap
    requires At(s, b, i)
  {
    var r, u := s.heads[b][i], s.(ring := NextRing(s.ring, s.up));
    if NextPick(s.ring, s.up) == r.ns then u
    else Changed(u, b, i, r.(ns := NextPick(s.ring, s.up), reissues := r.reissues + 1, txCount := 0))
  }

  /** A retransmission, to the server the rotation gives. */
  function Resent(s: Snap, b: nat, i: nat): Snap
    requires At(s, b, i)
  {
    var r := s.heads[b][i];
    Changed(s.(ring := NextRing(s.ring, s.up)), b, i, r.(ns := NextPick(s.ring, s.up), txCount := r.txCount + 1))
  }

  /** A request that was not sent moved from the failed server to one that is up; others stay. */
  ghost predicate Moved(before: Request, after: Request, n: Ns, up: set<Ns>) {
    if before.txCount == 0 && before.ns == Some(n)
    then after == before.(ns := after.ns) && after.ns.Some? && after.ns.value in up
    else after == before
  }

  ghost predicate Reassigned(before: seq<Request>, after: seq<Request>, n: Ns, up: set<Ns>) {
    |before| == |after| && forall i :: 0 <= i < |before| ==> Moved(before[i], after[i], n, up)
  }

  /** A bucket and the ring of servers. */
  datatype Turned = Turned(bucket: seq<Request>, ring: seq<Ns>)

  /** Each of the first `k` requests that was not sent goes from `n` to the server whose turn it is. */
  function BucketMoved(l: seq<Request>, ring: seq<Ns>, up: set<Ns>, n: Ns, k: nat): (t: Turned)
    requires k <= |l|
    ensures |t.bucket| == |l|
  {
    if k == 0 then Turned(l, ring)
    else
      var t := BucketMoved(l, ring, up, n, k - 1);
      if l[k - 1].txCount == 0 && l[k - 1].ns == Some(n) then
        Turned(t.bucket[k - 1 := l[k - 1].(ns := NextPick(t.ring, up))], NextRing(t.ring, up))
      else t
  }

  /** The same in the first `k` buckets, one after the other. */
  function BucketsMoved(s: Snap, n: Ns, k: nat): (t: Snap)
    requires k <= |s.heads|
    ensures |t.heads| == |s.heads|
  {
    if k == 0 then s
    else
      var m := BucketsMoved(s, n, k - 1);
      var t := BucketMoved(s.heads[k - 1], m.ring, s.up, n, |s.heads[k - 1]|);
      m.(heads := m.heads[k - 1 := t.bucket], ring := t.ring)
  }

  /** nameserver_failed */
  function AfterFailure(s: Snap, n: Ns): Snap {
    var t := s.(up := s.up - {n});
    if n !in s.up then s else if t.up == {} then t else BucketsMoved(t, n, |t.heads|)
  }

  /** Every request, bucket by bucket. */
  function AllOf(heads: seq<seq<Request>>): seq<Request> {
    if heads == [] then [] else heads[0] + AllOf(heads[1..])
  }

  /** The requests `l` put in their buckets one after the other. */
  function PutAll(heads: seq<seq<Request>>, l: seq<Request>): seq<seq<Request>>
    requires heads != []
    decreases |l|
  {
    if l == [] then heads else PutAll(Put(heads, l[0]), l[1..])
  }

  /** evdns_base_set_max_requests_inflight */
  function Rehashed(heads: seq<seq<Request>>, n: nat): seq<seq<Request>>
    requires n > 0
  {
    PutAll(seq(n, _ => []), AllOf(heads))
  }

  /** nameserver_up after its probe was cancelled */
  function Up(s: Snap, n: Ns): Snap {
    s.(up := s.up + {n})
  }

  /** evdns_nameserver_add_impl_: a new server goes behind the head. */
  function Joined(s: Snap, n: Ns): Snap {
    if n in s.ring then s
    else s.(up := s.up + {n}, ring := if s.ring == [] then [n] else [s.ring[0], n] + s.ring[1..])
  }

  /** One step from `s` to `t`. */
  ghost predicate Effect(op: Op, s: Snap, t: Snap)
    requires s.heads != [] && Possible(s, op)
  {
    match op
    case Resolve(key) => exists r :: NewRequest(s, key, r) && t == Submitted(AfterNew(s), r)
    case Finish(b, i) => Pumps(s.(heads := Taken(s.heads, b, i)), t)
    case CancelWaiting(i) => Pumps(s.(waiting := s.waiting[..i] + s.waiting[i + 1..]), t)
    case Search(b, i, key) => Searched(s, b, i, key, t)
    case Probe(n, key) => exists id :: FreeId(s.heads, id) && t == AfterNew(s).(heads := Put(s.heads, Request(key, id, Some(n), 0, 0)))
    case Transmit(b, i) => t == Changed(s, b, i, s.heads[b][i].(txCount := s.heads[b][i].txCount + 1))
    case Reissue(b, i) => t == Reissued(s, b, i)
    case Timeout(b, i, retransmits, serverOut) =>
      s.heads[b][i].ns.Some? &&
      if s.heads[b][i].txCount >= retransmits then
        exists m :: Pumps(s.(heads := Taken(s.heads, b, i)), m) && t == AfterFailure(m, s.heads[b][i].ns.value)
      else if serverOut then NextPick(s.ring, s.up).Some? && t == AfterFailure(Resent(s, b, i), NextPick(s.ring, s.up).value)
      else t == Resent(s, b, i)
    case ServerFailed(n) => t == AfterFailure(s, n)
    case ServerUp(n, b, i, probed) =>
      if n in s.up then t == s
      else if probed then exists m :: Pumps(s.(heads := Taken(s.heads, b, i)), m) && t == Up(m, n)
      else t == Up(s, n)
    case AddServer(n) =>
      t == Joined(s, n)
    case SetMax(limit) =>
      var max: nat := if limit < 1 then 1 else limit;
      t == s.(max := max, heads := Rehashed(s.heads, (max + 4) / 5))
    case Resume => Pumps(s, t)
  }

  /** Whether a step asks for the request `k`, and whether it ends one. */
  function Asks(op: Op, k: nat): nat {
    if (op.Resolve? || op.Search? || op.Probe?) && op.key == k then 1 else 0
  }

  function Ends(op: Op, s: Snap, k: nat): nat
    requires Possible(s, op)
  {
    match op
    case Finish(b, i) => Hit(s.heads[b][i], ByKey(k))
    case CancelWaiting(i) => Hit(s.waiting[i], ByKey(k))
    case Search(b, i, _) => Hit(s.heads[b][i], ByKey(k))
    case Timeout(b, i, retransmits, _) => if s.heads[b][i].txCount >= retransmits then Hit(s.heads[b][i], ByKey(k)) else 0
    case ServerUp(n, b, i, probed) => if probed && n !in s.up then Hit(s.heads[b][i], ByKey(k)) else 0
    case _ => 0
  }

  /** How many requests, in flight or waiting, the question is true of. */
  function Held(s: Snap, q: Query): nat {
    Total(s.heads, q) + Count(s.waiting, q)
  }

  /** A run: the states passed through. */
  ghost predicate Explains(ops: seq<Op>, states: seq<Snap>) {
    && |states| == |ops| + 1
    && forall i :: 0 <= i < |ops| ==> states[i].heads != [] && Possible(states[i], ops[i]) && Effect(ops[i], states[i], states[i + 1])
  }

  function Asked(ops: seq<Op>, k: nat): nat {
    if ops == [] then 0 else Asked(ops[..|ops| - 1], k) + Asks(ops[|ops| - 1], k)
  }

  function Ended(ops: seq<Op>, states: seq<Snap>, k: nat): nat
    requires |states| >= |ops|
  {
    if ops == [] then 0
    else
      var m := |ops| - 1;
      Ended(ops[..m], states[..m], k) + if Possible(states[m], ops[m]) then Ends(ops[m], states[m], k) else 0
  }
}
