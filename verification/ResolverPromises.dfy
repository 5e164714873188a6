/** What users of the resolver rely on, for every run of its specification: every request asked for is held until it
    ends, and a request that goes on timing out is given up. */
module ResolverPromises {
  import opened Basics
  import opened Nameservers
  import opened RequestLists
  import opened ResolverSpec

  // ---------- the ledger ----------

  lemma {:induction false} SentHeld(s: Snap, id: nat, k: nat)
    requires s.waiting != [] && s.heads != []
    ensures Held(Sent(s, id), ByKey(k)) == Held(s, ByKey(k))
  {
    hide Total, NextPick, NextRing, Put;
    PutTotal(s.heads, s.waiting[0].(ns := NextPick(s.ring, s.up), transId := id));
  }

  lemma {:induction false} PumpsHeld(s: Snap, t: Snap, k: nat)
    requires Pumps(s, t) && s.heads != []
    ensures t.heads != [] && Held(t, ByKey(k)) == Held(s, ByKey(k))
    decreases |s.waiting|
  {
    hide Total, Held, Pumped, Sent;
    if !Pumped(s) {
      var m :| PumpStep(s, m) && |m.waiting| < |s.waiting| && Pumps(m, t);
      var id :| m == Sent(s, id);
      SentHeld(s, id, k);
      PumpStepIds(s, m);
      PumpsHeld(m, t, k);
    }
  }

  lemma {:induction false} SubmittedHeld(s: Snap, r: Request, k: nat)
    requires s.heads != []
    ensures Submitted(s, r).heads != [] && Held(Submitted(s, r), ByKey(k)) == Held(s, ByKey(k)) + if r.key == k then 1 else 0
  {
    hide Total, Put;
    PutTotal(s.heads, r);
    CountAppend(s.waiting, [r], ByKey(k));
    CountOne(r, ByKey(k));
  }

  lemma {:induction false} SameCount(l: seq<Request>, i: nat, r: Request, k: nat)
    requires i < |l| && r.key == l[i].key
    ensures Count(l[i := r], ByKey(k)) == Count(l, ByKey(k))
  {
    CountAt(l, i, ByKey(k));
    assert Hit(r, ByKey(k)) == Hit(l[i], ByKey(k));
  }

  lemma {:induction false} BucketHeld(l: seq<Request>, ring: seq<Ns>, up: set<Ns>, n: Ns, j: nat, k: nat)
    requires j <= |l|
    ensures Count(BucketMoved(l, ring, up, n, j).bucket, ByKey(k)) == Count(l, ByKey(k))
    ensures forall i :: 0 <= i < |l| ==> var r := BucketMoved(l, ring, up, n, j).bucket[i]; l[i] == r.(ns := l[i].ns) && (i >= j ==> r == l[i])
  {
    hide NextPick, NextRing;
    if j > 0 {
      BucketHeld(l, ring, up, n, j - 1, k);
      var t := BucketMoved(l, ring, up, n, j - 1);
      var r := l[j - 1].(ns := NextPick(t.ring, up));
      SameCount(t.bucket, j - 1, r, k);
    }
  }

  /** A failed server changes nothing about a request but its server. */
  lemma {:induction false} BucketsHeld(s: Snap, n: Ns, j: nat, k: nat)
    requires j <= |s.heads|
    ensures var t := BucketsMoved(s, n, j);
            && t == s.(heads := t.heads, ring := t.ring) && Total(t.heads, ByKey(k)) == Total(s.heads, ByKey(k))
            && (forall b :: 0 <= b < |s.heads| ==> |t.heads[b]| == |s.heads[b]| && (b >= j ==> t.heads[b] == s.heads[b]))
            && (forall b, i :: 0 <= b < |s.heads| && 0 <= i < |s.heads[b]| ==> s.heads[b][i] == t.heads[b][i].(ns := s.heads[b][i].ns))
  {
    hide Total, Count, BucketMoved;
    if j > 0 {
      BucketsHeld(s, n, j - 1, k);
      var m := BucketsMoved(s, n, j - 1);
      var l := s.heads[j - 1];
      var moved := BucketMoved(l, m.ring, s.up, n, |l|).bucket;
      BucketHeld(l, m.ring, s.up, n, |l|, k);
      TotalUpdate(m.heads, j - 1, moved, ByKey(k));
    }
  }

  lemma {:induction false} FailureKeeps(s: Snap, n: Ns, k: nat)
    ensures var t := AfterFailure(s, n);
            && t.up == s.up - {n} && t.waiting == s.waiting && t.max == s.max && |t.heads| == |s.heads|
            && Held(t, ByKey(k)) == Held(s, ByKey(k))
            && (forall b :: 0 <= b < |s.heads| ==> |t.heads[b]| == |s.heads[b]|)
            && (forall b, i :: 0 <= b < |s.heads| && 0 <= i < |s.heads[b]| ==> s.heads[b][i] == t.heads[b][i].(ns := s.heads[b][i].ns))
  {
    hide Total, Count, BucketsMoved;
    BucketsHeld(s.(up := s.up - {n}), n, |s.heads|, k);
  }

  lemma {:induction false} AllOfCount(heads: seq<seq<Request>>, q: Query)
    ensures Count(AllOf(heads), q) == Total(heads, q)
  {
    if heads != [] {
      AllOfCount(heads[1..], q);
      CountAppend(heads[0], AllOf(heads[1..]), q);
    }
  }

  lemma {:induction false} PutAllTotal(heads: seq<seq<Request>>, l: seq<Request>, q: Query)
    requires heads != []
    ensures PutAll(heads, l) != [] && Total(PutAll(heads, l), q) == Total(heads, q) + Count(l, q)
    decreases |l|
  {
    hide Total, Put;
    if l != [] {
      PutTotal(heads, l[0]);
      PutAllTotal(Put(heads, l[0]), l[1..], q);
    }
  }

  lemma {:induction false} RehashedTotal(heads: seq<seq<Request>>, n: nat, q: Query)
    requires n > 0
    ensures Rehashed(heads, n) != [] && Total(Rehashed(heads, n), q) == Total(heads, q)
  {
    hide Total, AllOf;
    var none: seq<seq<Request>> := seq(n, _ => []);
    TotalEmpty(none, q);
    AllOfCount(heads, q);
    PutAllTotal(none, AllOf(heads), q);
  }

  lemma {:induction false} ChangedHeld(s: Snap, b: nat, i: nat, r: Request, k: nat)
    requires At(s, b, i) && r.key == s.heads[b][i].key
    ensures Held(Changed(s, b, i, r), ByKey(k)) == Held(s, ByKey(k)) && Changed(s, b, i, r).heads != []
  {
    hide Total;
    ReplaceTotal(s.heads, b, i, r);
  }

  lemma {:induction false} TakenHeld(s: Snap, b: nat, i: nat, k: nat)
    requires At(s, b, i)
    ensures var t := s.(heads := Taken(s.heads, b, i));
            t.heads != [] && Held(t, ByKey(k)) + Hit(s.heads[b][i], ByKey(k)) == Held(s, ByKey(k))
  {
    hide Total, Taken;
    TakenTotal(s.heads, b, i);
  }

  /** The ring plays no part in what is held. */
  lemma {:induction false} RingFree(s: Snap, ring: seq<Ns>, k: nat)
    ensures Held(s.(ring := ring), ByKey(k)) == Held(s, ByKey(k)) && Held(AfterNew(s), ByKey(k)) == Held(s, ByKey(k))
    ensures AfterNew(s) == s.(ring := AfterNew(s).ring)
  {
    hide Total, NextRing;
  }

  /** Every step holds exactly the requests that were held or asked for and did not end. */
  lemma {:induction false} StepLedger(op: Op, s: Snap, t: Snap, k: nat)
    requires s.heads != [] && Possible(s, op) && Effect(op, s, t)
    ensures t.heads != [] && Held(t, ByKey(k)) + Ends(op, s, k) == Held(s, ByKey(k)) + Asks(op, k)
  {
    hide Held, Taken, Put, Pumps, NextPick, NextRing, AfterFailure, Rehashed, Submitted, AfterNew, Changed, Total, Searched, Resent, Reissued, Inflight;
    RingFree(s, s.ring, k);
    match op
    case Resolve(key) =>
      var r :| NewRequest(s, key, r) && t == Submitted(AfterNew(s), r);
      SubmittedHeld(AfterNew(s), r, k);
    case Finish(b, i) => TakenHeld(s, b, i, k); PumpsHeld(s.(heads := Taken(s.heads, b, i)), t, k);
    case CancelWaiting(i) => CancelHeld(s, i, k); PumpsHeld(s.(waiting := s.waiting[..i] + s.waiting[i + 1..]), t, k);
    case Search(b, i, key) => SearchHeld(s, b, i, key, t, k);
    case Probe(n, key) => ProbeHeld(s, n, key, t, k);
    case Timeout(b, i, retransmits, serverOut) => TimeoutHeld(s, b, i, retransmits, serverOut, t, k);
    case ServerUp(n, b, i, probed) => UpHeld(s, n, b, i, probed, t, k);
    case Resume => PumpsHeld(s, t, k);
    case _ => OtherHeld(op, s, t, k);
  }

  lemma {:induction false} OtherHeld(op: Op, s: Snap, t: Snap, k: nat)
    requires s.heads != [] && Possible(s, op) && Effect(op, s, t)
    requires op.Transmit? || op.Reissue? || op.ServerFailed? || op.AddServer? || op.SetMax?
    ensures t.heads != [] && Held(t, ByKey(k)) == Held(s, ByKey(k))
  {
    hide Total, Rehashed, NextPick, NextRing, AfterFailure, Changed;
    match op
    case Transmit(b, i) => ChangedHeld(s, b, i, s.heads[b][i].(txCount := s.heads[b][i].txCount + 1), k);
    case Reissue(b, i) =>
      var u, r := s.(ring := NextRing(s.ring, s.up)), s.heads[b][i];
      ChangedHeld(u, b, i, r.(ns := NextPick(s.ring, s.up), reissues := r.reissues + 1, txCount := 0), k);
    case ServerFailed(n) => FailureKeeps(s, n, k);
    case AddServer(_) =>
    case SetMax(limit) => RehashedTotal(s.heads, ((if limit < 1 then 1 else limit) + 4) / 5, ByKey(k));
  }

  lemma {:induction false} CancelHeld(s: Snap, i: nat, k: nat)
    requires i < |s.waiting|
    ensures Held(s.(waiting := s.waiting[..i] + s.waiting[i + 1..]), ByKey(k)) + Hit(s.waiting[i], ByKey(k)) == Held(s, ByKey(k))
  {
    hide Total;
    CountAt(s.waiting, i, ByKey(k));
  }

  lemma {:induction false} SearchHeld(s: Snap, b: nat, i: nat, key: nat, t: Snap, k: nat)
    requires Searched(s, b, i, key, t)
    ensures t.heads != []
    ensures Held(t, ByKey(k)) + Hit(s.heads[b][i], ByKey(k)) == Held(s, ByKey(k)) + if key == k then 1 else 0
  {
    hide Held, Taken, Pumps, AfterNew, Submitted, NextPick, Inflight, FreeId;
    var r, m :| NewRequest(s, key, r) && Pumps(AfterNew(s).(heads := Taken(s.heads, b, i)), m) && m.heads != [] && t == Submitted(m, r);
    RingFree(s, s.ring, k);
    TakenHeld(AfterNew(s), b, i, k);
    PumpsHeld(AfterNew(s).(heads := Taken(s.heads, b, i)), m, k);
    SubmittedHeld(m, r, k);
  }

  lemma {:induction false} ProbeHeld(s: Snap, n: Ns, key: nat, t: Snap, k: nat)
    requires s.heads != [] && Possible(s, Probe(n, key)) && Effect(Probe(n, key), s, t)
    ensures t.heads != [] && Held(t, ByKey(k)) == Held(s, ByKey(k)) + if key == k then 1 else 0
  {
    hide Total, Put, NextRing;
    var id :| FreeId(s.heads, id) && t == AfterNew(s).(heads := Put(s.heads, Request(key, id, Some(n), 0, 0)));
    PutTotal(s.heads, Request(key, id, Some(n), 0, 0));
  }

  lemma {:induction false} TimeoutHeld(s: Snap, b: nat, i: nat, retransmits: nat, serverOut: bool, t: Snap, k: nat)
    requires s.heads != [] && Possible(s, Timeout(b, i, retransmits, serverOut)) && Effect(Timeout(b, i, retransmits, serverOut), s, t)
    ensures t.heads != [] && Held(t, ByKey(k)) + Ends(Timeout(b, i, retransmits, serverOut), s, k) == Held(s, ByKey(k))
  {
    hide Held, Taken, Pumps, NextPick, NextRing, AfterFailure, Changed;
    var r := s.heads[b][i];
    if r.txCount >= retransmits {
      var m :| Pumps(s.(heads := Taken(s.heads, b, i)), m) && t == AfterFailure(m, r.ns.value);
      TakenHeld(s, b, i, k);
      PumpsHeld(s.(heads := Taken(s.heads, b, i)), m, k);
      FailureKeeps(m, r.ns.value, k);
    } else {
      var u := s.(ring := NextRing(s.ring, s.up));
      RingFree(s, u.ring, k);
      ChangedHeld(u, b, i, r.(ns := NextPick(s.ring, s.up), txCount := r.txCount + 1), k);
      if serverOut {
        FailureKeeps(Resent(s, b, i), NextPick(s.ring, s.up).value, k);
      }
    }
  }

  lemma {:induction false} UpHeld(s: Snap, n: Ns, b: nat, i: nat, probed: bool, t: Snap, k: nat)
    requires s.heads != [] && Possible(s, ServerUp(n, b, i, probed)) && Effect(ServerUp(n, b, i, probed), s, t)
    ensures t.heads != [] && Held(t, ByKey(k)) + Ends(ServerUp(n, b, i, probed), s, k) == Held(s, ByKey(k))
  {
    hide Total, Taken, Pumps;
    if n !in s.up && probed {
      var m :| Pumps(s.(heads := Taken(s.heads, b, i)), m) && t == Up(m, n);
      TakenHeld(s, b, i, k);
      PumpsHeld(s.(heads := Taken(s.heads, b, i)), m, k);
    }
  }

  // ---------- giving up ----------

  /** Every request in flight with the key `k` was transmitted `tx` times. */
  ghost predicate SentTimes(heads: seq<seq<Request>>, k: nat, tx: nat) {
    forall b, r :: 0 <= b < |heads| && r in heads[b] && r.key == k ==> r.txCount == tx
  }

  /** The request `k` is in flight, and it was transmitted `tx` times. */
  ghost predicate Tracks(s: Snap, k: nat, tx: nat) {
    s.heads != [] && Total(s.heads, ByKey(k)) == 1 && Count(s.waiting, ByKey(k)) == 0 && SentTimes(s.heads, k, tx)
  }

  /** The step is about the request with the key `k`. */
  predicate About(op: Op, s: Snap, k: nat) {
    (op.Timeout? || op.Transmit? || op.Reissue?) && At(s, op.b, op.i) && s.heads[op.b][op.i].key == k
  }

  lemma {:induction false} PutSent(heads: seq<seq<Request>>, r: Request, k: nat, tx: nat)
    requires heads != [] && SentTimes(heads, k, tx) && (r.key == k ==> r.txCount == tx)
    ensures SentTimes(Put(heads, r), k, tx)
  {
  }

  lemma {:induction false} TakenSent(heads: seq<seq<Request>>, b: nat, i: nat, k: nat, tx: nat)
    requires b < |heads| && i < |heads[b]| && SentTimes(heads, k, tx)
    ensures SentTimes(Taken(heads, b, i), k, tx)
  {
  }

  lemma {:induction false} SentSent(s: Snap, id: nat, k: nat, tx: nat)
    requires s.heads != [] && s.waiting != [] && SentTimes(s.heads, k, tx) && Count(s.waiting, ByKey(k)) == 0
    ensures SentTimes(Sent(s, id).heads, k, tx) && Count(Sent(s, id).waiting, ByKey(k)) == 0
  {
    hide SentTimes, NextPick, NextRing, Put;
    PutSent(s.heads, s.waiting[0].(ns := NextPick(s.ring, s.up), transId := id), k, tx);
  }

  lemma {:induction false} PumpsSent(s: Snap, t: Snap, k: nat, tx: nat)
    requires Pumps(s, t) && s.heads != [] && SentTimes(s.heads, k, tx) && Count(s.waiting, ByKey(k)) == 0
    ensures SentTimes(t.heads, k, tx) && Count(t.waiting, ByKey(k)) == 0
    decreases |s.waiting|
  {
    hide Total, SentTimes, Pumped, Sent, Count;
    if !Pumped(s) {
      var m :| PumpStep(s, m) && |m.waiting| < |s.waiting| && Pumps(m, t);
      var id :| m == Sent(s, id);
      PumpStepIds(s, m);
      SentSent(s, id, k, tx);
      PumpsSent(m, t, k, tx);
    }
  }

  lemma {:induction false} PutAllSent(heads: seq<seq<Request>>, l: seq<Request>, k: nat, tx: nat)
    requires heads != [] && SentTimes(heads, k, tx) && forall r :: r in l && r.key == k ==> r.txCount == tx
    ensures SentTimes(PutAll(heads, l), k, tx)
    decreases |l|
  {
    hide SentTimes, Put;
    if l != [] {
      PutSent(heads, l[0], k, tx);
      PutTotal(heads, l[0]);
      PutAllSent(Put(heads, l[0]), l[1..], k, tx);
    }
  }

  lemma {:induction false} AllOfSent(heads: seq<seq<Request>>, k: nat, tx: nat)
    requires SentTimes(heads, k, tx)
    ensures forall r :: r in AllOf(heads) && r.key == k ==> r.txCount == tx
  {
    if heads != [] {
      assert forall b :: 0 <= b < |heads[1..]| ==> heads[1..][b] == heads[b + 1];
      AllOfSent(heads[1..], k, tx);
    }
  }

  lemma {:induction false} RehashedSent(heads: seq<seq<Request>>, n: nat, k: nat, tx: nat)
    requires n > 0 && SentTimes(heads, k, tx)
    ensures SentTimes(Rehashed(heads, n), k, tx)
  {
    hide AllOf, PutAll;
    AllOfSent(heads, k, tx);
    PutAllSent(seq(n, _ => []), AllOf(heads), k, tx);
  }

  lemma {:induction false} FailureSent(s: Snap, n: Ns, k: nat, tx: nat)
    requires SentTimes(s.heads, k, tx)
    ensures SentTimes(AfterFailure(s, n).heads, k, tx)
  {
    hide AfterFailure, Held;
    FailureKeeps(s, n, k);
    var t := AfterFailure(s, n);
    forall b, r: Request | 0 <= b < |t.heads| && r in t.heads[b] && r.key == k
      ensures r.txCount == tx
    {
      var i :| 0 <= i < |t.heads[b]| && t.heads[b][i] == r;
      assert s.heads[b][i] == r.(ns := s.heads[b][i].ns);
      assert s.heads[b][i] in s.heads[b];
    }
  }

  /** A key held in two places is held twice. */
  lemma {:induction false} TwoPlaces(heads: seq<seq<Request>>, b: nat, i: nat, c: nat, j: nat, k: nat)
    requires b < |heads| && i < |heads[b]| && c < |heads| && j < |heads[c]| && heads[b][i].key == heads[c][j].key == k
    requires b != c || i != j
    ensures Total(heads, ByKey(k)) >= 2
  {
    hide Total, Taken;
    TakenTotal(heads, b, i);
    StillThere(heads, b, i, c, j);
    TotalIn(Taken(heads, b, i), ByKey(k));
    var l := Taken(heads, b, i)[c];
    CountIn(l, ByKey(k));
    var m :| 0 <= m < |l| && l[m] == heads[c][j];
    assert Hit(l[m], ByKey(k)) == 1;
  }

  lemma {:induction false} StillThere(heads: seq<seq<Request>>, b: nat, i: nat, c: nat, j: nat)
    requires b < |heads| && i < |heads[b]| && c < |heads| && j < |heads[c]| && (b != c || i != j)
    ensures c < |Taken(heads, b, i)| && heads[c][j] in Taken(heads, b, i)[c]
  {
    if b == c {
      var l := Taken(heads, b, i)[c];
      if j < i {
        assert l[j] == heads[c][j];
      } else {
        assert l[j - 1] == heads[c][j];
      }
    }
  }

  /** Another count for the one request with the key, or for one with another key. */
  lemma {:induction false} ChangedSent(heads: seq<seq<Request>>, b: nat, i: nat, r: Request, k: nat, tx: nat)
    requires b < |heads| && i < |heads[b]| && SentTimes(heads, k, tx) && r.key == heads[b][i].key
    requires Total(heads, ByKey(k)) == 1
    ensures SentTimes(heads[b := heads[b][i := r]], k, if r.key == k then r.txCount else tx)
  {
    hide Total;
    var t := heads[b := heads[b][i := r]];
    forall c, q: Request | 0 <= c < |t| && q in t[c] && q.key == k
      ensures q.txCount == if r.key == k then r.txCount else tx
    {
      var j :| 0 <= j < |t[c]| && t[c][j] == q;
      if c != b || j != i {
        assert heads[c][j] == q && q in heads[c];
        if r.key == k {
          TwoPlaces(heads, b, i, c, j, k);
        }
      }
    }
  }

  /** Sending a request once more counts, also when its new server has failed by that. */
  lemma {:induction false} ResendCounts(s: Snap, b: nat, i: nat, retransmits: nat, serverOut: bool, t: Snap)
    requires s.heads != [] && Possible(s, Timeout(b, i, retransmits, serverOut)) && Effect(Timeout(b, i, retransmits, serverOut), s, t)
    requires s.heads[b][i].txCount < retransmits
    ensures At(t, b, i) && t.heads[b][i].key == s.heads[b][i].key && t.heads[b][i].txCount == s.heads[b][i].txCount + 1
    ensures t.heads[b][i].transId == s.heads[b][i].transId && (!serverOut ==> t.heads[b][i].ns == NextPick(s.ring, s.up) && t.up == s.up)
    ensures serverOut ==> NextPick(s.ring, s.up).Some? && t.up == s.up - {NextPick(s.ring, s.up).value}
  {
    hide AfterFailure, Held, NextPick, NextRing;
    if serverOut {
      FailureKeeps(Resent(s, b, i), NextPick(s.ring, s.up).value, 0);
      assert Resent(s, b, i).heads[b][i] == t.heads[b][i].(ns := Resent(s, b, i).heads[b][i].ns);
    }
  }

  /** Between reissues a request in flight that does not end stays in flight, and its count is one more after each
      step that sends it. */
  lemma {:induction false} StepTracks(op: Op, s: Snap, t: Snap, k: nat, tx: nat)
    requires s.heads != [] && Possible(s, op) && Effect(op, s, t) && Tracks(s, k, tx)
    requires Asks(op, k) == 0 && Ends(op, s, k) == 0 && !(op.Reissue? && About(op, s, k))
    ensures Tracks(t, k, if About(op, s, k) then tx + 1 else tx)
  {
    hide Effect, SentTimes, Total, Ends, Asks;
    StepLedger(op, s, t, k);
    StepSent(op, s, t, k, tx);
  }

  lemma {:induction false} StepSent(op: Op, s: Snap, t: Snap, k: nat, tx: nat)
    requires s.heads != [] && Possible(s, op) && Effect(op, s, t) && Tracks(s, k, tx)
    requires Asks(op, k) == 0 && Ends(op, s, k) == 0 && !(op.Reissue? && About(op, s, k))
    ensures Count(t.waiting, ByKey(k)) == 0 && SentTimes(t.heads, k, if About(op, s, k) then tx + 1 else tx)
  {
    hide SentTimes, Total, Taken, Put, Pumps, NextPick, NextRing, AfterFailure, Rehashed, Count, Held, FreeId, Inflight;
    match op
    case Resolve(key) =>
      var r :| NewRequest(s, key, r) && t == Submitted(AfterNew(s), r);
      SubmittedSent(AfterNew(s), r, k, tx);
    case Finish(b, i) => TakenSent(s.heads, b, i, k, tx); TakenTotal(s.heads, b, i); PumpsSent(s.(heads := Taken(s.heads, b, i)), t, k, tx);
    case CancelWaiting(i) => CountAt(s.waiting, i, ByKey(k)); PumpsSent(s.(waiting := s.waiting[..i] + s.waiting[i + 1..]), t, k, tx);
    case Search(b, i, key) =>
      var r, m :| NewRequest(s, key, r) && Pumps(AfterNew(s).(heads := Taken(s.heads, b, i)), m) && m.heads != [] && t == Submitted(m, r);
      TakenSent(s.heads, b, i, k, tx);
      TakenTotal(s.heads, b, i);
      PumpsSent(AfterNew(s).(heads := Taken(s.heads, b, i)), m, k, tx);
      SubmittedSent(m, r, k, tx);
    case Probe(n, key) =>
      var id :| FreeId(s.heads, id) && t == AfterNew(s).(heads := Put(s.heads, Request(key, id, Some(n), 0, 0)));
      PutSent(s.heads, Request(key, id, Some(n), 0, 0), k, tx);
    case Timeout(b, i, retransmits, serverOut) => TimeoutSent(s, b, i, retransmits, serverOut, t, k, tx);
    case ServerUp(n, b, i, probed) =>
      if n !in s.up && probed {
        var m :| Pumps(s.(heads := Taken(s.heads, b, i)), m) && t == Up(m, n);
        TakenSent(s.heads, b, i, k, tx);
        TakenTotal(s.heads, b, i);
        PumpsSent(s.(heads := Taken(s.heads, b, i)), m, k, tx);
      }
    case Resume => PumpsSent(s, t, k, tx);
    case _ => OtherSent(op, s, t, k, tx);
  }

  lemma {:induction false} SubmittedSent(s: Snap, r: Request, k: nat, tx: nat)
    requires s.heads != [] && SentTimes(s.heads, k, tx) && Count(s.waiting, ByKey(k)) == 0 && r.key != k
    ensures SentTimes(Submitted(s, r).heads, k, tx) && Count(Submitted(s, r).waiting, ByKey(k)) == 0
  {
    hide SentTimes, Put;
    PutSent(s.heads, r, k, tx);
    CountAppend(s.waiting, [r], ByKey(k));
    CountOne(r, ByKey(k));
  }

  lemma {:induction false} TimeoutSent(s: Snap, b: nat, i: nat, retransmits: nat, serverOut: bool, t: Snap, k: nat, tx: nat)
    requires s.heads != [] && Possible(s, Timeout(b, i, retransmits, serverOut)) && Effect(Timeout(b, i, retransmits, serverOut), s, t)
    requires Tracks(s, k, tx) && Ends(Timeout(b, i, retransmits, serverOut), s, k) == 0
    ensures Count(t.waiting, ByKey(k)) == 0 && SentTimes(t.heads, k, if s.heads[b][i].key == k then tx + 1 else tx)
  {
    hide SentTimes, Total, Taken, Pumps, NextPick, NextRing, AfterFailure, Count, Held;
    var r := s.heads[b][i];
    assert r.key == k ==> r.txCount == tx by { SentAt(s.heads, b, i, k, tx); }
    if r.txCount >= retransmits {
      var m :| Pumps(s.(heads := Taken(s.heads, b, i)), m) && t == AfterFailure(m, r.ns.value);
      TakenSent(s.heads, b, i, k, tx);
      TakenTotal(s.heads, b, i);
      PumpsSent(s.(heads := Taken(s.heads, b, i)), m, k, tx);
      FailureKeeps(m, r.ns.value, k);
      FailureSent(m, r.ns.value, k, tx);
    } else {
      ChangedSent(s.heads, b, i, r.(ns := NextPick(s.ring, s.up), txCount := r.txCount + 1), k, tx);
      if serverOut {
        FailureKeeps(Resent(s, b, i), NextPick(s.ring, s.up).value, k);
        FailureSent(Resent(s, b, i), NextPick(s.ring, s.up).value, k, if r.key == k then tx + 1 else tx);
      }
    }
  }

  lemma {:induction false} SentAt(heads: seq<seq<Request>>, b: nat, i: nat, k: nat, tx: nat)
    requires SentTimes(heads, k, tx) && b < |heads| && i < |heads[b]|
    ensures heads[b][i].key == k ==> heads[b][i].txCount == tx
  {
    assert heads[b][i] in heads[b];
  }

  lemma {:induction false} OtherSent(op: Op, s: Snap, t: Snap, k: nat, tx: nat)
    requires s.heads != [] && Possible(s, op) && Effect(op, s, t) && Tracks(s, k, tx) && !(op.Reissue? && About(op, s, k))
    requires op.Transmit? || op.Reissue? || op.ServerFailed? || op.AddServer? || op.SetMax?
    ensures Count(t.waiting, ByKey(k)) == 0 && SentTimes(t.heads, k, if About(op, s, k) then tx + 1 else tx)
  {
    hide SentTimes, Total, Rehashed, NextPick, NextRing, AfterFailure, Count, Held;
    match op
    case Transmit(b, i) =>
      assert s.heads[b][i].key == k ==> s.heads[b][i].txCount == tx by { SentAt(s.heads, b, i, k, tx); }
      ChangedSent(s.heads, b, i, s.heads[b][i].(txCount := s.heads[b][i].txCount + 1), k, tx);
    case Reissue(b, i) =>
      var r := s.heads[b][i];
      ChangedSent(s.heads, b, i, r.(ns := NextPick(s.ring, s.up), reissues := r.reissues + 1, txCount := 0), k, tx);
    case ServerFailed(n) => FailureKeeps(s, n, k); FailureSent(s, n, k, tx);
    case AddServer(_) =>
    case SetMax(limit) => RehashedSent(s.heads, ((if limit < 1 then 1 else limit) + 4) / 5, k, tx);
  }

  /** How often the request `k` timed out in the steps from `i` to `j`. */
  function TimedOut(ops: seq<Op>, states: seq<Snap>, k: nat, i: nat, j: nat): nat
    requires i <= j <= |ops| && |states| > |ops|
    decreases j - i
  {
    if i == j then 0
    else TimedOut(ops, states, k, i, j - 1) + if ops[j - 1].Timeout? && About(ops[j - 1], states[j - 1], k) then 1 else 0
  }

  /** In these steps the request is neither asked for again nor reissued nor ended, and may be sent `n` times. */
  ghost predicate Undisturbed(ops: seq<Op>, states: seq<Snap>, k: nat, n: nat, i: nat, j: nat)
    requires i <= j <= |ops| && |states| > |ops|
  {
    forall l :: i <= l < j ==>
      && Possible(states[l], ops[l]) && Asks(ops[l], k) == 0 && Ends(ops[l], states[l], k) == 0
      && !(ops[l].Reissue? && About(ops[l], states[l], k))
      && (ops[l].Timeout? && About(ops[l], states[l], k) ==> ops[l].retransmits <= n)
  }

  /** A request that was sent `tx` times survives at most n - tx timeouts, and the one after them ends it. */
  lemma {:induction false} GivenUpInTime(ops: seq<Op>, states: seq<Snap>, k: nat, tx: nat, n: nat, i: nat, j: nat) returns (now: nat)
    requires Explains(ops, states) && i <= j <= |ops| && Tracks(states[i], k, tx) && Undisturbed(ops, states, k, n, i, j)
    ensures Tracks(states[j], k, now) && now >= tx + TimedOut(ops, states, k, i, j)
    ensures TimedOut(ops, states, k, i, j) <= if n > tx then n - tx else 0
    ensures j < |ops| && ops[j].Timeout? && About(ops[j], states[j], k) && ops[j].retransmits <= tx + TimedOut(ops, states, k, i, j) ==>
              Ends(ops[j], states[j], k) == 1 && Held(states[j + 1], ByKey(k)) == 0
    decreases j - i
  {
    hide Effect, Possible, Ends, Asks, About, Tracks, Held;
    now := tx;
    if i < j {
      now := GivenUpInTime(ops, states, k, tx, n, i, j - 1);
      var op, s := ops[j - 1], states[j - 1];
      assert Effect(op, s, states[j - 1 + 1]);
      if op.Timeout? && About(op, s, k) {
        NotYet(op, s, k, now);
      }
      StepTracks(op, s, states[j], k, now);
      now := if About(op, s, k) then now + 1 else now;
    }
    if j < |ops| && ops[j].Timeout? && About(ops[j], states[j], k) && ops[j].retransmits <= tx + TimedOut(ops, states, k, i, j) {
      assert Effect(ops[j], states[j], states[j + 1]);
      LastTimeout(ops[j], states[j], states[j + 1], k, now);
    }
  }

  lemma {:induction false} NotYet(op: Op, s: Snap, k: nat, tx: nat)
    requires op.Timeout? && About(op, s, k) && Tracks(s, k, tx) && Possible(s, op) && Ends(op, s, k) == 0
    ensures tx < op.retransmits
  {
    SentAt(s.heads, op.b, op.i, k, tx);
  }

  lemma {:induction false} LastTimeout(op: Op, s: Snap, t: Snap, k: nat, tx: nat)
    requires op.Timeout? && About(op, s, k) && Tracks(s, k, tx) && Possible(s, op) && Effect(op, s, t) && op.retransmits <= tx
    ensures Ends(op, s, k) == 1 && Held(t, ByKey(k)) == 0
  {
    hide Effect, Total;
    SentAt(s.heads, op.b, op.i, k, tx);
    StepLedger(op, s, t, k);
  }

  /** Requests can be made at any time, servers added, and everything that is about a request while it is there. */
  lemma {:induction false} AlwaysPossible(s: Snap, op: Op)
    ensures op.Resolve? || op.AddServer? || op.Resume? || (op.SetMax? && op.limit <= 65000) ==> Possible(s, op)
    ensures (op.Finish? || op.Search? || op.Transmit? || op.Reissue? || op.Timeout?) && op.b < |s.heads| && op.i < |s.heads[op.b]| ==>
              Possible(s, op)
    ensures op.CancelWaiting? && op.i < |s.waiting| ==> Possible(s, op)
    ensures (op.ServerFailed? || (op.ServerUp? && !op.probed)) && op.ns in s.ring ==> Possible(s, op)
    ensures op.ServerUp? && op.ns in s.ring && op.b < |s.heads| && op.i < |s.heads[op.b]| ==> Possible(s, op)
    ensures op.Probe? && op.ns in s.ring && Inflight(s) < 65535 ==> Possible(s, op)
  {
  }

  /** A probe is in flight to the server it is about, and nothing else changed. */
  lemma {:induction false} ProbeGoes(s: Snap, n: Ns, key: nat, t: Snap)
    requires s.heads != [] && Possible(s, Probe(n, key)) && Effect(Probe(n, key), s, t)
    ensures t.waiting == s.waiting && t.up == s.up
    ensures exists b, r :: 0 <= b < |t.heads| && r in t.heads[b] && r.key == key && r.ns == Some(n) && r.txCount == 0
  {
    hide Total, NextRing;
    var id: nat :| FreeId(s.heads, id) && t == AfterNew(s).(heads := Put(s.heads, Request(key, id, Some(n), 0, 0)));
    var b := id % |s.heads|;
    assert Request(key, id, Some(n), 0, 0) in t.heads[b];
  }

  /** What becomes of one request when its server, or another, has failed. */
  predicate MovedRight(before: Request, after: Request, n: Ns, up: set<Ns>) {
    if before.txCount == 0 && before.ns == Some(n) then after == before.(ns := after.ns) && after.ns.Some? && after.ns.value in up
    else after == before
  }

  lemma {:induction false} BucketMovesRight(l: seq<Request>, ring: seq<Ns>, up: set<Ns>, n: Ns, j: nat)
    requires j <= |l| && exists s :: s in ring && s in up
    ensures var t := BucketMoved(l, ring, up, n, j);
            && (forall s :: s in t.ring <==> s in ring)
            && (forall i :: 0 <= i < j ==> MovedRight(l[i], t.bucket[i], n, up)) && (forall i :: j <= i < |l| ==> t.bucket[i] == l[i])
  {
    hide NextPick, NextRing;
    if j > 0 {
      BucketMovesRight(l, ring, up, n, j - 1);
      var t := BucketMoved(l, ring, up, n, j - 1);
      PickIsUp(t.ring, up);
    }
  }

  lemma {:induction false} PickIsUp(ring: seq<Ns>, up: set<Ns>)
    requires exists s :: s in ring && s in up
    ensures NextPick(ring, up).Some? && NextPick(ring, up).value in up
    ensures forall s :: s in NextRing(ring, up) <==> s in ring
  {
    hide FirstAlive;
    NextPickIn(ring, up);
    var k := FirstAlive(ring, up);
    assert k < |ring| by {
      var s :| s in ring && s in up;
      var i :| 0 <= i < |ring| && ring[i] == s;
    }
  }

  lemma {:induction false} BucketsMoveRight(s: Snap, n: Ns, j: nat)
    requires j <= |s.heads| && exists m :: m in s.ring && m in s.up
    ensures var t := BucketsMoved(s, n, j);
            && (forall m :: m in t.ring <==> m in s.ring) && t.up == s.up
            && (forall b :: 0 <= b < |s.heads| ==> |t.heads[b]| == |s.heads[b]| && (b >= j ==> t.heads[b] == s.heads[b]))
            && (forall b, i :: 0 <= b < j && 0 <= i < |s.heads[b]| ==> MovedRight(s.heads[b][i], t.heads[b][i], n, s.up))
  {
    hide BucketMoved, MovedRight;
    if j > 0 {
      BucketsMoveRight(s, n, j - 1);
      var m := BucketsMoved(s, n, j - 1);
      BucketMovesRight(s.heads[j - 1], m.ring, s.up, n, |s.heads[j - 1]|);
    }
  }

  /** A failed server: while another one is up, exactly its requests that were not sent yet go to servers that are up,
      and every other request stays as it is; without one nothing moves. */
  lemma {:induction false} FailureMoves(s: Snap, n: Ns, b: nat, i: nat)
    requires n in s.up && (forall m :: m in s.up ==> m in s.ring) && At(s, b, i)
    ensures var t := AfterFailure(s, n);
            && t.up == s.up - {n} && At(t, b, i)
            && (s.up == {n} ==> t.heads == s.heads)
            && (s.up != {n} ==>
                  var before, after := s.heads[b][i], t.heads[b][i];
                  if before.txCount == 0 && before.ns == Some(n) then after == before.(ns := after.ns) && after.ns.Some? && after.ns.value in s.up - {n}
                  else after == before)
  {
    hide BucketsMoved;
    var u := s.(up := s.up - {n});
    if u.up != {} {
      var m :| m in u.up;
      assert m in u.ring && m in u.up;
      BucketsMoveRight(u, n, |u.heads|);
      assert MovedRight(u.heads[b][i], BucketsMoved(u, n, |u.heads|).heads[b][i], n, u.up);
    }
  }
}
