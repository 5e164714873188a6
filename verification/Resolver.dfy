/** evdns.c: which requests are in flight, which wait, and what each nameserver carries, through
    submitting, finishing, cancelling, reissuing, failing servers and changing the limit. */
module Resolver {
  import opened Basics
  import opened Nameservers
  import opened RequestLists
  import S = ResolverSpec

  /** requests_inflight of every server. */
  ghost predicate LoadOk(heads: seq<seq<Request>>, ring: seq<Ns>, load: map<Ns, int>) {
    forall s :: s in ring ==> s in load && load[s] == Total(heads, ByNs(s))
  }

  /** `struct evdns_base` */
  class Base {
    const servers: Servers
    /** req_heads: each bucket is a circular list, read from its head. */
    var heads: seq<seq<Request>>
    /** req_waiting_head, read from the head */
    var waiting: seq<Request>
    var inflight: int
    var waitingCount: int
    var max: nat
    /** requests_inflight of each server */
    var load: map<Ns, int>

    ghost predicate Valid()
      reads this, servers
    {
      && servers.Valid()
      && 1 <= max <= MAX_INFLIGHT && |heads| == (max + 4) / 5
      && Placed(heads, servers.ring)
      && (forall i :: 0 <= i < |waiting| ==> waiting[i].ns.None?)
      && inflight == Total(heads, Any) && waitingCount == |waiting|
      && LoadOk(heads, servers.ring, load)
    }

    /** evdns_base_new */
    constructor ()
      ensures Valid() && fresh(servers) && inflight == 0 && UniqueIds()
      ensures Now() == S.Snap(seq(13, _ => []), [], 64, [], {})
    {
      servers := new Servers();
      heads := seq(13, _ => []);
      waiting, inflight, waitingCount, max, load := [], 0, 0, 64, map[];
      new;
      forall q
        ensures Total(heads, q) == 0
      {
        TotalEmpty(heads, q);
      }
    }

    /** The state as one value. */
    ghost function Now(): S.Snap
      reads this, servers
    {
      S.Snap(heads, waiting, max, servers.ring, servers.up)
    }

    /** No two requests in flight share an id. */
    ghost predicate UniqueIds()
      reads this, servers
    {
      S.UniqueIds(Now())
    }

    /** The same servers, in the same states. */
    twostate predicate SameServers()
      reads servers
    {
      && servers.up == old(servers.up) && (servers.ring == [] <==> old(servers.ring) == [])
      && forall s :: s in servers.ring <==> s in old(servers.ring)
    }

    /** How many requests, in flight or waiting, the question is true of. */
    ghost function Held(q: Query): nat
      reads this, servers
    {
      S.Held(Now(), q)
    }

    /** transaction_id_pick */
    method PickId() returns (id: nat)
      requires Valid() && inflight < NO_ID
      ensures id < NO_ID && Unused(heads, id) && Total(heads, ById(id)) == 0
    {
      hide Total, Placed, Unused;
      SomeIdUnused(heads);
      id :| id < NO_ID && Unused(heads, id);
      OneBucket(heads, servers.ring, id);
    }

    /** Puts a request in flight: the bucket and the counters. */
    method Insert(r: Request)
      requires Valid() && r.transId < NO_ID && r.ns.Some? && r.ns.value in servers.ring
      modifies this`heads, this`inflight, this`load
      ensures Valid() && forall q :: Total(heads, q) == old(Total(heads, q)) + Hit(r, q)
      ensures heads == S.Put(old(heads), r)
    {
      hide Total;
      var b := r.transId % |heads|;
      S.PutTotal(heads, r);
      heads := heads[b := heads[b] + [r]];
      inflight := inflight + 1;
      load := load[r.ns.value := load[r.ns.value] + 1];
    }

    /** Takes a request out of its bucket, with the counters. */
    method RemoveAt(b: nat, i: nat) returns (r: Request)
      requires Valid() && b < |heads| && i < |heads[b]|
      modifies this`heads, this`inflight, this`load
      ensures Valid() && r == old(heads)[b][i] && forall q :: Total(heads, q) + Hit(r, q) == old(Total(heads, q))
      ensures heads == S.Taken(old(heads), b, i)
    {
      hide Total;
      r := heads[b][i];
      assert InPlace(r, b, |heads|, servers.ring);
      S.TakenTotal(heads, b, i);
      heads := heads[b := heads[b][..i] + heads[b][i + 1..]];
      inflight := inflight - 1;
      load := load[r.ns.value := load[r.ns.value] - 1];
    }

    /** request_swap_ns */
    method SwapNs(b: nat, i: nat, s: Ns)
      requires Valid() && b < |heads| && i < |heads[b]| && s in servers.ring
      modifies this`heads, this`load
      ensures Valid() && heads == old(heads)[b := old(heads)[b][i := old(heads)[b][i].(ns := Some(s))]]
      ensures forall q: Query :: !q.ByNs? ==> Total(heads, q) == old(Total(heads, q))
    {
      hide Total;
      var r := heads[b][i];
      assert InPlace(r, b, |heads|, servers.ring);
      S.ReplaceTotal(heads, b, i, r.(ns := Some(s)));
      if r.ns != Some(s) {
        load := load[r.ns.value := load[r.ns.value] - 1];
        load := load[s := load[s] + 1];
      }
      heads := heads[b := heads[b][i := r.(ns := Some(s))]];
    }

    /** nameserver_pick */
    method PickServer() returns (picked: Option<Ns>)
      requires Valid()
      modifies servers`ring
      ensures Valid() && SameServers()
      ensures picked.None? <==> servers.ring == []
      ensures picked.Some? ==> picked.value in servers.ring && (picked.value in servers.up <==> servers.up != {})
      ensures picked == NextPick(old(servers.ring), servers.up) && servers.ring == NextRing(old(servers.ring), servers.up)
    {
      hide Total, Rotated, Turn, NextPick, NextRing;
      picked := servers.Pick();
    }

    /** evdns_requests_pump_waiting_queue: the oldest waiting requests go out until nothing waits, the
        limit is reached or there is no server. */
    method Pump()
      requires Valid()
      modifies this`heads, this`waiting, this`inflight, this`waitingCount, this`load, servers`ring
      ensures Valid() && SameServers()
      ensures waiting == [] || inflight >= max || servers.ring == []
      ensures |waiting| <= |old(waiting)| && waiting == old(waiting)[|old(waiting)| - |waiting|..]
      ensures inflight == old(inflight) + |old(waiting)| - |waiting|
      ensures forall k :: Held(ByKey(k)) == old(Held(ByKey(k)))
      ensures old(UniqueIds()) ==> UniqueIds()
      ensures S.Pumps(old(Now()), Now())
    {
      hide Total, Count, Placed, LoadOk, NextPick, NextRing, S.Pumps, S.PumpStep;
      while inflight < max && waitingCount != 0
        invariant Valid() && SameServers()
        invariant |waiting| <= |old(waiting)| && waiting == old(waiting)[|old(waiting)| - |waiting|..]
        invariant inflight == old(inflight) + |old(waiting)| - |waiting|
        invariant forall k :: Held(ByKey(k)) == old(Held(ByKey(k)))
        invariant old(UniqueIds()) ==> UniqueIds()
        invariant forall t :: S.Pumps(Now(), t) ==> S.Pumps(old(Now()), t)
        decreases |waiting|
      {
        ghost var before := Now();
        var picked := PickServer();
        if picked.None? {
          AtRest(Now());
          return;
        }
        PumpOne(picked.value, before);
        OneMore(before, Now());
      }
      AtRest(Now());
    }

    /** One round of the pump, with the server just picked. */
    method PumpOne(s: Ns, ghost before: S.Snap)
      requires Valid() && waiting != [] && inflight < max && s in servers.ring
      requires Some(s) == NextPick(before.ring, before.up) && before.ring != []
      requires Now() == before.(ring := NextRing(before.ring, before.up))
      modifies this`heads, this`waiting, this`inflight, this`waitingCount, this`load
      ensures Valid() && waiting == old(waiting)[1..] && inflight == old(inflight) + 1
      ensures forall k :: Held(ByKey(k)) == old(Held(ByKey(k)))
      ensures old(UniqueIds()) ==> UniqueIds()
      ensures S.PumpStep(before, Now())
    {
      hide Total, Placed, LoadOk, NextPick, NextRing, S.Put;
      var r := waiting[0];
      waiting := waiting[1..];
      waitingCount := waitingCount - 1;
      var id := PickId();
      Insert(r.(ns := Some(s), transId := id));
      assert S.FreeId(before.heads, id) && Now() == S.Sent(before, id);
    }

    /** request_finished for a request in flight: its bucket is found by its id. */
    method Finish(b: nat, i: nat)
      requires Valid() && b < |heads| && i < |heads[b]|
      modifies this`heads, this`waiting, this`inflight, this`waitingCount, this`load, servers`ring
      ensures Valid() && SameServers() && Pumped()
      ensures |waiting| <= |old(waiting)| && waiting == old(waiting)[|old(waiting)| - |waiting|..]
      ensures inflight == old(inflight) - 1 + |old(waiting)| - |waiting|
      ensures forall k :: Held(ByKey(k)) + (if old(heads)[b][i].key == k then 1 else 0) == old(Held(ByKey(k)))
      ensures old(UniqueIds()) ==> UniqueIds()
      ensures S.Pumps(old(Now()).(heads := S.Taken(old(heads), b, i)), Now())
    {
      hide Total, Placed, LoadOk, S.Pumps, S.Taken;
      var r := RemoveAt(b, i);
      forall id
        ensures Total(heads, ById(id)) <= old(Total(heads, ById(id)))
      {
      }
      Pump();
    }

    /** request_finished for a request that waits */
    method FinishWaiting(i: nat)
      requires Valid() && i < |waiting|
      modifies this`heads, this`waiting, this`inflight, this`waitingCount, this`load, servers`ring
      ensures Valid() && SameServers() && Pumped()
      ensures inflight == old(inflight) + |old(waiting)| - 1 - |waiting|
      ensures forall k :: Held(ByKey(k)) + (if old(waiting)[i].key == k then 1 else 0) == old(Held(ByKey(k)))
      ensures old(UniqueIds()) ==> UniqueIds()
      ensures S.Pumps(old(Now()).(waiting := old(waiting)[..i] + old(waiting)[i + 1..]), Now())
    {
      hide Total, Placed, LoadOk, S.Pumps;
      forall k
        ensures Count(waiting, ByKey(k)) == Count(waiting[..i] + waiting[i + 1..], ByKey(k)) + Hit(waiting[i], ByKey(k))
      {
        CountAt(waiting, i, ByKey(k));
      }
      waiting := waiting[..i] + waiting[i + 1..];
      waitingCount := waitingCount - 1;
      Pump();
    }

    /** Nothing waits, the limit is reached, or there is no server. */
    ghost predicate Pumped()
      reads this, servers
    {
      S.Pumped(Now())
    }

    /** request_new */
    method New(key: nat) returns (r: Request)
      requires Valid()
      modifies servers`ring
      ensures Valid() && SameServers() && r.key == key && r.txCount == 0
      ensures r.ns.Some? <==> inflight < max && servers.ring != []
      ensures r.ns.Some? ==> r.ns.value in servers.ring && (r.ns.value in servers.up <==> servers.up != {})
      ensures if inflight < max then r.transId < NO_ID && Total(heads, ById(r.transId)) == 0 else r.transId == NO_ID
      ensures S.NewRequest(old(Now()), key, r) && Now() == S.AfterNew(old(Now()))
    {
      hide Total, Placed, LoadOk, NextPick, NextRing;
      if inflight < max {
        var id := PickId();
        var picked := PickServer();
        r := Request(key, id, picked, 0, 0);
      } else {
        r := Request(key, NO_ID, None, 0, 0);
      }
    }

    /** request_submit */
    method Submit(r: Request)
      requires Valid() && (r.ns.Some? ==> r.transId < NO_ID && r.ns.value in servers.ring)
      modifies this`heads, this`waiting, this`inflight, this`waitingCount, this`load
      ensures Valid() && forall k :: Held(ByKey(k)) == old(Held(ByKey(k))) + if r.key == k then 1 else 0
      ensures if r.ns.Some? then inflight == old(inflight) + 1 && waiting == old(waiting)
              else inflight == old(inflight) && waiting == old(waiting) + [r] && heads == old(heads)
      ensures old(UniqueIds()) ==> (UniqueIds() <==> r.ns.None? || old(Total(heads, ById(r.transId))) == 0)
      ensures Now() == S.Submitted(old(Now()), r)
    {
      hide Total, Placed, LoadOk, S.Put;
      if r.ns.Some? {
        Insert(r);
        assert Total(heads, ById(r.transId)) == old(Total(heads, ById(r.transId))) + 1;
      } else {
        forall k
          ensures Count(waiting + [r], ByKey(k)) == Count(waiting, ByKey(k)) + Hit(r, ByKey(k))
        {
          CountAppend(waiting, [r], ByKey(k));
          CountOne(r, ByKey(k));
        }
        waiting := waiting + [r];
        waitingCount := waitingCount + 1;
      }
    }

    /** A new request: request_new, then request_submit. */
    method Resolve(key: nat)
      requires Valid()
      modifies this`heads, this`waiting, this`inflight, this`waitingCount, this`load, servers`ring
      ensures Valid() && SameServers()
      ensures forall k :: Held(ByKey(k)) == old(Held(ByKey(k))) + if key == k then 1 else 0
      ensures if old(inflight) < max && servers.ring != [] then inflight == old(inflight) + 1 && waiting == old(waiting)
              else inflight == old(inflight) && |waiting| == |old(waiting)| + 1 && waiting[..|old(waiting)|] == old(waiting)
      ensures old(UniqueIds()) ==> UniqueIds()
      ensures S.Effect(S.Resolve(key), old(Now()), Now())
    {
      hide Total, Count, Placed, LoadOk, NextPick, NextRing, S.Put, S.NewRequest, S.AfterNew;
      var r := New(key);
      Submit(r);
    }

    /** nameserver_send_probe: a request forced into flight to one server. */
    method Probe(s: Ns, key: nat)
      requires Valid() && s in servers.ring && inflight < NO_ID
      modifies this`heads, this`waiting, this`inflight, this`waitingCount, this`load, servers`ring
      ensures Valid() && SameServers() && inflight == old(inflight) + 1 && waiting == old(waiting)
      ensures forall k :: Held(ByKey(k)) == old(Held(ByKey(k))) + if key == k then 1 else 0
      ensures old(UniqueIds()) ==> UniqueIds()
      ensures S.Effect(S.Probe(s, key), old(Now()), Now())
    {
      hide Total, Count, Placed, LoadOk, NextPick, NextRing, S.Put;
      var r := New(key);
      var id := PickId();
      Submit(r.(transId := id, ns := Some(s)));
      assert S.FreeId(old(heads), id);
    }

    /** The end of search_try_next: the next name of a search replaces a request in flight. The new
        request is made before the old one is finished. */
    method SearchNext(b: nat, i: nat, key: nat)
      requires Valid() && b < |heads| && i < |heads[b]|
      modifies this`heads, this`waiting, this`inflight, this`waitingCount, this`load, servers`ring
      ensures Valid() && SameServers()
      ensures forall k :: Held(ByKey(k)) + (if old(heads)[b][i].key == k then 1 else 0) == old(Held(ByKey(k))) + if key == k then 1 else 0
      ensures Stranded() <==> old(servers.ring != [] && inflight == 1 && max == 1 && waiting == [])
      ensures S.Searched(old(Now()), b, i, key, Now())
      ensures old(UniqueIds() && Pumped()) ==> UniqueIds()
    {
      hide Total, Count, Placed, LoadOk, NextPick, NextRing, S.Submitted, S.Taken, S.NewRequest, S.AfterNew, S.Pumps, S.Searched;
      var r := New(key);
      OnlyRing(old(Now()));
      Finish(b, i);
      IsSearch(old(Now()), b, i, key, r, Now());
      Submit(r);
      SearchIds(old(Now()), b, i, key, Now(), old(inflight));
    }

    /** Requests wait, servers exist, and no request is in flight whose end would pump the queue. */
    ghost predicate Stranded()
      reads this, servers
    {
      waiting != [] && servers.ring != [] && inflight == 0
    }

    /** The inner loop of nameserver_failed, over one bucket. */
    method ReassignBucket(b: nat, s: Ns)
      requires Valid() && b < |heads| && servers.up != {}
      modifies this`heads, this`load, servers`ring
      ensures Valid() && SameServers()
      ensures var t := S.BucketMoved(old(heads)[b], old(servers.ring), servers.up, s, |old(heads)[b]|);
              heads == old(heads)[b := t.bucket] && servers.ring == t.ring
      ensures S.Reassigned(old(heads)[b], heads[b], s, servers.up)
      ensures forall q: Query :: !q.ByNs? ==> Total(heads, q) == old(Total(heads, q))
    {
      hide Total, Placed, LoadOk, NextPick, NextRing;
      ghost var l, ring := heads[b], servers.ring;
      var i := 0;
      assert heads[b := l] == heads;
      while i < |heads[b]|
        invariant Valid() && SameServers() && i <= |l| == |heads[b]| && |heads| == |old(heads)|
        invariant var t := S.BucketMoved(l, ring, servers.up, s, i);
                  heads == old(heads)[b := t.bucket] && servers.ring == t.ring
        invariant forall j :: 0 <= j < i ==> S.Moved(l[j], heads[b][j], s, servers.up)
        invariant forall j :: i <= j < |l| ==> heads[b][j] == l[j]
        invariant forall q: Query :: !q.ByNs? ==> Total(heads, q) == old(Total(heads, q))
        decreases |l| - i
      {
        if heads[b][i].txCount == 0 && heads[b][i].ns == Some(s) {
          ghost var before := heads;
          var picked := PickServer();
          SwapNs(b, i, picked.value);
          assert heads == old(heads)[b := before[b][i := l[i].(ns := picked)]];
        }
        i := i + 1;
      }
    }

    /** nameserver_failed: while another server is up, nothing that has not been sent stays with the
        failed one, and nothing else is touched. */
    method Failed(s: Ns)
      requires Valid() && s in servers.ring
      modifies this`heads, this`load, servers
      ensures Valid() && servers.up == old(servers.up) - {s} && (forall t :: t in servers.ring <==> t in old(servers.ring))
      ensures |heads| == |old(heads)|
      ensures if s in old(servers.up) && servers.up != {}
              then forall c :: 0 <= c < |heads| ==> S.Reassigned(old(heads)[c], heads[c], s, servers.up)
              else heads == old(heads)
      ensures forall q: Query :: !q.ByNs? ==> Total(heads, q) == old(Total(heads, q))
      ensures Now() == S.AfterFailure(old(Now()), s)
    {
      hide Total, Placed, LoadOk, S.Moved, S.Reassigned, S.BucketMoved;
      if s !in servers.up {
        return;
      }
      servers.Failed(s);
      if servers.good == 0 {
        return;
      }
      ghost var start := Now();
      var b := 0;
      while b < |heads|
        invariant Valid() && servers.up == old(servers.up) - {s} && servers.up != {}
        invariant forall t :: t in servers.ring <==> t in old(servers.ring)
        invariant b <= |heads| == |old(heads)| && Now() == S.BucketsMoved(start, s, b)
        invariant forall c :: 0 <= c < b ==> S.Reassigned(old(heads)[c], heads[c], s, servers.up)
        invariant forall c :: b <= c < |heads| ==> heads[c] == old(heads)[c]
        invariant forall q: Query :: !q.ByNs? ==> Total(heads, q) == old(Total(heads, q))
        modifies this`heads, this`load, servers`ring
      {
        ReassignBucket(b, s);
        b := b + 1;
      }
    }

    /** nameserver_up: a probe still in flight is cancelled first. */
    method CameUp(s: Ns, probe: Option<(nat, nat)>)
      requires Valid() && s in servers.ring
      requires probe.Some? ==> probe.value.0 < |heads| && probe.value.1 < |heads[probe.value.0]|
      modifies this`heads, this`waiting, this`inflight, this`waitingCount, this`load, servers
      ensures Valid() && servers.up == old(servers.up) + {s}
      ensures forall t :: t in servers.ring <==> t in old(servers.ring)
      ensures old(UniqueIds()) ==> UniqueIds()
      ensures if probe.None? || s in old(servers.up) then heads == old(heads) && waiting == old(waiting)
              else var r := old(heads)[probe.value.0][probe.value.1];
                   forall k :: Held(ByKey(k)) + (if r.key == k then 1 else 0) == old(Held(ByKey(k)))
      ensures if s in old(servers.up) then Now() == old(Now())
              else if probe.None? then Now() == S.Up(old(Now()), s)
              else exists m :: S.Pumps(old(Now()).(heads := S.Taken(old(heads), probe.value.0, probe.value.1)), m) && Now() == S.Up(m, s)
    {
      hide Total, Count, Placed, LoadOk, S.Pumps, S.Taken;
      if s in servers.up {
        return;
      }
      if probe.Some? {
        Finish(probe.value.0, probe.value.1);
      }
      servers.CameUp(s);
    }

    /** request_reissue: pointless exactly when the rotation gives the same server again. */
    method Reissue(b: nat, i: nat) returns (ok: bool)
      requires Valid() && b < |heads| && i < |heads[b]|
      modifies this`heads, this`load, servers`ring
      ensures Valid() && SameServers() && |heads| == |old(heads)| && |heads[b]| == |old(heads)[b]|
      ensures var before, after := old(heads)[b][i], heads[b][i];
              && before.ns.Some?
              && (ok <==> after.ns != before.ns)
              && (before.ns.value !in servers.up && servers.up != {} ==> ok)
              && (if ok then after == before.(ns := after.ns, reissues := before.reissues + 1, txCount := 0)
                  else heads == old(heads))
      ensures forall q: Query :: !q.ByNs? ==> Total(heads, q) == old(Total(heads, q))
      ensures Now() == S.Reissued(old(Now()), b, i)
    {
      hide Total, LoadOk, NextPick, NextRing;
      ghost var before := heads[b][i];
      assert InPlace(before, b, |heads|, servers.ring);
      var last := heads[b][i].ns;
      var picked := PickServer();
      SwapNs(b, i, picked.value);
      if heads[b][i].ns == last {
        assert heads[b][i] == before && heads[b] == old(heads)[b];
        assert heads == old(heads);
        return false;
      }
      Restart(b, i);
      TwiceAt(old(heads), b, i, before.(ns := picked), before.(ns := picked, reissues := before.reissues + 1, txCount := 0));
      ok := true;
    }

    /** Counts one more reissue and starts the retransmissions over. */
    method Restart(b: nat, i: nat)
      requires Valid() && b < |heads| && i < |heads[b]|
      modifies this`heads
      ensures Valid()
      ensures heads == var r := old(heads)[b][i];
                       old(heads)[b := old(heads)[b][i := r.(reissues := r.reissues + 1, txCount := 0)]]
      ensures forall q :: Total(heads, q) == old(Total(heads, q))
    {
      hide Total;
      var r := heads[b][i];
      assert InPlace(r, b, |heads|, servers.ring);
      S.ReplaceTotal(heads, b, i, r.(reissues := r.reissues + 1, txCount := 0));
      heads := heads[b := heads[b][i := r.(reissues := r.reissues + 1, txCount := 0)]];
    }

    /** A request goes out on the wire (the end of evdns_request_transmit). */
    method Sent(b: nat, i: nat)
      requires Valid() && b < |heads| && i < |heads[b]|
      modifies this`heads
      ensures Valid()
      ensures heads == var r := old(heads)[b][i]; old(heads)[b := old(heads)[b][i := r.(txCount := r.txCount + 1)]]
      ensures forall q :: Total(heads, q) == old(Total(heads, q))
    {
      hide Total;
      var r := heads[b][i];
      assert InPlace(r, b, |heads|, servers.ring);
      S.ReplaceTotal(heads, b, i, r.(txCount := r.txCount + 1));
      heads := heads[b := heads[b][i := r.(txCount := r.txCount + 1)]];
    }

    /** evdns_request_timeout_callback: give up after `retransmits` attempts, else try another server.
        `serverOut` says whether that server has now timed out too often. */
    method Timeout(b: nat, i: nat, retransmits: nat, serverOut: bool)
      requires Valid() && b < |heads| && i < |heads[b]|
      modifies this`heads, this`waiting, this`inflight, this`waitingCount, this`load, servers
      ensures Valid() && (old(UniqueIds()) ==> UniqueIds())
      ensures var r := old(heads)[b][i];
              forall k :: Held(ByKey(k)) + (if r.txCount >= retransmits && r.key == k then 1 else 0) == old(Held(ByKey(k)))
      ensures old(heads)[b][i].txCount >= retransmits ==> servers.up == old(servers.up) - {old(heads)[b][i].ns.value}
      ensures S.Effect(S.Timeout(b, i, retransmits, serverOut), old(Now()), Now())
    {
      hide Total, LoadOk, Placed, S.Pumps, S.AfterFailure, S.Taken, S.Resent, NextPick, NextRing;
      var r := heads[b][i];
      InPlaceAt(heads, servers.ring, b, i);
      if r.txCount >= retransmits {
        GiveUp(b, i, r.ns.value);
      } else {
        Resend(b, i, serverOut);
      }
    }

    /** The request is finished and its server has failed. */
    method GiveUp(b: nat, i: nat, s: Ns)
      requires Valid() && b < |heads| && i < |heads[b]| && s in servers.ring
      modifies this`heads, this`waiting, this`inflight, this`waitingCount, this`load, servers
      ensures Valid() && (old(UniqueIds()) ==> UniqueIds()) && servers.up == old(servers.up) - {s}
      ensures forall k :: Held(ByKey(k)) + (if old(heads)[b][i].key == k then 1 else 0) == old(Held(ByKey(k)))
      ensures exists m :: S.Pumps(old(Now()).(heads := S.Taken(old(heads), b, i)), m) && Now() == S.AfterFailure(m, s)
    {
      hide Total, Count, LoadOk, Placed, S.Pumps, S.AfterFailure, S.Taken, S.Reassigned;
      Finish(b, i);
      ghost var m := Now();
      Failed(s);
      assert S.Pumps(old(Now()).(heads := S.Taken(old(heads), b, i)), m) && Now() == S.AfterFailure(m, s);
    }

    /** The request is sent once more, to the server whose turn it is. */
    method Resend(b: nat, i: nat, serverOut: bool)
      requires Valid() && b < |heads| && i < |heads[b]| && servers.ring != []
      modifies this`heads, this`load, servers
      ensures Valid()
      ensures forall q: Query :: !q.ByNs? ==> Total(heads, q) == old(Total(heads, q))
      ensures var p := NextPick(old(servers.ring), old(servers.up));
              if serverOut then p.Some? && Now() == S.AfterFailure(S.Resent(old(Now()), b, i), p.value) else Now() == S.Resent(old(Now()), b, i)
    {
      hide Total, LoadOk, Placed, NextPick, NextRing, S.AfterFailure, S.Reassigned;
      var picked := PickServer();
      ghost var r := heads[b][i];
      SwapNs(b, i, picked.value);
      Sent(b, i);
      TwiceAt(old(heads), b, i, r.(ns := picked), r.(ns := picked, txCount := r.txCount + 1));
      if serverOut {
        Failed(picked.value);
      }
    }

    /** evdns_base_nameserver_add */
    method AddServer(s: Ns) returns (ok: bool)
      requires Valid()
      modifies this`load, servers
      ensures Valid() && (ok <==> s !in old(servers.ring))
      ensures servers.up == if ok then old(servers.up) + {s} else old(servers.up)
      ensures forall t :: t in servers.ring <==> t in old(servers.ring) || t == s
      ensures Now() == S.Joined(old(Now()), s)
    {
      hide Total, Placed, LoadOk, NoRepeats;
      if s !in servers.ring {
        NothingAt(heads, servers.ring, s);
      }
      ok := servers.Add(s);
      if ok {
        MoreServers(heads, old(servers.ring), servers.ring, load, s);
        load := load[s := 0];
      }
    }

    /** evdns_base_set_max_requests_inflight */
    method SetMax(limit: int)
      requires Valid() && limit <= MAX_INFLIGHT
      modifies this`heads, this`max
      ensures Valid() && max == (if limit < 1 then 1 else limit)
      ensures forall q :: Total(heads, q) == old(Total(heads, q))
      ensures heads == S.Rehashed(old(heads), (max + 4) / 5)
    {
      hide Total, Placed, S.Rehashed;
      max := if limit < 1 then 1 else limit;
      heads := Rehash(heads, (max + 4) / 5, servers.ring);
    }
  }

  lemma {:induction false} OnlyRing(s: S.Snap)
    ensures S.AfterNew(s) == s.(ring := S.AfterNew(s).ring)
  {
    hide NextRing;
  }

  lemma {:induction false} IsSearch(s: S.Snap, b: nat, i: nat, key: nat, r: Request, m: S.Snap)
    requires S.At(s, b, i) && S.NewRequest(s, key, r) && S.Pumps(S.AfterNew(s).(heads := S.Taken(s.heads, b, i)), m) && m.heads != []
    ensures S.Searched(s, b, i, key, S.Submitted(m, r))
  {
    hide S.NewRequest, S.Pumps, S.AfterNew, S.Taken, S.Submitted;
  }

  lemma {:induction false} SearchIds(s: S.Snap, b: nat, i: nat, key: nat, t: S.Snap, inflight: int)
    requires S.Searched(s, b, i, key, t) && inflight == S.Inflight(s)
    ensures S.UniqueIds(s) && (s.waiting == [] || inflight >= s.max || s.ring == []) ==> S.UniqueIds(t)
  {
    hide S.Searched;
    if S.UniqueIds(s) && S.Pumped(s) {
      S.SearchKeepsIds(s, b, i, key, t);
    }
  }

  lemma {:induction false} AtRest(s: S.Snap)
    requires S.Pumped(s)
    ensures S.Pumps(s, s)
  {
  }

  lemma {:induction false} OneMore(s: S.Snap, m: S.Snap)
    requires S.PumpStep(s, m)
    ensures forall t :: S.Pumps(m, t) ==> S.Pumps(s, t)
  {
    hide Total;
    S.PumpStepIds(s, m);
  }

  lemma {:induction false} TwiceAt(heads: seq<seq<Request>>, b: nat, i: nat, r: Request, t: Request)
    requires b < |heads| && i < |heads[b]|
    ensures var mid := heads[b := heads[b][i := r]];
            mid[b][i] == r && mid[b := mid[b][i := t]] == heads[b := heads[b][i := t]]
  {
    var mid := heads[b := heads[b][i := r]];
    assert mid[b][i := t] == heads[b][i := t];
  }

  lemma {:induction false} InPlaceAt(heads: seq<seq<Request>>, ring: seq<Ns>, b: nat, i: nat)
    requires Placed(heads, ring) && b < |heads| && i < |heads[b]|
    ensures heads[b][i].ns.Some? && heads[b][i].ns.value in ring
  {
    assert InPlace(heads[b][i], b, |heads|, ring);
  }

  lemma {:induction false} MoreServers(heads: seq<seq<Request>>, ring: seq<Ns>, more: seq<Ns>, load: map<Ns, int>, s: Ns)
    requires Placed(heads, ring) && LoadOk(heads, ring, load) && Total(heads, ByNs(s)) == 0
    requires forall t :: t in more <==> t in ring || t == s
    ensures Placed(heads, more) && LoadOk(heads, more, load[s := 0])
  {
    hide Total;
  }

  lemma {:induction false} NothingAt(heads: seq<seq<Request>>, ring: seq<Ns>, s: Ns)
    requires Placed(heads, ring) && s !in ring
    ensures Total(heads, ByNs(s)) == 0
  {
    TotalIn(heads, ByNs(s));
    forall b | 0 <= b < |heads|
      ensures Count(heads[b], ByNs(s)) == 0
    {
      CountIn(heads[b], ByNs(s));
    }
  }

  lemma {:induction false} PlacedInsert(heads: seq<seq<Request>>, r: Request, ring: seq<Ns>)
    requires heads != [] && Placed(heads, ring) && r.transId < NO_ID && r.ns.Some? && r.ns.value in ring
    ensures var b := r.transId % |heads|; Placed(heads[b := heads[b] + [r]], ring)
  {
  }

  lemma {:induction false} PlacedRemove(heads: seq<seq<Request>>, b: nat, ring: seq<Ns>)
    requires Placed(heads, ring) && b < |heads| && heads[b] != []
    ensures InPlace(heads[b][0], b, |heads|, ring) && Placed(heads[b := heads[b][1..]], ring)
  {
  }

  lemma {:induction false} NoHeads(n: nat, ring: seq<Ns>)
    requires n > 0
    ensures var heads := seq(n, _ => []); Placed(heads, ring) && forall q :: Total(heads, q) == 0
  {
    var heads := seq(n, _ => []);
    forall q
      ensures Total(heads, q) == 0
    {
      TotalEmpty(heads, q);
    }
  }

  /** The first request of the first bucket that has one. */
  lemma {:induction false} FirstOf(heads: seq<seq<Request>>, b: nat)
    requires b < |heads| && heads[b] != [] && forall c :: 0 <= c < b ==> heads[c] == []
    ensures S.AllOf(heads) == [heads[b][0]] + S.AllOf(heads[b := heads[b][1..]])
  {
    if b == 0 {
      assert heads[0 := heads[0][1..]][1..] == heads[1..];
      assert heads[0] == [heads[0][0]] + heads[0][1..];
    } else {
      FirstOf(heads[1..], b - 1);
      assert heads[b := heads[b][1..]][1..] == heads[1..][b - 1 := heads[b][1..]];
    }
  }

  lemma {:induction false} NoneOf(heads: seq<seq<Request>>)
    requires forall c :: 0 <= c < |heads| ==> heads[c] == []
    ensures S.AllOf(heads) == []
  {
    if heads != [] {
      NoneOf(heads[1..]);
    }
  }

  /** The loop of evdns_base_set_max_requests_inflight: every request goes to its bucket among `n`. */
  method Rehash(heads: seq<seq<Request>>, n: nat, ghost ring: seq<Ns>) returns (buckets: seq<seq<Request>>)
    requires n > 0 && Placed(heads, ring)
    ensures |buckets| == n && Placed(buckets, ring) && forall q :: Total(buckets, q) == Total(heads, q)
    ensures buckets == S.Rehashed(heads, n)
  {
    hide Total, Placed, S.AllOf;
    buckets := seq(n, _ => []);
    NoHeads(n, ring);
    var rest, b := heads, 0;
    while b < |rest|
      invariant b <= |rest| && |buckets| == n && Placed(buckets, ring) && Placed(rest, ring)
      invariant forall c :: 0 <= c < b ==> rest[c] == []
      invariant forall q :: Total(buckets, q) + Total(rest, q) == Total(heads, q)
      invariant S.PutAll(buckets, S.AllOf(rest)) == S.Rehashed(heads, n)
      decreases |rest| - b, if b < |rest| then |rest[b]| else 0
    {
      if rest[b] == [] {
        b := b + 1;
      } else {
        var r := rest[b][0];
        PlacedRemove(rest, b, ring);
        S.TakenTotal(rest, b, 0);
        assert rest[b][..0] + rest[b][0 + 1..] == rest[b][1..];
        FirstOf(rest, b);
        rest := rest[b := rest[b][1..]];
        PlacedInsert(buckets, r, ring);
        S.PutTotal(buckets, r);
        buckets := buckets[r.transId % n := buckets[r.transId % n] + [r]];
      }
    }
    NoneOf(rest);
    forall q
      ensures Total(rest, q) == 0
    {
      TotalEmpty(rest, q);
    }
  }

  /** One step of a run. */
  method Perform(base: Base, op: S.Op)
    requires base.Valid() && S.Possible(base.Now(), op)
    modifies base, base.servers
    ensures base.Valid() && S.Effect(op, old(base.Now()), base.Now())
    ensures forall k :: base.Held(ByKey(k)) + S.Ends(op, old(base.Now()), k) == old(base.Held(ByKey(k))) + S.Asks(op, k)
    ensures old(base.UniqueIds()) && (op.Search? ==> S.Pumped(old(base.Now()))) ==> base.UniqueIds()
  {
    hide Total, Count, Placed, LoadOk, Base.Held, S.Pumps, S.Taken, S.AfterFailure, S.Resent, S.Searched, NextPick, NextRing;
    match op
    case Resolve(key) => base.Resolve(key);
    case Finish(b, i) => base.Finish(b, i);
    case CancelWaiting(i) => base.FinishWaiting(i);
    case Search(b, i, key) => base.SearchNext(b, i, key);
    case Probe(s, key) => base.Probe(s, key);
    case Timeout(b, i, retransmits, serverOut) => base.Timeout(b, i, retransmits, serverOut);
    case ServerUp(s, b, i, probed) => ServerBack(base, s, b, i, probed);
    case Resume => base.Pump();
    case _ => Adjust(base, op);
  }

  method ServerBack(base: Base, s: Ns, b: nat, i: nat, probed: bool)
    requires base.Valid() && S.Possible(base.Now(), S.ServerUp(s, b, i, probed))
    modifies base, base.servers
    ensures base.Valid() && S.Effect(S.ServerUp(s, b, i, probed), old(base.Now()), base.Now())
    ensures forall k :: base.Held(ByKey(k)) + S.Ends(S.ServerUp(s, b, i, probed), old(base.Now()), k) == old(base.Held(ByKey(k)))
    ensures old(base.UniqueIds()) ==> base.UniqueIds()
  {
    hide Total, Count, Placed, LoadOk, S.Pumps, S.Taken;
    base.CameUp(s, if probed then Some((b, i)) else None);
  }

  /** The steps that move no request in or out. */
  method Adjust(base: Base, op: S.Op)
    requires base.Valid() && S.Possible(base.Now(), op)
    requires op.Transmit? || op.Reissue? || op.ServerFailed? || op.AddServer? || op.SetMax?
    modifies base, base.servers
    ensures base.Valid() && S.Effect(op, old(base.Now()), base.Now())
    ensures forall k :: base.Held(ByKey(k)) == old(base.Held(ByKey(k)))
    ensures old(base.UniqueIds()) ==> base.UniqueIds()
  {
    hide Total, Count, Placed, LoadOk, S.AfterFailure, S.Reassigned, S.Reissued, S.Joined, S.Rehashed, NextPick, NextRing, NoRepeats;
    match op
    case Transmit(b, i) => base.Sent(b, i);
    case Reissue(b, i) => var _ := base.Reissue(b, i);
    case ServerFailed(s) => base.Failed(s);
    case AddServer(s) => var _ := base.AddServer(s);
    case SetMax(limit) => base.SetMax(limit);
  }

  method CanPerform(base: Base, op: S.Op) returns (ok: bool)
    requires base.Valid()
    ensures ok == S.Possible(base.Now(), op)
  {
    hide Total, Placed, LoadOk;
    match op
    case Finish(b, i) => ok := b < |base.heads| && i < |base.heads[b]|;
    case CancelWaiting(i) => ok := i < |base.waiting|;
    case Search(b, i, _) => ok := b < |base.heads| && i < |base.heads[b]|;
    case Probe(s, _) => ok := s in base.servers.ring && base.inflight < NO_ID;
    case Transmit(b, i) => ok := b < |base.heads| && i < |base.heads[b]|;
    case Reissue(b, i) => ok := b < |base.heads| && i < |base.heads[b]|;
    case Timeout(b, i, _, _) => ok := b < |base.heads| && i < |base.heads[b]|;
    case ServerFailed(s) => ok := s in base.servers.ring;
    case ServerUp(s, b, i, probed) => ok := s in base.servers.ring && (probed ==> b < |base.heads| && i < |base.heads[b]|);
    case SetMax(limit) => ok := limit <= MAX_INFLIGHT;
    case _ => ok := true;
  }

  /** Every run from a new base is a run of the specification, up to its first impossible step. On the
      way the counters match the lists and every request in flight has a server and an id and sits in
      its bucket. The requests held are exactly those asked for and not ended, and ids are unique
      as long as searches went on only in pumped states. */
  method Run(ops: seq<S.Op>) returns (base: Base, done: nat, ghost states: seq<S.Snap>)
    ensures base.Valid() && done <= |ops| && (done < |ops| ==> !S.Possible(base.Now(), ops[done]))
    ensures S.Explains(ops[..done], states) && states[0] == S.Snap(seq(13, _ => []), [], 64, [], {}) && states[done] == base.Now()
    ensures forall k :: base.Held(ByKey(k)) + S.Ended(ops[..done], states, k) == S.Asked(ops[..done], k)
    ensures (forall i :: 0 <= i < done && ops[i].Search? ==> S.Pumped(states[i])) ==> base.UniqueIds()
  {
    hide Total, Count, Placed, LoadOk, S.Effect, S.Possible, S.Ends, S.Asks, S.Pumped, Base.Held;
    base := new Base();
    Start(base);
    done, states := 0, [base.Now()];
    while done < |ops|
      invariant done <= |ops| && base.Valid() && fresh(base) && fresh(base.servers)
      invariant S.Explains(ops[..done], states) && states[0] == S.Snap(seq(13, _ => []), [], 64, [], {}) && states[done] == base.Now()
      invariant forall k :: base.Held(ByKey(k)) + S.Ended(ops[..done], states, k) == S.Asked(ops[..done], k)
      invariant (forall i :: 0 <= i < done && ops[i].Search? ==> S.Pumped(states[i])) ==> base.UniqueIds()
    {
      var ok := CanPerform(base, ops[done]);
      if !ok {
        return;
      }
      Perform(base, ops[done]);
      OneMoreStep(ops, states, done, base.Now());
      states := states + [base.Now()];
      done := done + 1;
    }
  }

  lemma {:induction false} OneMoreStep(ops: seq<S.Op>, states: seq<S.Snap>, done: nat, t: S.Snap)
    requires done < |ops| && S.Explains(ops[..done], states) && states[done].heads != []
    requires S.Possible(states[done], ops[done]) && S.Effect(ops[done], states[done], t)
    ensures S.Explains(ops[..done + 1], states + [t])
    ensures forall k :: S.Asked(ops[..done + 1], k) == S.Asked(ops[..done], k) + S.Asks(ops[done], k)
    ensures forall k :: S.Ended(ops[..done + 1], states + [t], k) == S.Ended(ops[..done], states, k) + S.Ends(ops[done], states[done], k)
  {
    hide S.Effect, S.Possible, S.Ends, S.Asks;
    assert ops[..done + 1][..done] == ops[..done];
    forall k
      ensures S.Ended(ops[..done + 1], states + [t], k) == S.Ended(ops[..done], states, k) + S.Ends(ops[done], states[done], k)
    {
      EndedPrefix(ops[..done], (states + [t])[..done], states, k);
    }
    forall i | 0 <= i < done + 1
      ensures S.Effect(ops[..done + 1][i], (states + [t])[i], (states + [t])[i + 1])
    {
      if i < done {
        assert S.Effect(ops[..done][i], states[i], states[i + 1]);
      }
    }
  }

  lemma {:induction false} EndedPrefix(ops: seq<S.Op>, a: seq<S.Snap>, b: seq<S.Snap>, k: nat)
    requires |ops| <= |a| && |ops| <= |b| && a[..|ops|] == b[..|ops|]
    ensures S.Ended(ops, a, k) == S.Ended(ops, b, k)
    decreases |ops|
  {
    if ops != [] {
      var m := |ops| - 1;
      assert a[m] == a[..|ops|][m] == b[..|ops|][m];
      assert a[..m] == a[..|ops|][..m] && b[..m] == b[..|ops|][..m];
    }
  }

  /** Raising the limit while a request waits: the queue is not pumped, and a search that moves on then may
      clash, by ResolverSpec.SearchMayClash. */
  method RaisedLimit() returns (base: Base, ghost b: nat, ghost i: nat)
    ensures base.Valid() && base.UniqueIds() && S.SnapOk(base.Now()) && !S.Pumped(base.Now()) && S.At(base.Now(), b, i)
  {
    hide Total, Count, Placed, LoadOk, S.Effect;
    base := new Base();
    var _ := base.AddServer(0);
    assert 0 in base.servers.ring;
    base.SetMax(1);
    base.Resolve(1);
    base.Resolve(2);
    base.SetMax(2);
    b, i := SomeInFlight(base.heads);
  }

  lemma {:induction false} SomeInFlight(heads: seq<seq<Request>>) returns (b: nat, i: nat)
    requires Total(heads, Any) > 0
    ensures b < |heads| && i < |heads[b]|
  {
    TotalIn(heads, Any);
    b :| b < |heads| && Count(heads[b], Any) > 0;
    CountAny(heads[b]);
    i := 0;
  }

  lemma {:induction false} Start(base: Base)
    requires base.Valid() && base.inflight == 0 && base.waiting == []
    ensures forall k :: base.Held(ByKey(k)) == 0
  {
    forall k
      ensures base.Held(ByKey(k)) == 0
    {
      TotalAny(base.heads, ByKey(k));
    }
  }

  lemma {:induction false} TotalAny(heads: seq<seq<Request>>, q: Query)
    ensures Total(heads, q) <= Total(heads, Any)
  {
    if heads != [] {
      CountAll(heads[0], q);
      TotalAny(heads[1..], q);
    }
  }

  lemma {:induction false} CountAll(l: seq<Request>, q: Query)
    ensures Count(l, q) <= Count(l, Any)
  {
    if l != [] {
      CountAll(l[1..], q);
    }
  }
}
