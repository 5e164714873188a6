/** evdns.c: the circular list of nameservers, which of them are up, and the rotation that picks
    one for the next request. */
module Nameservers {
  import opened Basics

  type Ns = nat

  ghost predicate NoRepeats(ring: seq<Ns>) {
    forall i, j :: 0 <= i < j < |ring| ==> ring[i] != ring[j]
  }

  /** The servers of the ring, from the head on, that are up. */
  function Alive(ring: seq<Ns>, up: set<Ns>): seq<Ns> {
    if ring == [] then []
    else (if ring[0] in up then [ring[0]] else []) + Alive(ring[1..], up)
  }

  /** The ring with its head moved on by `k` servers. */
  function Turn(ring: seq<Ns>, k: nat): (turned: seq<Ns>)
    requires k <= |ring|
    ensures |turned| == |ring|
  {
    ring[k..] + ring[..k]
  }

  /** The place of the first server that is up, or the length of the ring. */
  function FirstAlive(ring: seq<Ns>, up: set<Ns>): (k: nat)
    ensures k <= |ring| && (k < |ring| ==> ring[k] in up) && forall i :: 0 <= i < k ==> ring[i] !in up
  {
    if ring == [] then 0
    else if ring[0] in up then 0
    else
      assert forall i :: 1 <= i < |ring| ==> ring[i] == ring[1..][i - 1];
      1 + FirstAlive(ring[1..], up)
  }

  /** The server whose turn it is, and the ring afterwards. */
  function NextPick(ring: seq<Ns>, up: set<Ns>): Option<Ns> {
    var k := FirstAlive(ring, up);
    if ring == [] then None else if k == |ring| then Some(Turn(ring, 1)[0]) else Some(ring[k])
  }

  function NextRing(ring: seq<Ns>, up: set<Ns>): seq<Ns> {
    var k := FirstAlive(ring, up);
    if ring == [] then [] else if k == |ring| then Turn(ring, 1) else Turn(ring, k + 1)
  }

  lemma {:induction false} FirstAliveIs(ring: seq<Ns>, up: set<Ns>, k: nat)
    requires k < |ring| && ring[k] in up && forall i :: 0 <= i < k ==> ring[i] !in up
    ensures FirstAlive(ring, up) == k
  {
  }

  lemma {:induction false} Assoc(a: seq<Ns>, b: seq<Ns>, c: seq<Ns>)
    ensures a + (b + c) == (a + b) + c
  {
  }

  lemma {:induction false} AliveAppend(a: seq<Ns>, b: seq<Ns>, up: set<Ns>)
    ensures Alive(a + b, up) == Alive(a, up) + Alive(b, up)
  {
    if a == [] {
      assert a + b == b;
    } else {
      assert (a + b)[1..] == a[1..] + b;
      AliveAppend(a[1..], b, up);
      Assoc(if a[0] in up then [a[0]] else [], Alive(a[1..], up), Alive(b, up));
    }
  }

  lemma {:induction false} NoneAlive(a: seq<Ns>, up: set<Ns>)
    requires forall i :: 0 <= i < |a| ==> a[i] !in up
    ensures Alive(a, up) == []
  {
    if a != [] {
      NoneAlive(a[1..], up);
    }
  }

  lemma {:induction false} AliveMembers(ring: seq<Ns>, up: set<Ns>)
    requires NoRepeats(ring)
    ensures NoRepeats(Alive(ring, up))
    ensures forall s :: s in Alive(ring, up) <==> s in ring && s in up
  {
    if ring != [] {
      AliveMembers(ring[1..], up);
    }
  }

  /** Picking the first server that is up, at `k`, moves it to the end of the servers that are up. */
  lemma {:induction false} PickRotates(ring: seq<Ns>, up: set<Ns>, k: nat)
    requires k < |ring| && ring[k] in up && forall i :: 0 <= i < k ==> ring[i] !in up
    ensures Alive(ring, up) != [] && Alive(ring, up)[0] == ring[k]
    ensures Alive(Turn(ring, k + 1), up) == Alive(ring, up)[1..] + [ring[k]]
  {
    var front, back := ring[..k], ring[k + 1..];
    NoneAlive(front, up);
    assert ring == front + ([ring[k]] + back);
    AliveAppend(front, [ring[k]] + back, up);
    AliveAppend([ring[k]], back, up);
    assert ring[..k + 1] == front + [ring[k]];
    AliveAppend(back, ring[..k + 1], up);
    AliveAppend(front, [ring[k]], up);
  }

  lemma {:induction false} TurnKeeps(ring: seq<Ns>, k: nat)
    requires NoRepeats(ring) && k <= |ring|
    ensures NoRepeats(Turn(ring, k)) && forall s :: s in Turn(ring, k) <==> s in ring
  {
    assert ring == ring[..k] + ring[k..];
  }

  lemma {:induction false} TurnOne(ring: seq<Ns>, k: nat)
    requires k < |ring|
    ensures Turn(Turn(ring, k), 1) == Turn(ring, k + 1) && Turn(ring, k)[0] == ring[k]
    ensures k + 1 < |ring| ==> Turn(ring, k + 1)[0] == ring[k + 1]
    ensures Turn(ring, 0) == ring
  {
  }

  lemma {:induction false} NotStart(ring: seq<Ns>, k: nat)
    requires NoRepeats(ring) && 0 < k < |ring|
    ensures ring[k] != ring[0] && Turn(ring, k)[0] == ring[k]
  {
  }

  lemma {:induction false} BehindHead(ring: seq<Ns>, s: Ns)
    requires NoRepeats(ring) && s !in ring
    ensures var r := if ring == [] then [s] else [ring[0], s] + ring[1..];
            NoRepeats(r) && forall t :: t in r <==> t in ring || t == s
  {
    if ring != [] {
      var r := [ring[0], s] + ring[1..];
      assert forall i :: 2 <= i < |r| ==> r[i] == ring[i - 1];
      assert forall i :: 1 <= i < |ring| ==> ring[i] == r[i + 1];
    }
  }

  /** The part of `struct evdns_base` about nameservers. */
  class Servers {
    /** The circular list, read from server_head. */
    var ring: seq<Ns>
    /** The servers with state 1. */
    var up: set<Ns>
    /** global_good_nameservers */
    var good: int

    ghost predicate Valid()
      reads this
    {
      NoRepeats(ring) && (forall s :: s in up ==> s in ring) && good == |up|
    }

    constructor ()
      ensures Valid() && ring == [] && up == {}
    {
      ring, up, good := [], {}, 0;
    }

    /** The list part of evdns_nameserver_add_impl_: a new server goes behind the head. */
    method Add(s: Ns) returns (ok: bool)
      requires Valid()
      modifies this
      ensures Valid() && (ok <==> s !in old(ring))
      ensures !ok ==> ring == old(ring) && up == old(up)
      ensures ok ==> up == old(up) + {s} && (forall t :: t in ring <==> t in old(ring) || t == s)
      ensures ok ==> ring == if old(ring) == [] then [s] else [old(ring)[0], s] + old(ring)[1..]
    {
      if s in ring {
        return false;
      }
      BehindHead(ring, s);
      ring := if ring == [] then [s] else [ring[0], s] + ring[1..];
      up, good := up + {s}, good + 1;
      ok := true;
    }

    /** The start of nameserver_failed */
    method Failed(s: Ns)
      requires Valid()
      modifies this`up, this`good
      ensures Valid() && up == old(up) - {s}
    {
      if s !in up {
        return;
      }
      good := good - 1;
      up := up - {s};
    }

    /** The end of nameserver_up */
    method CameUp(s: Ns)
      requires Valid() && s in ring
      modifies this`up, this`good
      ensures Valid() && up == old(up) + {s}
    {
      if s in up {
        return;
      }
      up, good := up + {s}, good + 1;
    }

    /** nameserver_pick. While a server is up the search stops before it is back at its start, and it
        picks the server that is up longest without a turn. With none up, each server has its turn. */
    method Pick() returns (picked: Option<Ns>)
      requires Valid()
      modifies this`ring
      ensures Valid() && |ring| == |old(ring)| && forall s :: s in ring <==> s in old(ring)
      ensures picked.None? <==> ring == []
      ensures picked.Some? ==> picked.value in ring && (picked.value in up <==> up != {})
      ensures up == {} && picked.Some? ==> ring == Turn(old(ring), 1) && ring[0] == picked.value
      ensures up != {} ==> picked.Some? && Rotated(old(ring), ring, up, picked.value)
      ensures picked == NextPick(old(ring), up) && ring == NextRing(old(ring), up)
    {
      hide Alive, FirstAlive;
      if ring == [] {
        return None;
      }
      if good == 0 {
        TurnKeeps(ring, 1);
        ring := Turn(ring, 1);
        return Some(ring[0]);
      }
      var s := PickUp();
      picked := Some(s);
    }

    /** The loop of nameserver_pick */
    method PickUp() returns (picked: Ns)
      requires Valid() && up != {}
      modifies this`ring
      ensures Valid() && |ring| == |old(ring)| && forall s :: s in ring <==> s in old(ring)
      ensures picked in ring && picked in up
      ensures Rotated(old(ring), ring, up, picked)
      ensures Some(picked) == NextPick(old(ring), up) && ring == NextRing(old(ring), up)
    {
      hide Alive, NoRepeats, Turn, FirstAlive;
      ghost var startedAt, k := ring, 0;
      FirstUp(ring, up, 0);
      TurnOne(ring, 0);
      while ring[0] !in up
        invariant k < |startedAt| && ring == Turn(startedAt, k) && ring[0] == startedAt[k]
        invariant forall i :: 0 <= i < k ==> startedAt[i] !in up
        modifies this`ring
        decreases |startedAt| - k
      {
        TurnOne(startedAt, k);
        FirstUp(startedAt, up, k + 1);
        ring := Turn(ring, 1);
        k := k + 1;
        // the wrap-around assertion is never reached
        assert ring[0] != startedAt[0] by {
          NotStart(startedAt, k);
        }
      }
      picked := ring[0];
      TurnOne(startedAt, k);
      PickRotates(startedAt, up, k);
      FirstAliveIs(startedAt, up, k);
      TurnKeeps(startedAt, k + 1);
      ring := Turn(ring, 1);
    }
  }

  /** If the first `k` servers are down, another one follows. */
  lemma {:induction false} FirstUp(ring: seq<Ns>, up: set<Ns>, k: nat)
    requires up != {} && (forall s :: s in up ==> s in ring) && k <= |ring|
    requires forall i :: 0 <= i < k ==> ring[i] !in up
    ensures k < |ring|
  {
    var s :| s in up;
    assert s in ring;
  }

  /** The server picked was first among those that are up, and is last now. */
  ghost predicate Rotated(before: seq<Ns>, after: seq<Ns>, up: set<Ns>, picked: Ns) {
    && Alive(before, up) != [] && Alive(before, up)[0] == picked
    && Alive(after, up) == Alive(before, up)[1..] + [picked]
  }

  /** `n` picks in a row, and the ring after them. */
  function Picks(ring: seq<Ns>, up: set<Ns>, n: nat): (picks: seq<Option<Ns>>)
    ensures |picks| == n
  {
    if n == 0 then [] else Picks(ring, up, n - 1) + [NextPick(RingAfter(ring, up, n - 1), up)]
  }

  function RingAfter(ring: seq<Ns>, up: set<Ns>, n: nat): seq<Ns> {
    if n == 0 then ring else NextRing(RingAfter(ring, up, n - 1), up)
  }

  /** Each server of `chosen` is picked exactly once, and nobody else is. */
  ghost predicate EachOnce(picks: seq<Option<Ns>>, chosen: set<Ns>) {
    && (forall i :: 0 <= i < |picks| ==> picks[i].Some? && picks[i].value in chosen)
    && (forall i, j :: 0 <= i < j < |picks| ==> picks[i] != picks[j])
    && (forall s :: s in chosen ==> Some(s) in picks)
  }

  lemma {:induction false} PickNext(ring: seq<Ns>, up: set<Ns>)
    requires Alive(ring, up) != []
    ensures var alive := Alive(ring, up);
            NextPick(ring, up) == Some(alive[0]) && Alive(NextRing(ring, up), up) == alive[1..] + [alive[0]]
  {
    hide Alive;
    var k := FirstAlive(ring, up);
    if k == |ring| {
      NoneAlive(ring, up);
      assert false;
    }
    PickRotates(ring, up, k);
  }

  /** The first picks are the servers that are up, in the order of the ring. */
  lemma {:induction false} PicksInOrder(ring: seq<Ns>, up: set<Ns>, n: nat)
    requires n <= |Alive(ring, up)|
    ensures var alive := Alive(ring, up);
            && (forall i :: 0 <= i < n ==> Picks(ring, up, n)[i] == Some(alive[i]))
            && Alive(RingAfter(ring, up, n), up) == alive[n..] + alive[..n]
  {
    hide Alive, NextPick, NextRing;
    if n > 0 {
      PicksInOrder(ring, up, n - 1);
      var alive := Alive(ring, up);
      PickNext(RingAfter(ring, up, n - 1), up);
      assert (alive[n - 1..] + alive[..n - 1])[1..] + [alive[n - 1]] == alive[n..] + alive[..n];
    }
  }

  /** With none up the first picks are the servers after the head, and the ring turns. */
  lemma {:induction false} PicksInTurn(ring: seq<Ns>, up: set<Ns>, n: nat)
    requires n <= |ring| && forall s :: s in ring ==> s !in up
    ensures RingAfter(ring, up, n) == Turn(ring, n)
    ensures forall i :: 0 <= i < n ==> Picks(ring, up, n)[i] == Some(if i + 1 < |ring| then ring[i + 1] else ring[0])
  {
    hide FirstAlive;
    if n > 0 {
      PicksInTurn(ring, up, n - 1);
      var r := Turn(ring, n - 1);
      assert forall s :: s in r ==> s in ring;
      assert FirstAlive(r, up) == |r|;
      TurnOne(ring, n - 1);
    }
  }

  /** Fairness: from any ring, as many picks in a row as there are servers that are up pick each of
      them exactly once and leave their order as it was; with none up, as many picks as there are
      servers pick each server exactly once and leave the ring as it was. */
  lemma {:induction false} FairRound(ring: seq<Ns>, up: set<Ns>)
    requires NoRepeats(ring) && forall s :: s in up ==> s in ring
    ensures EachOnce(Picks(ring, up, |up|), up) && Alive(RingAfter(ring, up, |up|), up) == Alive(ring, up)
    ensures up == {} ==> EachOnce(Picks(ring, up, |ring|), set s | s in ring) && RingAfter(ring, up, |ring|) == ring
  {
    hide Alive, Picks, RingAfter;
    var alive := Alive(ring, up);
    AliveMembers(ring, up);
    AliveCount(alive, up);
    PicksInOrder(ring, up, |up|);
    assert alive[|up|..] + alive[..|up|] == alive;
    InOrder(Picks(ring, up, |up|), alive, up);
    if up == {} {
      PicksInTurn(ring, up, |ring|);
      InOrder(Picks(ring, up, |ring|), if ring == [] then [] else ring[1..] + [ring[0]], set s | s in ring);
    }
  }

  lemma {:induction false} InOrder(picks: seq<Option<Ns>>, order: seq<Ns>, chosen: set<Ns>)
    requires |picks| == |order| && forall i :: 0 <= i < |order| ==> picks[i] == Some(order[i])
    requires NoRepeats(order) && forall s :: s in order <==> s in chosen
    ensures EachOnce(picks, chosen)
  {
    forall s | s in chosen
      ensures Some(s) in picks
    {
      var i :| 0 <= i < |order| && order[i] == s;
      assert picks[i] == Some(s);
    }
  }

  /** nameserver_pick again and again, while the same servers are up. */
  method PickRound(servers: Servers, n: nat) returns (picks: seq<Option<Ns>>)
    requires servers.Valid()
    modifies servers`ring
    ensures servers.Valid() && picks == Picks(old(servers.ring), servers.up, n)
    ensures servers.ring == RingAfter(old(servers.ring), servers.up, n)
    ensures n == |servers.up| ==> EachOnce(picks, servers.up)
    ensures n == |old(servers.ring)| && servers.up == {} ==> EachOnce(picks, set s | s in old(servers.ring))
  {
    hide EachOnce, NextPick, NextRing, NoRepeats;
    picks := [];
    while |picks| < n
      invariant servers.Valid() && |picks| <= n && picks == Picks(old(servers.ring), servers.up, |picks|)
      invariant servers.ring == RingAfter(old(servers.ring), servers.up, |picks|)
      modifies servers`ring
    {
      var picked := servers.Pick();
      picks := picks + [picked];
    }
    FairRound(old(servers.ring), servers.up);
  }

  lemma {:induction false} AliveCount(alive: seq<Ns>, up: set<Ns>)
    requires NoRepeats(alive) && forall s :: s in alive <==> s in up
    ensures |alive| == |up|
  {
    if alive == [] {
      assert up == {};
    } else {
      AliveCount(alive[1..], up - {alive[0]});
    }
  }
}
