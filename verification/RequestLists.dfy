/** evdns.c: the hash buckets of requests in flight, as lists that are counted by any question one
    may ask of a request. */
module RequestLists {
  import opened Basics
  import opened Nameservers

  /** The id of a request that has none yet. */
  const NO_ID := 0xffff

  /** The largest limit the "max-inflight:" option accepts. */
  const MAX_INFLIGHT := 65000

  /** `struct request`; `key` is its identity. */
  datatype Request = Request(key: nat, transId: nat, ns: Option<Ns>, txCount: nat, reissues: nat)

  /** A question about one request. */
  datatype Query = Any | ByNs(ns: Ns) | ByKey(key: nat) | ById(id: nat)

  function Hit(r: Request, q: Query): nat {
    match q
    case Any => 1
    case ByNs(s) => if r.ns == Some(s) then 1 else 0
    case ByKey(k) => if r.key == k then 1 else 0
    case ById(id) => if r.transId == id then 1 else 0
  }

  /** How many requests of a list the question is true of. */
  function Count(l: seq<Request>, q: Query): nat {
    if l == [] then 0 else Hit(l[0], q) + Count(l[1..], q)
  }

  function Total(heads: seq<seq<Request>>, q: Query): nat {
    if heads == [] then 0 else Count(heads[0], q) + Total(heads[1..], q)
  }

  lemma {:induction false} CountAppend(a: seq<Request>, b: seq<Request>, q: Query)
    ensures Count(a + b, q) == Count(a, q) + Count(b, q)
  {
    if a == [] {
      assert a + b == b;
    } else {
      assert (a + b)[1..] == a[1..] + b;
      CountAppend(a[1..], b, q);
    }
  }

  lemma {:induction false} CountOne(r: Request, q: Query)
    ensures Count([r], q) == Hit(r, q)
  {
    assert [r][1..] == [];
  }

  lemma {:induction false} CountAny(l: seq<Request>)
    ensures Count(l, Any) == |l|
  {
    if l != [] {
      CountAny(l[1..]);
    }
  }

  /** Taking a request out of a list, or putting another one in its place. */
  lemma {:induction false} CountAt(l: seq<Request>, i: nat, q: Query)
    requires i < |l|
    ensures Count(l, q) == Count(l[..i] + l[i + 1..], q) + Hit(l[i], q)
    ensures forall r :: Count(l[i := r], q) == Count(l[..i] + l[i + 1..], q) + Hit(r, q)
  {
    forall r
      ensures Count(l[i := r], q) == Count(l[..i] + l[i + 1..], q) + Hit(r, q)
    {
      assert l[i := r] == l[..i] + ([r] + l[i + 1..]);
      CountAppend(l[..i], [r] + l[i + 1..], q);
      CountAppend([r], l[i + 1..], q);
      CountOne(r, q);
      CountAppend(l[..i], l[i + 1..], q);
    }
    assert l[i := l[i]] == l;
  }

  lemma {:induction false} CountIn(l: seq<Request>, q: Query)
    ensures Count(l, q) > 0 <==> exists i :: 0 <= i < |l| && Hit(l[i], q) == 1
  {
    if l != [] {
      CountIn(l[1..], q);
      if Count(l[1..], q) > 0 {
        var i :| 0 <= i < |l[1..]| && Hit(l[1..][i], q) == 1;
        assert l[i + 1] == l[1..][i];
      }
      if i :| 0 <= i < |l| && Hit(l[i], q) == 1 && i > 0 {
        assert l[1..][i - 1] == l[i];
      }
    }
  }

  /** Replacing one bucket. */
  lemma {:induction false} TotalUpdate(heads: seq<seq<Request>>, b: nat, l: seq<Request>, q: Query)
    requires b < |heads|
    ensures Total(heads[b := l], q) + Count(heads[b], q) == Total(heads, q) + Count(l, q)
  {
    if b == 0 {
      assert heads[b := l][1..] == heads[1..];
    } else {
      assert heads[b := l][1..] == heads[1..][b - 1 := l];
      TotalUpdate(heads[1..], b - 1, l, q);
    }
  }

  lemma {:induction false} TotalEmpty(heads: seq<seq<Request>>, q: Query)
    requires forall b :: 0 <= b < |heads| ==> heads[b] == []
    ensures Total(heads, q) == 0
  {
    if heads != [] {
      TotalEmpty(heads[1..], q);
    }
  }

  lemma {:induction false} TotalIn(heads: seq<seq<Request>>, q: Query)
    ensures Total(heads, q) > 0 <==> exists b :: 0 <= b < |heads| && Count(heads[b], q) > 0
  {
    if heads != [] {
      TotalIn(heads[1..], q);
      if Total(heads[1..], q) > 0 {
        var b :| 0 <= b < |heads[1..]| && Count(heads[1..][b], q) > 0;
        assert heads[b + 1] == heads[1..][b];
      }
      if b :| 0 <= b < |heads| && Count(heads[b], q) > 0 && b > 0 {
        assert heads[1..][b - 1] == heads[b];
      }
    }
  }

  /** Every request in flight has a nameserver and an id, and sits in its id's bucket. */
  ghost predicate Placed(heads: seq<seq<Request>>, ring: seq<Ns>) {
    forall b, i :: 0 <= b < |heads| && 0 <= i < |heads[b]| ==> InPlace(heads[b][i], b, |heads|, ring)
  }

  predicate InPlace(r: Request, b: nat, n: nat, ring: seq<Ns>)
    requires n > 0
  {
    r.transId < NO_ID && r.transId % n == b && r.ns.Some? && r.ns.value in ring
  }

  /** Nobody in the id's bucket has the id. */
  predicate Unused(heads: seq<seq<Request>>, id: nat)
    requires heads != []
  {
    forall i :: 0 <= i < |heads[id % |heads|]| ==> heads[id % |heads|][i].transId != id
  }

  /** Looking in one bucket is enough. */
  lemma {:induction false} OneBucket(heads: seq<seq<Request>>, ring: seq<Ns>, id: nat)
    requires heads != [] && Placed(heads, ring)
    ensures Unused(heads, id) <==> Total(heads, ById(id)) == 0
  {
    var q := ById(id);
    TotalIn(heads, q);
    forall b | 0 <= b < |heads|
      ensures Count(heads[b], q) > 0 ==> b == id % |heads| && !Unused(heads, id)
    {
      CountIn(heads[b], q);
    }
    CountIn(heads[id % |heads|], q);
  }

  /** request_find_from_trans_id */
  method Find(heads: seq<seq<Request>>, ghost ring: seq<Ns>, id: nat) returns (found: Option<nat>)
    requires heads != [] && Placed(heads, ring)
    ensures found.Some? <==> Total(heads, ById(id)) > 0
    ensures found.Some? ==> found.value < |heads[id % |heads|]| && heads[id % |heads|][found.value].transId == id
    ensures found.Some? ==> forall i :: 0 <= i < found.value ==> heads[id % |heads|][i].transId != id
  {
    hide Placed, Total;
    OneBucket(heads, ring, id);
    var l := heads[id % |heads|];
    var i := 0;
    while i < |l|
      invariant i <= |l| && forall j :: 0 <= j < i ==> l[j].transId != id
    {
      if l[i].transId == id {
        return Some(i);
      }
      i := i + 1;
    }
    found := None;
  }

  function Ids(l: seq<Request>): (ids: set<nat>)
    ensures |ids| <= |l|
    ensures forall i :: 0 <= i < |l| ==> l[i].transId in ids
  {
    if l == [] then {}
    else
      assert forall i :: 1 <= i < |l| ==> l[i] == l[1..][i - 1];
      {l[0].transId} + Ids(l[1..])
  }

  function UpTo(n: nat): (ids: set<nat>)
    ensures |ids| == n && forall id :: id in ids <==> 0 <= id < n
  {
    if n == 0 then {} else UpTo(n - 1) + {n - 1}
  }

  function AllIds(heads: seq<seq<Request>>): (ids: set<nat>)
    ensures |ids| <= Total(heads, Any)
    ensures forall b, i :: 0 <= b < |heads| && 0 <= i < |heads[b]| ==> heads[b][i].transId in ids
  {
    if heads == [] then {}
    else
      CountAny(heads[0]);
      assert forall b :: 1 <= b < |heads| ==> heads[b] == heads[1..][b - 1];
      Ids(heads[0]) + AllIds(heads[1..])
  }

  lemma {:induction false} SubsetSize(a: set<nat>, b: set<nat>)
    requires a <= b
    ensures |a| <= |b|
  {
    assert b == a + (b - a);
  }

  /** As long as fewer requests are in flight than there are ids, the search for an unused id can end. */
  lemma {:induction false} SomeIdUnused(heads: seq<seq<Request>>)
    requires heads != [] && Total(heads, Any) < NO_ID
    ensures exists id: nat :: id < NO_ID && Unused(heads, id)
  {
    var used, all := AllIds(heads), UpTo(NO_ID);
    if all <= used {
      SubsetSize(all, used);
      assert false;
    }
    var id :| id in all && id !in used;
    assert Unused(heads, id);
  }
}
