/** event.c: lists of callbacks without repetition, as the active queues and the common-timeout
    queues are, and what taking callbacks out of them or sorting them in does. */
module EventLists {
  type Id = nat

  ghost predicate NoDup(l: seq<Id>) {
    forall i, j :: 0 <= i < j < |l| ==> l[i] != l[j]
  }

  /** The list without the callbacks in `gone`. */
  function Outside(l: seq<Id>, gone: set<Id>): seq<Id> {
    if l == [] then []
    else (if l[0] in gone then [] else [l[0]]) + Outside(l[1..], gone)
  }

  lemma {:induction false} OutsideMembers(l: seq<Id>, gone: set<Id>)
    ensures forall x :: x in Outside(l, gone) <==> x in l && x !in gone
    ensures NoDup(l) ==> NoDup(Outside(l, gone))
  {
    if l != [] {
      OutsideMembers(l[1..], gone);
    }
  }

  lemma {:induction false} OutsideNone(l: seq<Id>, gone: set<Id>)
    requires forall x :: x in l ==> x !in gone
    ensures Outside(l, gone) == l
  {
    if l != [] {
      OutsideNone(l[1..], gone);
    }
  }

  lemma {:induction false} OutsideAppend(a: seq<Id>, b: seq<Id>, gone: set<Id>)
    ensures Outside(a + b, gone) == Outside(a, gone) + Outside(b, gone)
  {
    if a == [] {
      assert a + b == b;
    } else {
      assert (a + b)[1..] == a[1..] + b;
      OutsideAppend(a[1..], b, gone);
      Assoc(if a[0] in gone then [] else [a[0]], Outside(a[1..], gone), Outside(b, gone));
    }
  }

  lemma {:induction false} Assoc(a: seq<Id>, b: seq<Id>, c: seq<Id>)
    ensures a + (b + c) == (a + b) + c
  {
  }

  lemma {:induction false} OutsideSingle(x: Id, gone: set<Id>)
    ensures Outside([x], gone) == if x in gone then [] else [x]
  {
    assert [x][1..] == [];
  }

  lemma {:induction false} OutsideTwice(l: seq<Id>, a: set<Id>, b: set<Id>)
    ensures Outside(Outside(l, a), b) == Outside(l, a + b)
  {
    if l != [] {
      OutsideTwice(l[1..], a, b);
      OutsideAppend(if l[0] in a then [] else [l[0]], Outside(l[1..], a), b);
      OutsideSingle(l[0], b);
    }
  }

  lemma {:induction false} OutsideOne(l: seq<Id>, x: Id)
    requires NoDup(l) && x in l
    ensures |Outside(l, {x})| == |l| - 1
    ensures l[0] == x ==> Outside(l, {x}) == l[1..]
    ensures l[0] != x ==> Outside(l, {x}) != [] && Outside(l, {x})[0] == l[0]
  {
    if l[0] == x {
      OutsideNone(l[1..], {x});
    } else {
      OutsideOne(l[1..], x);
    }
  }

  /** Total length of the active queues. */
  function SumLen(queues: seq<seq<Id>>): nat {
    if queues == [] then 0 else |queues[0]| + SumLen(queues[1..])
  }

  lemma {:induction false} SumLenUpdate(queues: seq<seq<Id>>, p: nat, l: seq<Id>)
    requires p < |queues|
    ensures SumLen(queues[p := l]) == SumLen(queues) - |queues[p]| + |l|
  {
    if p == 0 {
      assert queues[p := l][1..] == queues[1..];
    } else {
      assert queues[p := l][1..] == queues[1..][p - 1 := l];
      SumLenUpdate(queues[1..], p - 1, l);
    }
  }

  lemma {:induction false} SumLenEmpty(queues: seq<seq<Id>>)
    requires forall p :: 0 <= p < |queues| ==> queues[p] == []
    ensures SumLen(queues) == 0
  {
    if queues != [] {
      SumLenEmpty(queues[1..]);
    }
  }

  lemma {:induction false} SumLenZero(queues: seq<seq<Id>>, p: nat)
    requires p < |queues| && SumLen(queues) == 0
    ensures queues[p] == []
  {
    if p > 0 {
      SumLenZero(queues[1..], p - 1);
    }
  }

  /** ev_timeout of a callback, in microseconds. */
  function At(deadline: map<Id, int>, x: Id): int {
    if x in deadline then deadline[x] else 0
  }

  ghost predicate Sorted(l: seq<Id>, deadline: map<Id, int>) {
    forall i, j :: 0 <= i < j < |l| ==> At(deadline, l[i]) <= At(deadline, l[j])
  }

  lemma {:induction false} OutsideSorted(l: seq<Id>, gone: set<Id>, deadline: map<Id, int>)
    requires Sorted(l, deadline)
    ensures Sorted(Outside(l, gone), deadline)
  {
    if l != [] {
      OutsideSorted(l[1..], gone, deadline);
      OutsideMembers(l[1..], gone);
      assert forall x :: x in l[1..] ==> At(deadline, l[0]) <= At(deadline, x);
    }
  }

  /** `x` is in front of exactly the callbacks that are later. */
  predicate BehindEqual(l: seq<Id>, i: nat, x: Id, deadline: map<Id, int>, r: seq<Id>) {
    && i <= |l| && r == l[..i] + [x] + l[i..]
    && forall j :: 0 <= j < |l| ==> (At(deadline, l[j]) <= At(deadline, x) <==> j < i)
  }

  lemma {:induction false} LastOfEqual(l: seq<Id>, i: nat, x: Id, deadline: map<Id, int>)
    requires Sorted(l, deadline) && i <= |l| && (i > 0 ==> At(deadline, l[i - 1]) <= At(deadline, x))
    requires forall j :: i <= j < |l| ==> At(deadline, x) < At(deadline, l[j])
    ensures BehindEqual(l, i, x, deadline, l[..i] + [x] + l[i..])
    ensures (l[..i] + [x] + l[i..])[0] == if l != [] && At(deadline, l[0]) <= At(deadline, x) then l[0] else x
  {
    hide At;
    forall j | 0 <= j < i
      ensures At(deadline, l[j]) <= At(deadline, x)
    {
      assert j < i - 1 ==> At(deadline, l[j]) <= At(deadline, l[i - 1]);
    }
  }

  /** insert_common_timeout_inorder: from the end, behind the first callback that is not later. */
  method InsertInOrder(l: seq<Id>, x: Id, deadline: map<Id, int>) returns (r: seq<Id>)
    requires NoDup(l) && Sorted(l, deadline) && x !in l
    ensures NoDup(r) && Sorted(r, deadline) && Outside(r, {x}) == l && |r| == |l| + 1
    ensures forall y :: y in r <==> y in l || y == x
    ensures r[0] == if l != [] && At(deadline, l[0]) <= At(deadline, x) then l[0] else x
    ensures exists i: nat :: BehindEqual(l, i, x, deadline, r)
  {
    hide Outside, NoDup, Sorted, At;
    var i := |l|;
    while i > 0 && At(deadline, x) < At(deadline, l[i - 1])
      invariant 0 <= i <= |l|
      invariant forall j :: i <= j < |l| ==> At(deadline, x) < At(deadline, l[j])
    {
      i := i - 1;
    }
    r := l[..i] + [x] + l[i..];
    Inserted(l, i, x, deadline);
    LastOfEqual(l, i, x, deadline);
  }

  lemma {:induction false} Inserted(l: seq<Id>, i: nat, x: Id, deadline: map<Id, int>)
    requires NoDup(l) && Sorted(l, deadline) && x !in l && i <= |l|
    requires i > 0 ==> At(deadline, l[i - 1]) <= At(deadline, x)
    requires forall j :: i <= j < |l| ==> At(deadline, x) < At(deadline, l[j])
    ensures var r := l[..i] + [x] + l[i..];
            && NoDup(r) && Sorted(r, deadline) && Outside(r, {x}) == l
            && forall y :: y in r <==> y in l || y == x
  {
    hide Outside, Sorted, NoDup, At;
    InsertedOutside(l, i, x);
    InsertedNoDup(l, i, x);
    InsertedSorted(l, i, x, deadline);
    assert l == l[..i] + l[i..];
  }

  lemma {:induction false} InsertedOutside(l: seq<Id>, i: nat, x: Id)
    requires x !in l && i <= |l|
    ensures Outside(l[..i] + [x] + l[i..], {x}) == l
  {
    hide Outside;
    OutsideAppend(l[..i] + [x], l[i..], {x});
    OutsideAppend(l[..i], [x], {x});
    OutsideNone(l[..i], {x});
    OutsideNone(l[i..], {x});
    OutsideSingle(x, {x});
    assert l == l[..i] + l[i..];
  }

  /** Where the entries of a list are after an insertion at `i`. */
  function Origin(i: nat, j: nat): int {
    if j < i then j else j - 1
  }

  lemma {:induction false} InsertedAt(l: seq<Id>, i: nat, x: Id, j: nat)
    requires i <= |l| && j < |l| + 1
    ensures (l[..i] + [x] + l[i..])[j] == if j == i then x else l[Origin(i, j)]
  {
  }

  lemma {:induction false} InsertedNoDup(l: seq<Id>, i: nat, x: Id)
    requires NoDup(l) && x !in l && i <= |l|
    ensures NoDup(l[..i] + [x] + l[i..])
  {
    var r := l[..i] + [x] + l[i..];
    forall j, k | 0 <= j < k < |r|
      ensures r[j] != r[k]
    {
      InsertedAt(l, i, x, j);
      InsertedAt(l, i, x, k);
    }
  }

  lemma {:induction false} InsertedSorted(l: seq<Id>, i: nat, x: Id, deadline: map<Id, int>)
    requires Sorted(l, deadline) && i <= |l|
    requires i > 0 ==> At(deadline, l[i - 1]) <= At(deadline, x)
    requires forall j :: i <= j < |l| ==> At(deadline, x) < At(deadline, l[j])
    ensures Sorted(l[..i] + [x] + l[i..], deadline)
  {
    hide At;
    var r := l[..i] + [x] + l[i..];
    forall j, k | 0 <= j < k < |r|
      ensures At(deadline, r[j]) <= At(deadline, r[k])
    {
      InsertedAt(l, i, x, j);
      InsertedAt(l, i, x, k);
      assert j < i ==> At(deadline, l[j]) <= At(deadline, l[i - 1]);
    }
  }

  /** The first of a sorted list is a least one. */
  lemma {:induction false} FirstIsLeast(l: seq<Id>, deadline: map<Id, int>, x: Id)
    requires Sorted(l, deadline) && x in l
    ensures At(deadline, l[0]) <= At(deadline, x)
  {
  }

  /** Callbacks counted by event_count. */
  ghost function External(s: set<Id>, internal: set<Id>): nat {
    |s - internal|
  }

  lemma {:induction false} ExternalChange(s: set<Id>, internal: set<Id>, x: Id)
    requires x !in s
    ensures External(s + {x}, internal) == External(s, internal) + if x in internal then 0 else 1
  {
    if x in internal {
      assert (s + {x}) - internal == s - internal;
    } else {
      assert (s + {x}) - internal == (s - internal) + {x};
    }
  }
}
