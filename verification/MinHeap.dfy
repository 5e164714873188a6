/** minheap-internal.h: the binary heap of timeouts, with the position of every event kept beside it. */
module MinHeaps {
  import opened Basics

  type Id = nat

  /** An event and its ev_timeout. */
  datatype Entry = Entry(id: Id, at: int)

  function Parent(i: nat): nat
    requires i > 0
  {
    (i - 1) / 2
  }

  /** No entry is earlier than its parent, where neither of the two is the hole. */
  ghost predicate OrderedBut(p: seq<Entry>, hole: nat) {
    forall i :: 0 < i < |p| && i != hole && Parent(i) != hole ==> p[Parent(i)].at <= p[i].at
  }

  ghost predicate Ordered(p: seq<Entry>) {
    forall i :: 0 < i < |p| ==> p[Parent(i)].at <= p[i].at
  }

  /** `at` may stand above the children of the hole, and so may the hole's parent. */
  ghost predicate AboveChildren(p: seq<Entry>, hole: nat, at: int) {
    forall i :: 0 < i < |p| && Parent(i) == hole ==>
      at <= p[i].at && (0 < hole < |p| ==> p[Parent(hole)].at <= p[i].at)
  }

  /** The hole's parent may stand above `at` and above the children of the hole. */
  ghost predicate UnderParent(p: seq<Entry>, hole: nat, at: int) {
    0 < hole < |p| ==>
      && p[Parent(hole)].at <= at
      && forall i :: 0 < i < |p| && Parent(i) == hole ==> p[Parent(hole)].at <= p[i].at
  }

  /** The entry kept at place `i`. */
  ghost predicate KeptAt(p: seq<Entry>, idx: map<Id, nat>, content: map<Id, int>, i: nat)
    requires i < |p|
  {
    && p[i].id in content && content[p[i].id] == p[i].at
    && p[i].id in idx && idx[p[i].id] == i
  }

  /** The places outside the hole hold the content without `e`, and every event knows its place. */
  ghost predicate LinkedBut(p: seq<Entry>, idx: map<Id, nat>, content: map<Id, int>, hole: nat, e: Entry) {
    && (forall i :: 0 <= i < |p| && i != hole ==> KeptAt(p, idx, content, i) && p[i].id != e.id)
    && (forall id :: id in content && id != e.id ==> id in idx && idx[id] < |p| && idx[id] != hole && p[idx[id]].id == id)
    && e.id in content && content[e.id] == e.at
  }

  ghost predicate Linked(p: seq<Entry>, idx: map<Id, nat>, content: map<Id, int>) {
    && (forall i :: 0 <= i < |p| ==> KeptAt(p, idx, content, i))
    && (forall id :: id in content ==> id in idx && idx[id] < |p| && p[idx[id]].id == id)
    && idx.Keys == content.Keys
  }

  /** The first entry is a least one. */
  lemma {:induction false} TopIsLeast(p: seq<Entry>, i: nat)
    requires Ordered(p) && i < |p|
    ensures p[0].at <= p[i].at
  {
    if i > 0 {
      TopIsLeast(p, Parent(i));
    }
  }

  /** Moving a parent down into the hole. */
  lemma {:induction false} PullDown(p: seq<Entry>, hole: nat, at: int)
    requires 0 < hole < |p| && OrderedBut(p, hole) && AboveChildren(p, hole, at) && p[Parent(hole)].at > at
    ensures OrderedBut(p[hole := p[Parent(hole)]], Parent(hole))
    ensures AboveChildren(p[hole := p[Parent(hole)]], Parent(hole), at)
  {
  }

  /** Moving the smaller child up into the hole. */
  lemma {:induction false} PullUp(p: seq<Entry>, hole: nat, child: nat, at: int)
    requires hole < child < |p| && Parent(child) == hole && OrderedBut(p, hole)
    requires forall i :: 0 < i < |p| && Parent(i) == hole ==> p[child].at <= p[i].at
    requires p[child].at < at && UnderParent(p, hole, at)
    ensures var q := p[hole := p[child]]; OrderedBut(q, child) && UnderParent(q, child, at)
  {
  }

  lemma {:induction false} MoveLinks(p: seq<Entry>, idx: map<Id, nat>, content: map<Id, int>, hole: nat, from: nat, e: Entry)
    requires LinkedBut(p, idx, content, hole, e) && hole < |p| && from < |p| && from != hole
    ensures LinkedBut(p[hole := p[from]], idx[p[from].id := hole], content, from, e)
  {
  }

  lemma {:induction false} FillHole(p: seq<Entry>, idx: map<Id, nat>, content: map<Id, int>, hole: nat, e: Entry)
    requires LinkedBut(p, idx, content, hole, e) && hole < |p| && idx.Keys + {e.id} == content.Keys
    ensures Linked(p[hole := e], idx[e.id := hole], content)
  {
  }

  lemma {:induction false} FillOrder(p: seq<Entry>, hole: nat, e: Entry)
    requires hole < |p| && OrderedBut(p, hole)
    requires forall i :: 0 < i < |p| && Parent(i) == hole ==> e.at <= p[i].at
    requires hole > 0 ==> p[Parent(hole)].at <= e.at
    ensures Ordered(p[hole := e])
  {
  }

  class MinHeap {
    var p: seq<Entry>
    /** min_heap_idx of the events in the heap. */
    var idx: map<Id, nat>
    /** The events in the heap and their timeouts. */
    ghost var content: map<Id, int>

    ghost predicate Valid()
      reads this
    {
      Ordered(p) && Linked(p, idx, content)
    }

    constructor ()
      ensures Valid() && content == map[]
    {
      p, idx, content := [], map[], map[];
    }

    /** min_heap_top_ */
    method Top() returns (top: Option<Id>)
      requires Valid()
      ensures top.None? <==> content == map[]
      ensures top.Some? ==> top.value in content && forall id :: id in content ==> content[top.value] <= content[id]
    {
      if p == [] {
        return None;
      }
      assert KeptAt(p, idx, content, 0);
      top := Some(p[0].id);
      forall id | id in content
        ensures content[p[0].id] <= content[id]
      {
        TopIsLeast(p, idx[id]);
        assert KeptAt(p, idx, content, idx[id]);
      }
    }

    /** min_heap_shift_up_ and, when the first test is known to hold, min_heap_shift_up_unconditional_ */
    method ShiftUp(start: nat, e: Entry)
      requires start < |p| && OrderedBut(p, start) && AboveChildren(p, start, e.at)
      requires LinkedBut(p, idx, content, start, e) && idx.Keys + {e.id} == content.Keys
      modifies this`p, this`idx
      ensures Valid() && |p| == old(|p|)
    {
      hide OrderedBut, AboveChildren, LinkedBut, Linked, Ordered;
      var hole: nat := start;
      while hole > 0 && p[Parent(hole)].at > e.at
        invariant hole < |p| == old(|p|) && OrderedBut(p, hole) && AboveChildren(p, hole, e.at)
        invariant LinkedBut(p, idx, content, hole, e) && idx.Keys + {e.id} == content.Keys
      {
        var parent := Parent(hole);
        PullDown(p, hole, e.at);
        MoveLinks(p, idx, content, hole, parent, e);
        KnownPlace(p, idx, content, hole, e, parent);
        idx := idx[p[parent].id := hole];
        p := p[hole := p[parent]];
        hole := parent;
      }
      ChildrenAbove(p, hole, e.at);
      FillOrder(p, hole, e);
      FillHole(p, idx, content, hole, e);
      idx := idx[e.id := hole];
      p := p[hole := e];
    }

    /** min_heap_shift_down_ */
    method ShiftDown(start: nat, e: Entry)
      requires start < |p| && OrderedBut(p, start) && UnderParent(p, start, e.at)
      requires LinkedBut(p, idx, content, start, e) && idx.Keys + {e.id} == content.Keys
      modifies this`p, this`idx
      ensures Valid() && |p| == old(|p|)
    {
      hide OrderedBut, UnderParent, LinkedBut, Linked, Ordered, Parent;
      var hole: nat, n := start, |p|;
      var minChild := 2 * (hole + 1);
      while minChild <= n
        invariant hole < |p| == n && minChild == 2 * (hole + 1)
        invariant OrderedBut(p, hole) && UnderParent(p, hole, e.at)
        invariant LinkedBut(p, idx, content, hole, e) && idx.Keys + {e.id} == content.Keys
        decreases n - hole
      {
        LeastChild(p, hole);
        if minChild == n || p[minChild].at > p[minChild - 1].at {
          minChild := minChild - 1;
        }
        if !(e.at > p[minChild].at) {
          break;
        }
        PullUp(p, hole, minChild, e.at);
        MoveLinks(p, idx, content, hole, minChild, e);
        KnownPlace(p, idx, content, hole, e, minChild);
        idx := idx[p[minChild].id := hole];
        p := p[hole := p[minChild]];
        hole := minChild;
        minChild := 2 * (hole + 1);
      }
      NoChildren(p, hole);
      FillUnder(p, hole, e);
      FillHole(p, idx, content, hole, e);
      idx := idx[e.id := hole];
      p := p[hole := e];
    }

    /** min_heap_push_ */
    method Push(e: Entry)
      requires Valid() && e.id !in content
      modifies this
      ensures Valid() && content == old(content)[e.id := e.at]
    {
      hide OrderedBut, AboveChildren, LinkedBut, Linked, Ordered;
      NewPlace(p, idx, content, e);
      content := content[e.id := e.at];
      p := p + [e];
      ShiftUp(|p| - 1, e);
    }

    /** min_heap_pop_ */
    method Pop() returns (top: Option<Id>)
      requires Valid()
      modifies this
      ensures Valid() && (top.None? <==> old(content) == map[]) && (top.None? ==> content == map[])
      ensures top.Some? ==> top.value in old(content) && content == old(content) - {top.value}
      ensures top.Some? ==> forall id :: id in old(content) ==> old(content)[top.value] <= old(content)[id]
    {
      hide OrderedBut, LinkedBut, Ordered;
      top := Top();
      if top.Some? {
        var _ := Erase(top.value);
      }
    }

    /** min_heap_erase_: the last entry fills the place, moving up or down but never both. */
    method Erase(id: Id) returns (ok: bool)
      requires Valid()
      modifies this
      ensures Valid() && (ok <==> id in old(content)) && content == old(content) - {id}
    {
      hide OrderedBut, AboveChildren, UnderParent, LinkedBut, Ordered;
      if id !in idx {
        assert content == content - {id};
        return false;
      }
      var hole, last := idx[id], p[|p| - 1];
      assert KeptAt(p, idx, content, |p| - 1);
      if hole == |p| - 1 {
        DropLast(p, idx, content);
        content := content - {id};
        idx := idx - {id};
        p := p[..|p| - 1];
        return true;
      }
      TakeOut(p, idx, content, hole);
      OrderWithout(p, hole);
      content := content - {id};
      idx := idx - {id};
      p := p[..|p| - 1];
      if hole > 0 && p[Parent(hole)].at > last.at {
        ShiftUp(hole, last);
      } else {
        ShiftDown(hole, last);
      }
      ok := true;
    }
  }

  lemma {:induction false} NewPlace(p: seq<Entry>, idx: map<Id, nat>, content: map<Id, int>, e: Entry)
    requires Ordered(p) && Linked(p, idx, content) && e.id !in content
    ensures var q := p + [e];
            && OrderedBut(q, |p|) && AboveChildren(q, |p|, e.at)
            && LinkedBut(q, idx, content[e.id := e.at], |p|, e) && idx.Keys + {e.id} == content[e.id := e.at].Keys
  {
    var q := p + [e];
    forall i | 0 <= i < |p|
      ensures KeptAt(q, idx, content[e.id := e.at], i) && q[i].id != e.id
    {
      assert KeptAt(p, idx, content, i);
    }
  }

  lemma {:induction false} DropLast(p: seq<Entry>, idx: map<Id, nat>, content: map<Id, int>)
    requires p != [] && Ordered(p) && Linked(p, idx, content)
    ensures var q, id := p[..|p| - 1], p[|p| - 1].id; Ordered(q) && Linked(q, idx - {id}, content - {id})
  {
    var q, id := p[..|p| - 1], p[|p| - 1].id;
    assert KeptAt(p, idx, content, |p| - 1);
    forall i | 0 <= i < |q|
      ensures KeptAt(q, idx - {id}, content - {id}, i)
    {
      assert KeptAt(p, idx, content, i);
    }
  }

  lemma {:induction false} TakeOut(p: seq<Entry>, idx: map<Id, nat>, content: map<Id, int>, hole: nat)
    requires hole < |p| - 1 && Linked(p, idx, content)
    ensures var q, id, last := p[..|p| - 1], p[hole].id, p[|p| - 1];
            && LinkedBut(q, idx - {id}, content - {id}, hole, last)
            && (idx - {id}).Keys + {last.id} == (content - {id}).Keys
  {
    var q, id, last := p[..|p| - 1], p[hole].id, p[|p| - 1];
    assert KeptAt(p, idx, content, |p| - 1) && KeptAt(p, idx, content, hole);
    forall i | 0 <= i < |q| && i != hole
      ensures KeptAt(q, idx - {id}, content - {id}, i) && q[i].id != last.id
    {
      assert KeptAt(p, idx, content, i);
    }
  }

  lemma {:induction false} OrderWithout(p: seq<Entry>, hole: nat)
    requires hole < |p| - 1 && Ordered(p)
    ensures var q, last := p[..|p| - 1], p[|p| - 1];
            && OrderedBut(q, hole)
            && (if hole > 0 && q[Parent(hole)].at > last.at then AboveChildren(q, hole, last.at) else UnderParent(q, hole, last.at))
  {
  }

  /** The smaller of the hole's children, which sit at 2 * hole + 1 and 2 * hole + 2. */
  lemma {:induction false} LeastChild(p: seq<Entry>, hole: nat)
    requires 2 * hole + 1 < |p|
    ensures var right := 2 * hole + 2;
            var child := if right == |p| || p[right].at > p[right - 1].at then right - 1 else right;
            Parent(child) == hole && forall i :: 0 < i < |p| && Parent(i) == hole ==> p[child].at <= p[i].at
  {
  }

  lemma {:induction false} NoChildren(p: seq<Entry>, hole: nat)
    ensures 2 * (hole + 1) > |p| ==> forall i :: 0 < i < |p| ==> Parent(i) != hole
  {
  }

  lemma {:induction false} FillUnder(p: seq<Entry>, hole: nat, e: Entry)
    requires hole < |p| && OrderedBut(p, hole) && UnderParent(p, hole, e.at)
    requires forall i :: 0 < i < |p| && Parent(i) == hole ==> e.at <= p[i].at
    ensures Ordered(p[hole := e])
  {
  }

  lemma {:induction false} ChildrenAbove(p: seq<Entry>, hole: nat, at: int)
    requires AboveChildren(p, hole, at)
    ensures forall i :: 0 < i < |p| && Parent(i) == hole ==> at <= p[i].at
  {
  }

  lemma {:induction false} KnownPlace(p: seq<Entry>, idx: map<Id, nat>, content: map<Id, int>, hole: nat, e: Entry, i: nat)
    requires LinkedBut(p, idx, content, hole, e) && i < |p| && i != hole
    ensures p[i].id in idx
  {
    assert KeptAt(p, idx, content, i);
  }
}
