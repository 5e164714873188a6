/** The epoll operation table of epolltable-internal.h, and the rule it was generated from. */
module EpollTable {

  /** What is wanted, or held, for one descriptor: read, write and close interest. */
  datatype Kinds = Kinds(read: bool, write: bool, close: bool) {
    predicate Empty() {
      !read && !write && !close
    }
  }

  const NOTHING := Kinds(false, false, false)

  /** The low two bits of a change field: EV_CHANGE_ADD is 1 and EV_CHANGE_DEL is 2. */
  const NONE := 0
  const ADD := 1
  const DEL := 2

  datatype EpollOp = NoOp | CtlAdd | CtlDel | CtlMod | Impossible

  datatype Row = Row(events: Kinds, op: EpollOp)

  // Rows of the table: no operation, the impossible row { 0, 255 }, and ADD, DEL and MOD with the
  // events EPOLLIN (1), EPOLLOUT (2) and EPOLLRDHUP (4).
  const N := Row(NOTHING, NoOp)
  const X := Row(NOTHING, Impossible)
  const A1 := Row(Kinds(true, false, false), CtlAdd)
  const A2 := Row(Kinds(false, true, false), CtlAdd)
  const A3 := Row(Kinds(true, true, false), CtlAdd)
  const A4 := Row(Kinds(false, false, true), CtlAdd)
  const A5 := Row(Kinds(true, false, true), CtlAdd)
  const A6 := Row(Kinds(false, true, true), CtlAdd)
  const A7 := Row(Kinds(true, true, true), CtlAdd)
  const D1 := Row(Kinds(true, false, false), CtlDel)
  const D2 := Row(Kinds(false, true, false), CtlDel)
  const D3 := Row(Kinds(true, true, false), CtlDel)
  const D4 := Row(Kinds(false, false, true), CtlDel)
  const D5 := Row(Kinds(true, false, true), CtlDel)
  const D6 := Row(Kinds(false, true, true), CtlDel)
  const D7 := Row(Kinds(true, true, true), CtlDel)
  const M1 := Row(Kinds(true, false, false), CtlMod)
  const M2 := Row(Kinds(false, true, false), CtlMod)
  const M3 := Row(Kinds(true, true, false), CtlMod)
  const M4 := Row(Kinds(false, false, true), CtlMod)
  const M5 := Row(Kinds(true, false, true), CtlMod)
  const M6 := Row(Kinds(false, true, true), CtlMod)
  const M7 := Row(Kinds(true, true, true), CtlMod)

  predicate Bits(n: nat) {
    n < 4
  }

  /** One of sixteen neighbouring rows, by the read change and the close change. */
  function Pick(read: nat, close: nat,
                a: Row, b: Row, c: Row, d: Row, e: Row, f: Row, g: Row, h: Row,
                i: Row, j: Row, k: Row, l: Row, m: Row, n: Row, o: Row, p: Row): Row {
    if read == 0 then Choose(close, a, b, c, d)
    else if read == 1 then Choose(close, e, f, g, h)
    else if read == 2 then Choose(close, i, j, k, l)
    else Choose(close, m, n, o, p)
  }

  function Choose(i: nat, a: Row, b: Row, c: Row, d: Row): Row {
    if i == 0 then a else if i == 1 then b else if i == 2 then c else d
  }

  /** epoll_op_table: sixteen rows to a line, four lines for each value of the old events, one for
      each value of the write change. */
  function Table(was: nat, write: nat, read: nat, close: nat): Row {
    var x, y := read, close;
    if was == 0 then
      if write == 0 then Pick(x, y, N, A4, D4, X, A1, A5, A1, X, D1, A4, D5, X, X, X, X, X)
      else if write == 1 then Pick(x, y, A2, A6, A2, X, A3, A7, A3, X, A2, A6, A2, X, X, X, X, X)
      else if write == 2 then Pick(x, y, D2, A4, D6, X, A1, A5, A1, X, D3, A4, D7, X, X, X, X, X)
      else Pick(x, y, X, X, X, X, X, X, X, X, X, X, X, X, X, X, X, X)
    else if was == 1 then
      if write == 0 then Pick(x, y, N, M5, M1, X, M1, M5, M1, X, D1, M4, D5, X, X, X, X, X)
      else if write == 1 then Pick(x, y, M3, M7, M3, X, M3, M7, M3, X, M2, M6, M2, X, X, X, X, X)
      else if write == 2 then Pick(x, y, M1, M5, M1, X, M1, M5, M1, X, D3, M4, D7, X, X, X, X, X)
      else Pick(x, y, X, X, X, X, X, X, X, X, X, X, X, X, X, X, X, X)
    else if was == 2 then
      if write == 0 then Pick(x, y, N, M6, M2, X, M3, M7, M3, X, M2, M6, M2, X, X, X, X, X)
      else if write == 1 then Pick(x, y, M2, M6, M2, X, M3, M7, M3, X, M2, M6, M2, X, X, X, X, X)
      else if write == 2 then Pick(x, y, D2, M4, D6, X, M1, M5, M1, X, D3, M4, D7, X, X, X, X, X)
      else Pick(x, y, X, X, X, X, X, X, X, X, X, X, X, X, X, X, X, X)
    else if was == 3 then
      if write == 0 then Pick(x, y, N, M7, M3, X, M3, M7, M3, X, M2, M6, M2, X, X, X, X, X)
      else if write == 1 then Pick(x, y, M3, M7, M3, X, M3, M7, M3, X, M2, M6, M2, X, X, X, X, X)
      else if write == 2 then Pick(x, y, M1, M5, M1, X, M1, M5, M1, X, D3, M4, D7, X, X, X, X, X)
      else Pick(x, y, X, X, X, X, X, X, X, X, X, X, X, X, X, X, X, X)
    else if was == 4 then
      if write == 0 then Pick(x, y, N, M4, D4, X, M5, M5, M1, X, M4, M4, D5, X, X, X, X, X)
      else if write == 1 then Pick(x, y, M6, M6, M2, X, M7, M7, M3, X, M6, M6, M2, X, X, X, X, X)
      else if write == 2 then Pick(x, y, M4, M4, D6, X, M5, M5, M1, X, M4, M4, D7, X, X, X, X, X)
      else Pick(x, y, X, X, X, X, X, X, X, X, X, X, X, X, X, X, X, X)
    else if was == 5 then
      if write == 0 then Pick(x, y, N, M5, M1, X, M5, M5, M1, X, M4, M4, D5, X, X, X, X, X)
      else if write == 1 then Pick(x, y, M7, M7, M3, X, M7, M7, M3, X, M6, M6, M2, X, X, X, X, X)
      else if write == 2 then Pick(x, y, M5, M5, M1, X, M5, M5, M1, X, M4, M4, D7, X, X, X, X, X)
      else Pick(x, y, X, X, X, X, X, X, X, X, X, X, X, X, X, X, X, X)
    else if was == 6 then
      if write == 0 then Pick(x, y, N, M6, M2, X, M7, M7, M3, X, M6, M6, M2, X, X, X, X, X)
      else if write == 1 then Pick(x, y, M6, M6, M2, X, M7, M7, M3, X, M6, M6, M2, X, X, X, X, X)
      else if write == 2 then Pick(x, y, M4, M4, D6, X, M5, M5, M1, X, M4, M4, D7, X, X, X, X, X)
      else Pick(x, y, X, X, X, X, X, X, X, X, X, X, X, X, X, X, X, X)
    else
      if write == 0 then Pick(x, y, N, M7, M3, X, M7, M7, M3, X, M6, M6, M2, X, X, X, X, X)
      else if write == 1 then Pick(x, y, M7, M7, M3, X, M7, M7, M3, X, M6, M6, M2, X, X, X, X, X)
      else if write == 2 then Pick(x, y, M5, M5, M1, X, M5, M5, M1, X, M4, M4, D7, X, X, X, X, X)
      else Pick(x, y, X, X, X, X, X, X, X, X, X, X, X, X, X, X, X, X)
  }

  /** Old events as the three bits EPOLL_OP_TABLE_INDEX takes from them. */
  function OldBits(was: Kinds): nat {
    (if was.read then 1 else 0) + (if was.write then 2 else 0) + (if was.close then 4 else 0)
  }

  /** The row EPOLL_OP_TABLE_INDEX selects. */
  function Lookup(was: Kinds, write: nat, read: nat, close: nat): Row
    requires Bits(write) && Bits(read) && Bits(close)
  {
    Table(OldBits(was), write, read, close)
  }

  function After(was: bool, change: nat): bool {
    change == ADD || (change != DEL && was)
  }

  /** The interest that is left after the three changes. */
  function Remaining(was: Kinds, write: nat, read: nat, close: nat): Kinds {
    Kinds(After(was.read, read), After(was.write, write), After(was.close, close))
  }

  /** The rule behind the table. */
  function Rule(was: Kinds, write: nat, read: nat, close: nat): Row {
    var left := Remaining(was, write, read, close);
    if write == 3 || read == 3 || close == 3 then Row(NOTHING, Impossible)
    else if write == NONE && read == NONE && close == NONE then Row(NOTHING, NoOp)
    else if left.Empty() then Row(Kinds(read == DEL, write == DEL, close == DEL), CtlDel)
    else Row(left, if was.Empty() then CtlAdd else CtlMod)
  }

  lemma {:induction false} TableIsRuleAt(was: Kinds, write: nat, read: nat, close: nat)
    requires Bits(write) && Bits(read) && Bits(close)
    ensures Lookup(was, write, read, close) == Rule(was, write, read, close)
  {
  }
}
