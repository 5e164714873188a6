/** Positions inside an evbuffer, copying out, searching across chains and reading lines. */
module EvbufferSearch {
  import opened Basics
  import opened Chains
  import opened Evbuffers
  import opened EvbufferMoves

  /** `struct evbuffer_ptr`: a byte position with the chain it falls in. */
  datatype Ptr = Ptr(pos: int, chain: Address?, inChain: nat)

  /** PTR_NOT_FOUND */
  const NOT_FOUND := Ptr(-1, null, 0)

  /** Byte position of offset `x` in chain `i`. */
  ghost function Offset(cs: seq<Chain>, i: nat, x: nat): nat
    requires i <= |cs|
  {
    SumOff(cs[..i]) + x
  }

  /** `p` denotes offset `p.inChain` of chain `i`, or the end of the buffer. */
  ghost predicate PtrAt(cs: seq<Chain>, p: Ptr, i: nat) {
    && i <= |cs|
    && p.pos == Offset(cs, i, p.inChain)
    && if p.chain == null then i == |cs| && p.inChain == 0
       else i < |cs| && cs[i].at == p.chain && p.inChain <= cs[i].off
  }

  ghost predicate ValidPtr(cs: seq<Chain>, p: Ptr) {
    exists i: nat :: PtrAt(cs, p, i)
  }

  /** `p` denotes a byte that is there. */
  ghost predicate Inside(cs: seq<Chain>, p: Ptr) {
    exists i: nat :: PtrAt(cs, p, i) && i < |cs| && p.inChain < cs[i].off
  }

  function ChainIndex(cs: seq<Chain>, a: Address?): nat {
    if a == null then |cs| else PosOf(cs, a)
  }

  lemma {:induction false} IndexOfPtr(cs: seq<Chain>, p: Ptr)
    requires Distinct(cs) && ValidPtr(cs, p)
    ensures PtrAt(cs, p, ChainIndex(cs, p.chain))
  {
    hide SumOff;
    var i :| PtrAt(cs, p, i);
    if p.chain != null {
      assert PosOf(cs, p.chain) == i;
    }
  }

  lemma {:induction false} OffsetEnd(cs: seq<Chain>)
    ensures Offset(cs, |cs|, 0) == SumOff(cs) && Offset(cs, 0, 0) == 0
  {
    assert cs[..|cs|] == cs;
  }

  lemma {:induction false} OffsetNext(cs: seq<Chain>, i: nat)
    requires AllValid(cs) && i < |cs|
    ensures Offset(cs, i + 1, 0) == Offset(cs, i, cs[i].off)
    ensures Offset(cs, i, cs[i].off) <= SumOff(cs)
  {
    hide Flat, SumOff;
    FlatSnoc(cs, i);
    FlatSplit(cs, i + 1);
  }

  /** A stretch of one chain is a stretch of the byte string. */
  lemma {:induction false} FlatSlice(cs: seq<Chain>, i: nat, x: nat, y: nat)
    requires AllValid(cs) && i < |cs| && x <= y <= cs[i].off
    ensures Offset(cs, i, y) <= |Flat(cs)| == SumOff(cs)
    ensures Flat(cs)[Offset(cs, i, x)..Offset(cs, i, y)] == cs[i].Data()[x..y]
  {
    hide Flat, SumOff;
    FlatAt(cs, i);
    FlatLength(cs[..i]);
    FlatLength(cs);
    var pre, d, tail := Flat(cs[..i]), cs[i].Data(), Flat(cs[i + 1..]);
    assert (pre + (d + tail))[|pre| + x..|pre| + y] == d[x..y];
  }

  lemma {:induction false} FlatIndex(cs: seq<Chain>, i: nat, x: nat)
    requires AllValid(cs) && i < |cs| && x < cs[i].off
    ensures Offset(cs, i, x) < |Flat(cs)|
    ensures Flat(cs)[Offset(cs, i, x)] == cs[i].Data()[x]
  {
    hide Flat, SumOff;
    FlatSlice(cs, i, x, x + 1);
    assert Flat(cs)[Offset(cs, i, x)..Offset(cs, i, x + 1)][0] == cs[i].Data()[x..x + 1][0];
  }

  /** evbuffer_ptr_set with EVBUFFER_PTR_SET */
  method PtrSet(buf: Evbuffer, position: nat) returns (p: Ptr, ok: bool)
    requires buf.Valid()
    ensures ok <==> position <= buf.totalLen
    ensures ok ==> ValidPtr(buf.chains, p) && p.pos == position
    ensures !ok ==> p == NOT_FOUND
    ensures position < buf.totalLen ==> Inside(buf.chains, p)
  {
    OffsetEnd(buf.chains);
    p, ok := PtrWalk(buf, 0, 0, position, position);
  }

  /** evbuffer_ptr_set with EVBUFFER_PTR_ADD */
  method PtrAdd(buf: Evbuffer, p: Ptr, howfar: nat) returns (q: Ptr, ok: bool)
    requires buf.Valid() && (p.pos < 0 || ValidPtr(buf.chains, p))
    ensures ok <==> 0 <= p.pos && p.pos + howfar <= buf.totalLen && p.pos + howfar <= SIZE_MAX
    ensures ok ==> ValidPtr(buf.chains, q) && q.pos == p.pos + howfar
  {
    if p.pos < 0 || SIZE_MAX - howfar < p.pos {
      return p, false;
    }
    IndexOfPtr(buf.chains, p);
    q, ok := PtrWalk(buf, ChainIndex(buf.chains, p.chain), p.inChain, howfar, p.pos + howfar);
  }

  /** The walk shared by both forms of evbuffer_ptr_set. */
  method PtrWalk(buf: Evbuffer, i0: nat, x0: nat, howfar: nat, to: nat) returns (p: Ptr, ok: bool)
    requires buf.Valid() && i0 <= |buf.chains| && if i0 < |buf.chains| then x0 <= buf.chains[i0].off else x0 == 0
    requires to == Offset(buf.chains, i0, x0) + howfar
    ensures ok <==> to <= buf.totalLen
    ensures ok ==> ValidPtr(buf.chains, p) && p.pos == to
    ensures !ok ==> p == NOT_FOUND
    ensures to < buf.totalLen ==> Inside(buf.chains, p)
  {
    hide Flat, SumOff, PosOf, Distinct, LastWithData;
    var i: nat, x: nat, left: nat := i0, x0, howfar;
    while i < |buf.chains| && x + left >= buf.chains[i].off
      invariant i <= |buf.chains| && if i < |buf.chains| then x <= buf.chains[i].off else x == 0
      invariant left >= 0 && Offset(buf.chains, i, x) + left == to
    {
      OffsetNext(buf.chains, i);
      left := left - (buf.chains[i].off - x);
      i, x := i + 1, 0;
    }
    OffsetEnd(buf.chains);
    if i < |buf.chains| {
      OffsetNext(buf.chains, i);
      p, ok := Ptr(to, buf.chains[i].at, x + left), true;
      assert PtrAt(buf.chains, p, i);
    } else if left == 0 {
      p, ok := Ptr(buf.totalLen, null, 0), true;
      assert PtrAt(buf.chains, p, i);
    } else {
      p, ok := NOT_FOUND, false;
    }
  }

  /** evbuffer_copyout_from: the bytes copied, or None for an error. */
  method CopyOut(buf: Evbuffer, start: Option<Ptr>, datlen: nat) returns (r: Option<seq<Byte>>)
    requires buf.Valid() && (start.Some? ==> ValidPtr(buf.chains, start.value))
    ensures var p := if start.Some? then start.value.pos else 0;
            var n := Min(datlen, buf.totalLen - p);
            && 0 <= p && 0 <= n
            && (r.None? <==> (start.Some? && datlen > SSIZE_MAX - p) || (n > 0 && buf.freezeStart))
            && (r.Some? ==> r.value == buf.Contents()[p..p + n])
  {
    hide Flat, SumOff, PosOf, Distinct, LastWithData, LinkAt, AllValid;
    var i, x, pos := 0, 0, 0;
    OffsetEnd(buf.chains);
    if start.Some? {
      IndexOfPtr(buf.chains, start.value);
      PtrInBuffer(buf.chains, start.value);
      i, x, pos := ChainIndex(buf.chains, start.value.chain), start.value.inChain, start.value.pos;
      if datlen > SSIZE_MAX - pos {
        return None;
      }
    }
    var n := if datlen + pos > buf.totalLen then buf.totalLen - pos else datlen;
    if n == 0 {
      return Some([]);
    }
    if buf.freezeStart {
      return None;
    }
    var data := CopyLoop(buf, i, x, n, pos);
    r := Some(data);
  }

  lemma {:induction false} PtrInBuffer(cs: seq<Chain>, p: Ptr)
    requires AllValid(cs) && ValidPtr(cs, p)
    ensures 0 <= p.pos <= SumOff(cs)
  {
    hide SumOff, Flat;
    var i: nat :| PtrAt(cs, p, i);
    OffsetEnd(cs);
    if i < |cs| {
      OffsetNext(cs, i);
    }
  }

  method CopyLoop(buf: Evbuffer, i0: nat, x0: nat, n: nat, ghost pos: nat) returns (data: seq<Byte>)
    requires buf.Valid() && i0 <= |buf.chains|
    requires if i0 < |buf.chains| then x0 <= buf.chains[i0].off else x0 == 0
    requires pos == Offset(buf.chains, i0, x0) && pos + n <= buf.totalLen
    ensures data == buf.Contents()[pos..pos + n]
  {
    hide Flat, SumOff, PosOf, Distinct, LastWithData, LinkAt, Chain.Data;
    ghost var cs, s := buf.chains, buf.Contents();
    var i: nat, x: nat, left: nat := i0, x0, n;
    data := [];
    OffsetEnd(cs);
    while left > 0 && left >= buf.chains[i].off - x
      invariant i <= |cs| && (if i < |cs| then x <= cs[i].off else x == 0)
      invariant left <= n && Offset(cs, i, x) == pos + n - left
      invariant data == s[pos..pos + n - left]
      decreases left, |cs| - i
    {
      OffsetNext(cs, i);
      FlatSlice(cs, i, x, cs[i].off);
      SliceSplit(s, pos, n - left, n - left + (cs[i].off - x));
      data := data + buf.chains[i].Data()[x..buf.chains[i].off];
      left := left - (buf.chains[i].off - x);
      i, x := i + 1, 0;
    }
    if left > 0 {
      FlatSlice(cs, i, x, x + left);
      SliceSplit(s, pos, n - left, n);
      data := data + buf.chains[i].Data()[x..x + left];
    }
  }

  /** evbuffer_remove: copy out and drain. */
  method Remove(buf: Evbuffer, datlen: nat) returns (r: Option<seq<Byte>>)
    requires buf.Valid()
    modifies buf`chains, buf`last, buf`lwdp, buf`lwd, buf`totalLen
    ensures buf.Valid() && Addresses(buf.chains) <= old(Addresses(buf.chains))
    ensures var n := Min(datlen, old(buf.totalLen));
            && (r.None? <==> n > 0 && buf.freezeStart)
            && (r.Some? ==> old(buf.Contents()) == r.value + buf.Contents() && |r.value| == n)
            && (r.None? ==> buf.Contents() == old(buf.Contents()))
  {
    hide Flat, SumOff, PosOf, Distinct, LastWithData, LinkAt, AllValid, Addresses;
    r := CopyOut(buf, None, datlen);
    if r.Some? && |r.value| > 0 {
      var _ := buf.Drain(|r.value|);
    }
  }

  /** `what` occurs in `s` at `q`. */
  predicate MatchAt(s: seq<Byte>, what: seq<Byte>, q: nat) {
    q + |what| <= |s| && s[q..q + |what|] == what
  }

  lemma {:induction false} MatchWhole(s: seq<Byte>, mem: seq<Byte>, pos: nat)
    ensures pos + |mem| > |s| ==> !MatchAt(s, mem, pos)
    ensures pos + |mem| <= |s| && s[pos..pos + |mem|] == mem[..|mem|] ==> MatchAt(s, mem, pos)
  {
    assert mem[..|mem|] == mem;
  }

  lemma {:induction false} SliceOfSlice(s: seq<Byte>, i: nat, j: nat, a: nat, b: nat)
    requires i <= j <= |s| && a <= b <= j - i
    ensures s[i..j][a..b] == s[i + a..i + b]
  {
    var t := s[i..j];
    forall k | 0 <= k < b - a ensures t[a..b][k] == s[i + a..i + b][k] {
      assert t[a + k] == s[i + (a + k)];
    }
  }

  lemma {:induction false} SliceSplit(s: seq<Byte>, i: nat, a: nat, b: nat)
    requires a <= b && i + b <= |s|
    ensures s[i..i + b] == s[i..i + a] + s[i + a..i + b]
  {
  }

  lemma {:induction false} PrefixSplit(s: seq<Byte>, a: nat, b: nat)
    requires a <= b <= |s|
    ensures s[..b] == s[..a] + s[a..b]
    ensures s[a..][..b - a] == s[a..b]
  {
  }

  /** Extending a partial match by one piece. */
  lemma {:induction false} SliceJoin(s: seq<Byte>, mem: seq<Byte>, pos: nat, a: nat, b: nat)
    requires a <= b <= |mem| && pos + |mem| <= |s| && s[pos..pos + a] == mem[..a]
    ensures s[pos..pos + b] == mem[..b] <==> s[pos + a..pos + b] == mem[a..b]
    ensures s[pos + a..pos + b] != mem[a..b] ==> !MatchAt(s, mem, pos)
  {
    SliceSplit(s, pos, a, b);
    PrefixSplit(mem, a, b);
    SliceOfSlice(s, pos, pos + |mem|, a, b);
  }

  /** One chain of evbuffer_ptr_memcmp: `n` bytes are comparable there. */
  method ChainMatches(buf: Evbuffer, i: nat, x: nat, ghost at: nat, part: seq<Byte>) returns (n: nat, same: bool)
    requires buf.Valid() && i < |buf.chains| && x <= buf.chains[i].off
    requires at == Offset(buf.chains, i, x) && at + |part| <= buf.totalLen
    ensures n <= |part| && (same <==> buf.Contents()[at..at + n] == part[..n])
    ensures n == |part| || Offset(buf.chains, i + 1, 0) == at + n
  {
    hide Flat, SumOff, PosOf, Distinct, LastWithData, LinkAt, Chain.Data;
    n := if |part| + x > buf.chains[i].off then buf.chains[i].off - x else |part|;
    FlatSlice(buf.chains, i, x, x + n);
    OffsetNext(buf.chains, i);
    same := buf.chains[i].Data()[x..x + n] == part[..n];
  }

  /** evbuffer_ptr_memcmp, as an equality test. */
  method PtrMatches(buf: Evbuffer, i0: nat, x0: nat, pos: nat, mem: seq<Byte>) returns (same: bool)
    requires buf.Valid() && i0 < |buf.chains| && x0 <= buf.chains[i0].off && pos == Offset(buf.chains, i0, x0)
    ensures same <==> MatchAt(buf.Contents(), mem, pos)
  {
    hide Flat, SumOff, PosOf, Distinct, LastWithData, LinkAt, Chain.Data, MatchAt, AllValid, Offset;
    ghost var cs, s := buf.chains, buf.Contents();
    MatchWhole(s, mem, pos);
    if pos + |mem| > buf.totalLen {
      return false;
    }
    var i: nat, x: nat, done: nat := i0, x0, 0;
    while done < |mem| && i < |buf.chains|
      invariant i <= |cs| && (i < |cs| ==> x <= cs[i].off)
      invariant done <= |mem| && (done == |mem| || Offset(cs, i, x) == pos + done)
      invariant i == |cs| ==> x == 0
      invariant s[pos..pos + done] == mem[..done]
      decreases |mem| - done, |cs| - i
    {
      var n, eq := ChainMatches(buf, i, x, pos + done, mem[done..]);
      PrefixSplit(mem, done, done + n);
      SliceJoin(s, mem, pos, done, done + n);
      if !eq {
        return false;
      }
      done := done + n;
      i, x := i + 1, 0;
    }
    OffsetEnd(cs);
    same := true;
  }

  /** memchr: the first position of `b` at or after `x`, or |d|. */
  function MemChr(d: seq<Byte>, x: nat, b: Byte): (j: nat)
    requires x <= |d|
    ensures x <= j <= |d|
    ensures j < |d| ==> d[j] == b
    ensures forall y :: x <= y < j ==> d[y] != b
    decreases |d| - x
  {
    if x == |d| || d[x] == b then x else MemChr(d, x + 1, b)
  }

  ghost predicate NoMatch(s: seq<Byte>, what: seq<Byte>, a: nat, b: nat) {
    forall q :: a <= q < b ==> !MatchAt(s, what, q)
  }

  lemma {:induction false} NoMatchJoin(s: seq<Byte>, what: seq<Byte>, a: nat, b: nat, c: nat)
    requires NoMatch(s, what, a, b) && NoMatch(s, what, b, c)
    ensures NoMatch(s, what, a, c)
  {
  }

  /** No match starts in a stretch of a chain without the first byte. */
  lemma {:induction false} NoMatchSkip(cs: seq<Chain>, i: nat, x: nat, j: nat, what: seq<Byte>)
    requires AllValid(cs) && i < |cs| && x <= j <= cs[i].off && what != []
    requires forall y :: x <= y < j ==> cs[i].Data()[y] != what[0]
    ensures NoMatch(Flat(cs), what, Offset(cs, i, x), Offset(cs, i, j))
  {
    hide Flat, SumOff, Chain.Data;
    var s := Flat(cs);
    forall q | Offset(cs, i, x) <= q < Offset(cs, i, j) ensures !MatchAt(s, what, q) {
      var y := q - Offset(cs, i, 0);
      FlatIndex(cs, i, y);
      assert q + |what| <= |s| ==> s[q..q + |what|][0] == s[q];
    }
  }

  /** A failed comparison at one position. */
  lemma {:induction false} NoMatchHere(s: seq<Byte>, what: seq<Byte>, a: nat, b: nat)
    requires NoMatch(s, what, a, b) && !MatchAt(s, what, b)
    ensures NoMatch(s, what, a, b + 1)
  {
  }

  /** What evbuffer_search_range promises for a pattern, between `from` and `lim`. */
  ghost predicate Found(s: seq<Byte>, what: seq<Byte>, from: nat, lim: int, pos: int) {
    if pos >= 0 then
      && from <= pos && MatchAt(s, what, pos) && pos + |what| <= lim
      && NoMatch(s, what, from, pos)
    else
      pos == -1 && forall q: nat :: from <= q && q + |what| <= lim ==> !MatchAt(s, what, q)
  }

  /** A match byte by byte, within the limit and with none at any `q` before it; or none at any `q` within the limit. */
  lemma {:induction false} FoundMeans(s: seq<Byte>, what: seq<Byte>, from: nat, lim: int, pos: int, q: nat)
    requires Found(s, what, from, lim, pos)
    ensures pos >= 0 ==> from <= pos && pos + |what| <= |s| && pos + |what| <= lim && forall k :: 0 <= k < |what| ==> s[pos + k] == what[k]
    ensures from <= q < pos && q + |what| <= |s| ==> exists k :: 0 <= k < |what| && s[q + k] != what[k]
    ensures pos < 0 ==> pos == -1 && (from <= q && q + |what| <= lim && q + |what| <= |s| ==> exists k :: 0 <= k < |what| && s[q + k] != what[k])
  {
    if pos >= 0 {
      forall k | 0 <= k < |what|
        ensures s[pos + k] == what[k]
      {
        assert s[pos..pos + |what|][k] == what[k];
      }
    }
    if q + |what| <= |s| && forall k :: 0 <= k < |what| ==> s[q + k] == what[k] {
      assert s[q..q + |what|] == what;
      assert MatchAt(s, what, q);
    }
  }

  lemma {:induction false} NotFoundBefore(s: seq<Byte>, what: seq<Byte>, from: nat, pos: nat, lim: int)
    requires NoMatch(s, what, from, pos) && pos + |what| > lim
    ensures Found(s, what, from, lim, -1)
  {
    forall q: nat | from <= q && q + |what| <= lim ensures !MatchAt(s, what, q) {
      assert q < pos;
    }
  }

  /** evbuffer_search_range */
  method SearchRange(buf: Evbuffer, what: seq<Byte>, start: Option<Ptr>, end: Option<Ptr>) returns (r: Ptr)
    requires buf.Valid()
    requires start.Some? ==> ValidPtr(buf.chains, start.value)
    requires end.Some? ==> ValidPtr(buf.chains, end.value)
    ensures var from := if start.Some? then start.value.pos else 0;
            var lim := if end.Some? then end.value.pos else buf.totalLen;
            && 0 <= from
            && (what == [] || |what| > SSIZE_MAX ==> r.pos == from)
            && (0 < |what| <= SSIZE_MAX ==> Found(buf.Contents(), what, from, lim, r.pos))
    ensures r.pos >= 0 ==> ValidPtr(buf.chains, r)
    ensures 0 < |what| <= SSIZE_MAX && r.pos >= 0 ==> Inside(buf.chains, r)
  {
    hide Flat, SumOff, PosOf, Distinct, LastWithData, LinkAt, MatchAt, NoMatch, Found, AllValid;
    var from := Ptr(0, if buf.chains == [] then null else buf.chains[0].at, 0);
    OffsetEnd(buf.chains);
    assert PtrAt(buf.chains, from, 0);
    if start.Some? {
      from := start.value;
    }
    PtrInBuffer(buf.chains, from);
    if what == [] || |what| > SSIZE_MAX {
      return from;
    }
    IndexOfPtr(buf.chains, from);
    r := SearchLoop(buf, what, ChainIndex(buf.chains, from.chain), from.inChain, from.pos, end);
  }

  method SearchLoop(buf: Evbuffer, what: seq<Byte>, i0: nat, x0: nat, from: nat, end: Option<Ptr>) returns (r: Ptr)
    requires buf.Valid() && what != [] && i0 <= |buf.chains| && from == Offset(buf.chains, i0, x0)
    requires if i0 < |buf.chains| then x0 <= buf.chains[i0].off else x0 == 0
    requires end.Some? ==> ValidPtr(buf.chains, end.value)
    ensures Found(buf.Contents(), what, from, if end.Some? then end.value.pos else buf.totalLen, r.pos)
    ensures r.pos >= 0 ==> Inside(buf.chains, r) && ValidPtr(buf.chains, r)
  {
    hide Flat, SumOff, PosOf, Distinct, LastWithData, LinkAt, MatchAt, NoMatch, Found, Chain.Data;
    ghost var cs, s := buf.chains, buf.Contents();
    ghost var lim := if end.Some? then end.value.pos else buf.totalLen;
    var i: nat, x: nat, pos: nat := i0, x0, from;
    NoMatchNil(s, what, from);
    while i < |buf.chains|
      invariant i <= |cs| && (if i < |cs| then x <= cs[i].off else x == 0)
      invariant from <= pos == Offset(cs, i, x) && NoMatch(s, what, from, pos)
      decreases |cs| - i, |s| - pos
    {
      OffsetNext(cs, i);
      var j := MemChr(buf.chains[i].Data(), x, what[0]);
      NoMatchSkip(cs, i, x, j, what);
      NoMatchJoin(s, what, from, pos, pos + (j - x));
      pos, x := pos + (j - x), j;
      if x < buf.chains[i].off {
        var same := PtrMatches(buf, i, x, pos, what);
        if same {
          r := Ptr(pos, buf.chains[i].at, x);
          assert PtrAt(cs, r, i);
          if end.Some? && pos + |what| > end.value.pos {
            NotFoundBefore(s, what, from, pos, lim);
            return NOT_FOUND;
          }
          FoundHere(s, what, from, pos, lim);
          return;
        }
        NoMatchHere(s, what, from, pos);
        pos, x := pos + 1, x + 1;
        if x == buf.chains[i].off {
          i, x := i + 1, 0;
        }
      } else {
        if end.Some? && end.value.chain == buf.chains[i].at {
          EndInChain(cs, end.value, i);
          NotFoundBefore(s, what, from, pos, lim);
          return NOT_FOUND;
        }
        i, x := i + 1, 0;
      }
    }
    OffsetEnd(cs);
    if end.Some? {
      PtrInBuffer(cs, end.value);
    }
    NotFoundBefore(s, what, from, pos, lim);
    r := NOT_FOUND;
  }

  lemma {:induction false} NoMatchNil(s: seq<Byte>, what: seq<Byte>, a: nat)
    ensures NoMatch(s, what, a, a)
  {
  }

  lemma {:induction false} FoundHere(s: seq<Byte>, what: seq<Byte>, from: nat, pos: nat, lim: int)
    requires from <= pos && NoMatch(s, what, from, pos) && MatchAt(s, what, pos) && (pos + |what| <= lim || lim == |s|)
    ensures Found(s, what, from, lim, pos)
  {
  }

  /** A limit inside chain `i` does not reach past that chain. */
  lemma {:induction false} EndInChain(cs: seq<Chain>, end: Ptr, i: nat)
    requires Distinct(cs) && AllValid(cs) && i < |cs| && ValidPtr(cs, end) && end.chain == cs[i].at
    ensures end.pos <= Offset(cs, i, cs[i].off)
  {
    hide SumOff;
    var e: nat :| PtrAt(cs, end, e);
    assert e == i;
  }

  const CR: Byte := 13
  const LF: Byte := 10
  const CHUNK_SZ := 128

  /** What a scan stops at: either end-of-line byte, or the byte `c`. */
  predicate Stops(eol: bool, c: Byte, b: Byte) {
    if eol then b == CR || b == LF else b == c
  }

  /** find_eol_char: two memchrs on 128 bytes at a time find what a byte-by-byte scan finds. */
  method FindEolChar(d: seq<Byte>) returns (j: nat)
    ensures j <= |d| && (j < |d| ==> Stops(true, 0, d[j]))
    ensures forall y :: 0 <= y < j ==> !Stops(true, 0, d[y])
  {
    var s := 0;
    while s < |d|
      invariant forall y :: 0 <= y < s && y < |d| ==> !Stops(true, 0, d[y])
    {
      var chunk := if s + CHUNK_SZ < |d| then CHUNK_SZ else |d| - s;
      var part := d[s..s + chunk];
      var cr, lf := MemChr(part, 0, CR), MemChr(part, 0, LF);
      j := if cr < chunk && !(lf < chunk && lf < cr) then cr else lf;
      assert forall y :: 0 <= y < chunk ==> d[s + y] == part[y];
      forall y | s <= y < s + j ensures !Stops(true, 0, d[y]) {
        assert d[y] == part[y - s];
      }
      if cr < chunk || lf < chunk {
        j := s + j;
        return;
      }
      s := s + CHUNK_SZ;
    }
    j := |d|;
  }

  ghost predicate NoStop(s: seq<Byte>, eol: bool, c: Byte, a: nat, b: nat)
    requires b <= |s|
  {
    forall q :: a <= q < b ==> !Stops(eol, c, s[q])
  }

  lemma {:induction false} NoStopJoin(s: seq<Byte>, eol: bool, c: Byte, a: nat, b: nat, d: nat)
    requires b <= d <= |s| && NoStop(s, eol, c, a, b) && NoStop(s, eol, c, b, d)
    ensures NoStop(s, eol, c, a, d)
  {
  }

  lemma {:induction false} NoStopInChain(cs: seq<Chain>, i: nat, x: nat, j: nat, eol: bool, c: Byte)
    requires AllValid(cs) && i < |cs| && x <= j <= cs[i].off
    requires forall y :: x <= y < j ==> !Stops(eol, c, cs[i].Data()[y])
    ensures Offset(cs, i, j) <= |Flat(cs)|
    ensures NoStop(Flat(cs), eol, c, Offset(cs, i, x), Offset(cs, i, j))
  {
    hide Flat, SumOff, Chain.Data;
    FlatSlice(cs, i, x, j);
    forall q | Offset(cs, i, x) <= q < Offset(cs, i, j) ensures !Stops(eol, c, Flat(cs)[q]) {
      FlatIndex(cs, i, q - Offset(cs, i, 0));
    }
  }

  /** The first stop at or after `from` is at `l`. */
  ghost predicate FirstStop(s: seq<Byte>, eol: bool, c: Byte, from: nat, l: int) {
    from <= l < |s| && Stops(eol, c, s[l]) && NoStop(s, eol, c, from, l)
  }

  /** One chain of a scan. */
  method ScanChain(d: seq<Byte>, x: nat, eol: bool, c: Byte) returns (j: nat)
    requires x <= |d|
    ensures x <= j <= |d| && (j < |d| ==> Stops(eol, c, d[j]))
    ensures forall y :: x <= y < j ==> !Stops(eol, c, d[y])
  {
    if eol {
      var k := FindEolChar(d[x..]);
      j := x + k;
      forall y | x <= y < j ensures !Stops(eol, c, d[y]) {
        assert d[y] == d[x..][y - x];
      }
    } else {
      j := MemChr(d, x, c);
    }
  }

  /** evbuffer_find_eol_char (eol) and evbuffer_strchr (not eol) */
  method Scan(buf: Evbuffer, it: Ptr, eol: bool, c: Byte) returns (r: Ptr)
    requires buf.Valid() && ValidPtr(buf.chains, it)
    ensures 0 <= it.pos <= buf.totalLen
    ensures r.pos >= 0 ==> FirstStop(buf.Contents(), eol, c, it.pos, r.pos) && Inside(buf.chains, r)
    ensures r.pos < 0 ==> r == NOT_FOUND && NoStop(buf.Contents(), eol, c, it.pos, buf.totalLen)
  {
    hide Flat, SumOff, PosOf, Distinct, LastWithData, LinkAt, Chain.Data, Stops, NoStop;
    ghost var cs, s := buf.chains, buf.Contents();
    IndexOfPtr(cs, it);
    PtrInBuffer(cs, it);
    var i: nat, x: nat, pos: nat := ChainIndex(buf.chains, it.chain), it.inChain, it.pos;
    NoStopNil(s, eol, c, pos);
    while i < |buf.chains|
      invariant i <= |cs| && (if i < |cs| then x <= cs[i].off else x == 0)
      invariant it.pos <= pos == Offset(cs, i, x) <= |s| && NoStop(s, eol, c, it.pos, pos)
    {
      OffsetNext(cs, i);
      var j := ScanChain(buf.chains[i].Data(), x, eol, c);
      NoStopInChain(cs, i, x, j, eol, c);
      NoStopJoin(s, eol, c, it.pos, pos, pos + (j - x));
      if j < buf.chains[i].off {
        r := Ptr(pos + (j - x), buf.chains[i].at, j);
        FlatIndex(cs, i, j);
        assert PtrAt(cs, r, i);
        return;
      }
      pos := pos + (buf.chains[i].off - x);
      i, x := i + 1, 0;
    }
    OffsetEnd(cs);
    r := NOT_FOUND;
  }

  lemma {:induction false} NoStopNil(s: seq<Byte>, eol: bool, c: Byte, a: nat)
    requires a <= |s|
    ensures NoStop(s, eol, c, a, a)
  {
  }

  /** Bytes `a..b` are all end-of-line bytes. */
  ghost predicate EolRun(s: seq<Byte>, a: nat, b: nat)
    requires b <= |s|
  {
    forall q :: a <= q < b ==> Stops(true, 0, s[q])
  }

  /** evbuffer_strspn with "\r\n" */
  method StrSpn(buf: Evbuffer, it: Ptr) returns (n: nat)
    requires buf.Valid() && ValidPtr(buf.chains, it)
    ensures 0 <= it.pos && it.pos + n <= buf.totalLen && EolRun(buf.Contents(), it.pos, it.pos + n)
    ensures it.pos + n < buf.totalLen ==> !Stops(true, 0, buf.Contents()[it.pos + n])
  {
    hide Flat, SumOff, PosOf, Distinct, LastWithData, LinkAt, Chain.Data, Stops;
    ghost var cs, s := buf.chains, buf.Contents();
    IndexOfPtr(cs, it);
    PtrInBuffer(cs, it);
    OffsetEnd(cs);
    n := 0;
    var i: nat, x: nat := ChainIndex(buf.chains, it.chain), it.inChain;
    while i < |buf.chains|
      invariant i <= |cs| && (if i < |cs| then x <= cs[i].off else x == 0)
      invariant it.pos + n == Offset(cs, i, x) <= |s| && EolRun(s, it.pos, it.pos + n)
      decreases |cs| - i
    {
      OffsetNext(cs, i);
      while x < buf.chains[i].off
        invariant i < |cs| && x <= cs[i].off
        invariant it.pos + n == Offset(cs, i, x) <= |s| && EolRun(s, it.pos, it.pos + n)
      {
        FlatIndex(cs, i, x);
        if !Stops(true, 0, buf.chains[i].Data()[x]) {
          return;
        }
        n, x := n + 1, x + 1;
      }
      i, x := i + 1, 0;
    }
  }

  /** enum evbuffer_eol_style */
  datatype EolStyle = EolAny | EolCrlf | EolCrlfStrict | EolLf | EolNul

  /** The first line terminator of the given style at or after `from` is at `pos`, `n` bytes long. */
  ghost predicate EolAt(style: EolStyle, s: seq<Byte>, from: nat, pos: int, n: nat) {
    match style
    case EolAny =>
      && FirstStop(s, true, 0, from, pos) && pos + n <= |s| && EolRun(s, pos, pos + n)
      && (pos + n < |s| ==> !Stops(true, 0, s[pos + n]))
    case EolCrlfStrict => pos >= 0 && Found(s, [CR, LF], from, |s|, pos) && n == 2
    case EolCrlf =>
      if n == 2 then FirstStop(s, false, LF, from, pos + 1) && from <= pos && s[pos] == CR
      else n == 1 && FirstStop(s, false, LF, from, pos) && (from < pos ==> s[pos - 1] != CR)
    case EolLf => FirstStop(s, false, LF, from, pos) && n == 1
    case EolNul => FirstStop(s, false, 0, from, pos) && n == 1
  }

  /** No line terminator of the given style starts at or after `from`. */
  ghost predicate NoEol(style: EolStyle, s: seq<Byte>, from: nat) {
    match style
    case EolAny => NoStop(s, true, 0, from, |s|)
    case EolCrlfStrict => Found(s, [CR, LF], from, |s|, -1)
    case EolCrlf => NoStop(s, false, LF, from, |s|)
    case EolLf => NoStop(s, false, LF, from, |s|)
    case EolNul => NoStop(s, false, 0, from, |s|)
  }

  /** The terminators byte by byte: what each style finds, and that nothing like it comes before. */
  lemma {:induction false} EolMeans(style: EolStyle, s: seq<Byte>, from: nat, pos: int, n: nat)
    requires EolAt(style, s, from, pos, n)
    ensures from <= pos && pos + n <= |s| && n > 0
    ensures match style
            case EolAny =>
              && (forall i :: pos <= i < pos + n ==> s[i] == 13 || s[i] == 10) && (forall i :: from <= i < pos ==> s[i] != 13 && s[i] != 10)
              && (pos + n < |s| ==> s[pos + n] != 13 && s[pos + n] != 10)
            case EolCrlfStrict =>
              n == 2 && s[pos] == 13 && s[pos + 1] == 10 && forall i :: from <= i < pos ==> s[i] != 13 || s[i + 1] != 10
            case EolCrlf =>
              && s[pos + n - 1] == 10 && (forall i :: from <= i < pos + n - 1 ==> s[i] != 10)
              && (if n == 2 then s[pos] == 13 else n == 1 && (from < pos ==> s[pos - 1] != 13))
            case EolLf => n == 1 && s[pos] == 10 && forall i :: from <= i < pos ==> s[i] != 10
            case EolNul => n == 1 && s[pos] == 0 && forall i :: from <= i < pos ==> s[i] != 0
  {
    if style.EolCrlfStrict? {
      assert s[pos] == s[pos..pos + 2][0] && s[pos + 1] == s[pos..pos + 2][1];
      forall i | from <= i < pos
        ensures s[i] != 13 || s[i + 1] != 10
      {
        assert !MatchAt(s, [CR, LF], i);
        assert s[i..i + 2] == [s[i], s[i + 1]];
      }
    } else if style.EolAny? {
      assert pos < pos + n by {
        assert Stops(true, 0, s[pos]);
      }
    }
  }

  /** And what it means that there is none. */
  lemma {:induction false} NoEolMeans(style: EolStyle, s: seq<Byte>, from: nat)
    requires NoEol(style, s, from)
    ensures match style
            case EolAny => forall i :: from <= i < |s| ==> s[i] != 13 && s[i] != 10
            case EolCrlfStrict => forall i :: from <= i < |s| - 1 ==> s[i] != 13 || s[i + 1] != 10
            case EolNul => forall i :: from <= i < |s| ==> s[i] != 0
            case _ => forall i :: from <= i < |s| ==> s[i] != 10
  {
    if style.EolCrlfStrict? {
      forall i | from <= i < |s| - 1
        ensures s[i] != 13 || s[i + 1] != 10
      {
        assert !MatchAt(s, [CR, LF], i);
        assert s[i..i + 2] == [s[i], s[i + 1]];
      }
    }
  }

  /** evbuffer_search_eol */
  method SearchEol(buf: Evbuffer, start: Option<Ptr>, style: EolStyle) returns (it: Ptr, n: nat)
    requires buf.Valid() && (start.Some? ==> ValidPtr(buf.chains, start.value))
    ensures start.Some? ==> 0 <= start.value.pos
    ensures var from := if start.Some? then start.value.pos else 0;
            if it.pos >= 0 then EolAt(style, buf.Contents(), from, it.pos, n)
            else it == NOT_FOUND && NoEol(style, buf.Contents(), from) && n == 0
  {
    hide Flat, SumOff, PosOf, Distinct, LastWithData, LinkAt, Chain.Data, Stops, NoStop, Found, EolRun;
    var from := Ptr(0, if buf.chains == [] then null else buf.chains[0].at, 0);
    OffsetEnd(buf.chains);
    assert PtrAt(buf.chains, from, 0);
    if start.Some? {
      from := start.value;
    }
    PtrInBuffer(buf.chains, from);
    if start.Some? && start.value.chain == null {
      NoEolAtEnd(style, buf.chains, from);
      return NOT_FOUND, 0;
    }
    n := 0;
    match style
    case EolAny =>
      it := Scan(buf, from, true, 0);
      if it.pos >= 0 {
        InsideIsValid(buf.chains, it);
        n := StrSpn(buf, it);
      }
    case EolCrlfStrict =>
      it := SearchRange(buf, [CR, LF], Some(from), None);
      FoundSign(buf.Contents(), [CR, LF], from.pos, buf.totalLen, it.pos);
      if it.pos >= 0 {
        n := 2;
      } else {
        it := NOT_FOUND;
      }
    case EolCrlf =>
      it, n := CrlfEnd(buf, from);
    case EolLf =>
      it := Scan(buf, from, false, LF);
      n := if it.pos >= 0 then 1 else 0;
    case EolNul =>
      it := Scan(buf, from, false, 0);
      n := if it.pos >= 0 then 1 else 0;
  }

  lemma {:induction false} InsideIsValid(cs: seq<Chain>, p: Ptr)
    requires Inside(cs, p)
    ensures ValidPtr(cs, p)
  {
  }

  lemma {:induction false} FoundSign(s: seq<Byte>, what: seq<Byte>, from: nat, lim: int, pos: int)
    requires Found(s, what, from, lim, pos)
    ensures pos >= -1
  {
  }

  lemma {:induction false} NoEolAtEnd(style: EolStyle, cs: seq<Chain>, p: Ptr)
    requires AllValid(cs) && ValidPtr(cs, p) && p.chain == null
    ensures p.pos >= 0 && NoEol(style, Flat(cs), p.pos)
  {
    hide Flat, SumOff;
    FlatLength(cs);
    OffsetEnd(cs);
  }

  /** The EVBUFFER_EOL_CRLF case: a LF, optionally preceded by a CR. */
  method CrlfEnd(buf: Evbuffer, from: Ptr) returns (it: Ptr, n: nat)
    requires buf.Valid() && ValidPtr(buf.chains, from) && from.pos >= 0
    ensures if it.pos >= 0 then EolAt(EolCrlf, buf.Contents(), from.pos, it.pos, n)
            else it == NOT_FOUND && NoEol(EolCrlf, buf.Contents(), from.pos) && n == 0
  {
    hide Flat, SumOff, PosOf, Distinct, LastWithData, LinkAt, Chain.Data, Stops, NoStop;
    it := Scan(buf, from, false, LF);
    if it.pos < 0 {
      return it, 0;
    }
    n := 1;
    if it.pos == from.pos {
      return;
    }
    var it2, b := StepBack(buf, it);
    if b == CR {
      it, n := it2, 2;
    }
  }

  /** evbuffer_ptr_subtract by one byte, and evbuffer_getchr there. */
  method StepBack(buf: Evbuffer, it: Ptr) returns (p: Ptr, b: Byte)
    requires buf.Valid() && Inside(buf.chains, it) && it.pos > 0
    ensures p.pos == it.pos - 1 < buf.totalLen && b == buf.Contents()[p.pos]
  {
    hide Flat, SumOff, PosOf, LastWithData, LinkAt, Chain.Data;
    ghost var cs := buf.chains;
    InsideIsValid(cs, it);
    IndexOfPtr(cs, it);
    PtrInBuffer(cs, it);
    if it.inChain >= 1 {
      p := it.(inChain := it.inChain - 1, pos := it.pos - 1);
      b := GetChr(buf, p);
    } else {
      var ok;
      p, ok := PtrSet(buf, it.pos - 1);
      b := GetChr(buf, p);
    }
  }

  /** evbuffer_getchr */
  method GetChr(buf: Evbuffer, p: Ptr) returns (b: Byte)
    requires buf.Valid() && Inside(buf.chains, p)
    ensures 0 <= p.pos < buf.totalLen && b == buf.Contents()[p.pos]
  {
    hide Flat, SumOff, LastWithData, LinkAt, Chain.Data, Distinct;
    ghost var s := buf.Contents();
    InsideIndex(buf.chains, p);
    var i := PosOf(buf.chains, p.chain);
    FlatIndex(buf.chains, i, p.inChain);
    b := buf.chains[i].Data()[p.inChain];
  }

  lemma {:induction false} InsideIndex(cs: seq<Chain>, p: Ptr)
    requires Distinct(cs) && Inside(cs, p)
    ensures p.chain != null && var i := PosOf(cs, p.chain); PtrAt(cs, p, i) && i < |cs| && p.inChain < cs[i].off
  {
    hide SumOff;
    var i: nat :| PtrAt(cs, p, i) && i < |cs| && p.inChain < cs[i].off;
    assert PosOf(cs, p.chain) == i;
  }

  /** evbuffer_readln: split off the first line and drop its terminator. */
  method ReadLn(buf: Evbuffer, style: EolStyle) returns (r: Option<seq<Byte>>, ghost n: nat)
    requires buf.Valid()
    modifies buf`chains, buf`last, buf`lwdp, buf`lwd, buf`totalLen
    ensures buf.Valid() && Addresses(buf.chains) <= old(Addresses(buf.chains))
    ensures var s := old(buf.Contents());
            && (r.None? <==> buf.freezeStart || NoEol(style, s, 0))
            && (r.None? ==> buf.Contents() == s)
            && (r.Some? ==> EolAt(style, s, 0, |r.value|, n) && |r.value| + n <= |s|
                            && s == r.value + s[|r.value|..|r.value| + n] + buf.Contents())
  {
    hide Flat, SumOff, PosOf, Distinct, LastWithData, LinkAt, Chain.Data, AllValid, EolAt, NoEol, Addresses;
    n := 0;
    if buf.freezeStart {
      return None, 0;
    }
    var it, extra := SearchEol(buf, None, style);
    if it.pos < 0 {
      return None, 0;
    }
    n := extra;
    ghost var s := buf.Contents();
    EolFits(style, s, it.pos, extra);
    r := Remove(buf, it.pos);
    ghost var rest := buf.Contents();
    var _ := buf.Drain(extra);
    LineParts(s, r.value, rest, extra);
  }

  lemma {:induction false} LineParts(s: seq<Byte>, line: seq<Byte>, rest: seq<Byte>, n: nat)
    requires s == line + rest && n <= |rest|
    ensures s == line + s[|line|..|line| + n] + rest[n..]
  {
    assert s[|line|..|line| + n] == rest[..n];
    assert rest == rest[..n] + rest[n..];
  }

  /** A terminator lies inside the text, so the style has one. */
  lemma {:induction false} EolFits(style: EolStyle, s: seq<Byte>, pos: nat, n: nat)
    requires EolAt(style, s, 0, pos, n)
    ensures pos + n <= |s| && !NoEol(style, s, 0)
  {
  }

  /** The terminator found is determined by the text. */
  lemma {:induction false} EolUnique(style: EolStyle, s: seq<Byte>, from: nat, p: nat, n: nat, p': nat, n': nat)
    requires EolAt(style, s, from, p, n) && EolAt(style, s, from, p', n')
    ensures p == p' && n == n'
  {
  }
}
