/** The chains of an evbuffer as values with an identity, in list order, and the byte string
    such a list stands for. */
module Chains {

  import opened Basics

  /** The address of a `struct evbuffer_chain`. */
  class Address {
    constructor () {}
  }

  /** One `struct evbuffer_chain`: where it lives, its memory, the unused space in front of the
      data, and the number of bytes stored. `immutable` is EVBUFFER_IMMUTABLE. */
  datatype Chain = Chain(at: Address, mem: seq<Byte>, misalign: nat, off: nat, immutable: bool) {

    /** Bounds of the data area. A read-only chain never has room behind its data, and an
        empty read-only chain refers to an empty memory area. */
    predicate Valid() {
      && misalign + off <= |mem|
      && |mem| <= CHAIN_LIMIT
      && (immutable ==> misalign + off == |mem| && (off == 0 ==> mem == []))
      && (!immutable ==> |mem| > 0)
    }

    function Data(): (d: seq<Byte>)
      requires misalign + off <= |mem|
      ensures |d| == off
    {
      mem[misalign..misalign + off]
    }

    /** The chain after `d` was copied behind its data. */
    function Put(d: seq<Byte>): (c: Chain)
      requires Valid() && |d| <= Space()
      ensures c.Valid() && c.at == at && c.off == off + |d| && c.Data() == Data() + d
      ensures |c.mem| == |mem| && c.immutable == immutable && c.misalign == misalign
    {
      var e := misalign + off;
      if d == [] then this
      else this.(mem := mem[..e] + d + mem[e + |d|..], off := off + |d|)
    }

    /** evbuffer_chain_align: move the data to the start of the memory. */
    function Align(): (c: Chain)
      requires Valid() && !immutable
      ensures c.Valid() && c.at == at && c.off == off && c.Data() == Data()
      ensures c.misalign == 0 && |c.mem| == |mem| && !c.immutable
    {
      this.(mem := Data() + mem[off..], misalign := 0)
    }

    /** evbuffer_chain_should_realign */
    predicate ShouldRealign(n: nat)
      requires Valid()
    {
      |mem| - off >= n && off < |mem| / 2 && off <= MAX_TO_REALIGN_IN_EXPAND
    }

    /** An empty chain is treated as empty at the beginning rather than at the end. */
    function OpenFront(): (c: Chain)
      requires Valid() && !immutable
      ensures c.Valid() && !c.immutable && c.at == at && c.off == off && c.Data() == Data()
      ensures c.misalign == if off == 0 then |mem| else misalign
    {
      if off == 0 then this.(misalign := |mem|) else this
    }

    /** The chain after `d` was copied in front of its data. */
    function PutFront(d: seq<Byte>): (c: Chain)
      requires Valid() && !immutable && |d| <= misalign
      ensures c.Valid() && c.at == at && c.off == off + |d| && c.Data() == d + Data()
      ensures !c.immutable && c.misalign == misalign - |d|
    {
      this.(mem := mem[..misalign - |d|] + d + mem[misalign..], misalign := misalign - |d|, off := off + |d|)
    }

    /** The chain without its first `n` bytes. */
    function Skip(n: nat): (c: Chain)
      requires Valid() && n < off
      ensures c.Valid() && c.at == at && c.off == off - n && c.Data() == Data()[n..]
    {
      this.(misalign := misalign + n, off := off - n)
    }

    /** CHAIN_SPACE_LEN */
    function Space(): nat
      requires misalign + off <= |mem|
    {
      if immutable then 0 else |mem| - (misalign + off)
    }
  }

  const SIZE_MAX: int := 0xffff_ffff_ffff_ffff
  const SSIZE_MAX: int := 0x7fff_ffff_ffff_ffff
  const MAX_TO_REALIGN_IN_EXPAND := 2048
  const MAX_TO_COPY_IN_EXPAND := 4096
  const MAX_AUTO_SIZE := 4096
  const MIN_BUFFER_SIZE := 1024
  const CHAIN_HEADER: int := 48
  /** The largest request evbuffer_chain_new grants: EVBUFFER_CHAIN_MAX - EVBUFFER_CHAIN_SIZE. */
  const CHAIN_LIMIT: int := SSIZE_MAX - CHAIN_HEADER

  ghost predicate AllValid(cs: seq<Chain>) {
    forall i :: 0 <= i < |cs| ==> cs[i].Valid()
  }

  ghost predicate AllEmpty(cs: seq<Chain>) {
    forall i :: 0 <= i < |cs| ==> cs[i].off == 0
  }

  /** The byte string a chain list stands for. */
  ghost function Flat(cs: seq<Chain>): seq<Byte>
    requires AllValid(cs)
  {
    if cs == [] then [] else cs[0].Data() + Flat(cs[1..])
  }

  ghost function SumOff(cs: seq<Chain>): nat {
    if cs == [] then 0 else cs[0].off + SumOff(cs[1..])
  }

  /** `k` is the position of the last chain with data, or 0 when there is none. */
  ghost predicate LastWithData(cs: seq<Chain>, k: nat) {
    && (cs == [] ==> k == 0)
    && (cs != [] ==> k < |cs|)
    && (0 < k ==> cs[k].off > 0)
    && (forall i :: k < i < |cs| ==> cs[i].off == 0)
  }

  lemma {:induction false} FlatLength(cs: seq<Chain>)
    requires AllValid(cs)
    ensures |Flat(cs)| == SumOff(cs)
  {
    if cs != [] {
      FlatLength(cs[1..]);
    }
  }

  lemma {:induction false} FlatAppend(a: seq<Chain>, b: seq<Chain>)
    requires AllValid(a) && AllValid(b)
    ensures AllValid(a + b)
    ensures Flat(a + b) == Flat(a) + Flat(b)
  {
    if a == [] {
      assert a + b == b;
    } else {
      assert (a + b)[1..] == a[1..] + b;
      FlatAppend(a[1..], b);
    }
  }

  lemma {:induction false} SumOffAppend(a: seq<Chain>, b: seq<Chain>)
    ensures SumOff(a + b) == SumOff(a) + SumOff(b)
  {
    if a == [] {
      assert a + b == b;
    } else {
      assert (a + b)[1..] == a[1..] + b;
      SumOffAppend(a[1..], b);
    }
  }

  lemma {:induction false} FlatEmpty(cs: seq<Chain>)
    requires AllValid(cs) && AllEmpty(cs)
    ensures Flat(cs) == [] && SumOff(cs) == 0
  {
    if cs != [] {
      FlatEmpty(cs[1..]);
    }
  }

  lemma {:induction false} FlatOne(c: Chain)
    requires c.Valid()
    ensures Flat([c]) == c.Data() && SumOff([c]) == c.off
  {
    assert [c][1..] == [];
  }

  /** Cutting the list at a chain cuts the byte string at the same place. */
  lemma {:induction false} FlatSplit(cs: seq<Chain>, i: nat)
    requires AllValid(cs) && i <= |cs|
    ensures Flat(cs) == Flat(cs[..i]) + Flat(cs[i..])
    ensures SumOff(cs) == SumOff(cs[..i]) + SumOff(cs[i..])
    ensures |Flat(cs[..i])| == SumOff(cs[..i])
  {
    assert cs == cs[..i] + cs[i..];
    FlatAppend(cs[..i], cs[i..]);
    SumOffAppend(cs[..i], cs[i..]);
    FlatLength(cs[..i]);
  }

  /** One more chain at the end of a prefix. */
  lemma {:induction false} FlatSnoc(cs: seq<Chain>, i: nat)
    requires AllValid(cs) && i < |cs|
    ensures Flat(cs[..i + 1]) == Flat(cs[..i]) + cs[i].Data()
    ensures SumOff(cs[..i + 1]) == SumOff(cs[..i]) + cs[i].off
  {
    assert cs[..i + 1] == cs[..i] + [cs[i]];
    FlatAppend(cs[..i], [cs[i]]);
    SumOffAppend(cs[..i], [cs[i]]);
    FlatOne(cs[i]);
  }

  /** One chain in the middle. */
  lemma {:induction false} FlatAt(cs: seq<Chain>, i: nat)
    requires AllValid(cs) && i < |cs|
    ensures Flat(cs) == Flat(cs[..i]) + (cs[i].Data() + Flat(cs[i + 1..]))
    ensures SumOff(cs) == SumOff(cs[..i]) + cs[i].off + SumOff(cs[i + 1..])
  {
    FlatSplit(cs, i);
    assert cs[i..][1..] == cs[i + 1..];
  }

  /** Nothing after the last chain with data contributes. */
  lemma {:induction false} FlatUpTo(cs: seq<Chain>, k: nat, m: nat)
    requires AllValid(cs) && LastWithData(cs, k)
    requires k <= m <= |cs| && (m == k ==> k < |cs| ==> cs[k].off == 0)
    ensures Flat(cs[..m]) == Flat(cs) && AllEmpty(cs[m..])
  {
    FlatSplit(cs, m);
    FlatEmpty(cs[m..]);
  }

  /** A list with data is not all empty up to its last chain with data. */
  lemma {:induction false} LastHasData(cs: seq<Chain>, k: nat)
    requires AllValid(cs) && LastWithData(cs, k) && SumOff(cs) > 0
    ensures k < |cs| && cs[k].off > 0
  {
    if cs[k].off == 0 {
      FlatEmpty(cs);
    }
  }

  lemma {:induction false} TwoParts(s: seq<Byte>, d: seq<Byte>, i: nat)
    requires i <= |d|
    ensures s + d[..i] + d[i..] == s + d && d[0..] == d
  {
  }

  /** Data written behind the last chain with data ends up at the end of the byte string. */
  lemma {:induction false} GrowLast(cs: seq<Chain>, k: nat, c: Chain, d: seq<Byte>)
    requires AllValid(cs) && LastWithData(cs, k) && k < |cs|
    requires c.Valid() && c.at == cs[k].at && c.Data() == cs[k].Data() + d
    ensures AllValid(cs[k := c]) && Flat(cs[k := c]) == Flat(cs) + d
    ensures SumOff(cs[k := c]) == SumOff(cs) + |d|
    ensures LastWithData(cs[k := c], k)
  {
    hide Flat, SumOff;
    var ds := cs[k := c];
    FlatAt(cs, k);
    FlatAt(ds, k);
    assert ds[..k] == cs[..k] && ds[k + 1..] == cs[k + 1..];
    FlatEmpty(cs[k + 1..]);
    FlatLength(cs);
    FlatLength(ds);
    assert Flat(cs[..k]) + ((cs[k].Data() + d) + []) == Flat(cs[..k]) + (cs[k].Data() + []) + d;
  }

  /** Data written in front of the first chain ends up at the start of the byte string. */
  lemma {:induction false} GrowFirst(cs: seq<Chain>, k: nat, c: Chain, d: seq<Byte>)
    requires AllValid(cs) && LastWithData(cs, k) && cs != []
    requires c.Valid() && c.at == cs[0].at && c.Data() == d + cs[0].Data()
    ensures AllValid(cs[0 := c]) && Flat(cs[0 := c]) == d + Flat(cs)
    ensures SumOff(cs[0 := c]) == SumOff(cs) + |d|
    ensures LastWithData(cs[0 := c], k)
  {
    assert cs[0 := c][1..] == cs[1..];
  }

  /** A chain with data put in front of the list. */
  lemma {:induction false} PushFront(cs: seq<Chain>, k: nat, c: Chain)
    requires AllValid(cs) && LastWithData(cs, k) && cs != [] && c.Valid() && c.off > 0
    ensures AllValid([c] + cs) && Flat([c] + cs) == c.Data() + Flat(cs)
    ensures SumOff([c] + cs) == c.off + SumOff(cs)
    ensures LastWithData([c] + cs, if cs[k].off > 0 then k + 1 else 0)
  {
    hide Flat, SumOff;
    FlatOne(c);
    FlatAppend([c], cs);
    SumOffAppend([c], cs);
  }

  /** Dropping `i` whole chains and then the first `r` bytes of the next one. */
  lemma {:induction false} DropFront(cs: seq<Chain>, k: nat, i: nat, r: nat)
    requires AllValid(cs) && LastWithData(cs, k) && i < |cs| && r < cs[i].off
    ensures var ds := [cs[i].Skip(r)] + cs[i + 1..];
            && AllValid(ds) && LastWithData(ds, k - i)
            && SumOff(cs[..i]) + r <= |Flat(cs)|
            && Flat(ds) == Flat(cs)[SumOff(cs[..i]) + r..]
            && SumOff(ds) == SumOff(cs) - SumOff(cs[..i]) - r
  {
    hide Flat, SumOff;
    var c, rest := cs[i].Skip(r), cs[i + 1..];
    FlatAt(cs, i);
    FlatLength(cs[..i]);
    FlatOne(c);
    FlatAppend([c], rest);
    SumOffAppend([c], rest);
    var pre, d, tail := Flat(cs[..i]), cs[i].Data(), Flat(rest);
    assert (pre + (d + tail))[|pre| + r..] == d[r..] + tail;
  }

  /** The first of n, 2 * n, 4 * n, ... that is at least `need`. */
  function Rounded(need: nat, n: nat): (r: nat)
    requires n > 0
    ensures need <= r && n <= r && (r == n || r < 2 * need)
    decreases need - n
  {
    if n < need then Rounded(need, 2 * n) else n
  }

  /** buffer_len of a chain made for `size` bytes. */
  function BufferLen(size: nat): (n: nat)
    requires size <= CHAIN_LIMIT
    ensures size <= n <= CHAIN_LIMIT && n > 0
  {
    var need := size + CHAIN_HEADER;
    (if need < SSIZE_MAX / 2 then Rounded(need, MIN_BUFFER_SIZE) else need) - CHAIN_HEADER
  }

  function Doubled(n: nat, j: nat): nat {
    if j == 0 then n else 2 * Doubled(n, j - 1)
  }

  lemma {:induction false} DoubledFirst(n: nat, j: nat)
    ensures Doubled(n, j + 1) == Doubled(2 * n, j)
  {
    if j > 0 {
      DoubledFirst(n, j - 1);
    }
  }

  lemma {:induction false} RoundedIs(need: nat, n: nat) returns (j: nat)
    requires n > 0
    ensures Rounded(need, n) == Doubled(n, j) && (j > 0 ==> Doubled(n, j - 1) < need)
    decreases need - n
  {
    j := 0;
    if n < need {
      var i := RoundedIs(need, 2 * n);
      j := i + 1;
      DoubledFirst(n, i);
      if i > 0 {
        DoubledFirst(n, i - 1);
      }
    }
  }

  /** An allocation is the least power of two from 1024 on that holds header and request, unless
      the request is huge. */
  lemma {:induction false} LeastAllocation(size: nat) returns (j: nat)
    requires size + CHAIN_HEADER < SSIZE_MAX / 2
    ensures BufferLen(size) + CHAIN_HEADER == Doubled(MIN_BUFFER_SIZE, j)
    ensures j > 0 ==> Doubled(MIN_BUFFER_SIZE, j - 1) < size + CHAIN_HEADER
  {
    j := RoundedIs(size + CHAIN_HEADER, MIN_BUFFER_SIZE);
  }

  /** Sizes have 64 bits: the largest buffer is one byte short of 2^64, the largest chain 49 short of 2^63. */
  lemma {:induction false} Sizes()
    ensures SIZE_MAX == 18446744073709551615 && CHAIN_LIMIT == 9223372036854775759
    ensures BufferLen(1) == 976 && BufferLen(977) == 2000
  {
    assert Rounded(1025, 1024) == 2048;
  }

  /** evbuffer_chain_new */
  method ChainNew(size: nat) returns (r: Option<Chain>)
    ensures r.None? <==> size > CHAIN_LIMIT
    ensures r.Some? ==>
              && fresh(r.value.at) && r.value.Valid() && !r.value.immutable
              && r.value.misalign == 0 && r.value.off == 0 && |r.value.mem| == BufferLen(size)
  {
    if size > CHAIN_LIMIT {
      return None;
    }
    var need := size + CHAIN_HEADER;
    var toAlloc := need;
    if need < SSIZE_MAX / 2 {
      toAlloc := MIN_BUFFER_SIZE;
      while toAlloc < need
        invariant MIN_BUFFER_SIZE <= toAlloc && Rounded(need, toAlloc) == Rounded(need, MIN_BUFFER_SIZE)
      {
        toAlloc := 2 * toAlloc;
      }
    }
    var at := new Address();
    r := Some(Chain(at, seq(toAlloc - CHAIN_HEADER, _ => 0), 0, 0, false));
  }
}
