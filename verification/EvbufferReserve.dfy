/** Reserving free space behind the data of an evbuffer and committing what was written there. */
module EvbufferReserve {
  import opened Basics
  import opened Chains
  import opened Evbuffers
  import opened EvbufferMoves

  /** One extent of free space: the chain it lies in, where it starts and how long it is. */
  datatype Vec = Vec(at: Address, base: nat, len: nat)

  /** The first chain with free space, at or right after the last chain with data. */
  function FirstSpace(cs: seq<Chain>, k: nat): nat
    requires k < |cs| ==> cs[k].Valid()
  {
    if k < |cs| && cs[k].Space() == 0 then k + 1 else k
  }

  /** Free bytes in the `m` chains from `f` on. */
  ghost function SpaceFrom(cs: seq<Chain>, f: nat, m: nat): nat
    requires AllValid(cs) && f + m <= |cs|
  {
    if m == 0 then 0 else SpaceFrom(cs, f, m - 1) + cs[f + m - 1].Space()
  }

  /** At least `len` bytes are free in at most `n` chains from the first chain with space. */
  ghost predicate HasRoom(cs: seq<Chain>, k: nat, len: nat, n: nat)
    requires AllValid(cs)
  {
    var f := FirstSpace(cs, k);
    f <= |cs| && SpaceFrom(cs, f, Min(n, |cs| - f)) >= len
  }

  lemma {:induction false} SpaceFromSame(cs: seq<Chain>, ds: seq<Chain>, f: nat, m: nat)
    requires AllValid(cs) && AllValid(ds) && f + m <= |cs| && f + m <= |ds|
    requires forall i :: f <= i < f + m ==> cs[i].Space() == ds[i].Space()
    ensures SpaceFrom(cs, f, m) == SpaceFrom(ds, f, m)
  {
    if m > 0 {
      SpaceFromSame(cs, ds, f, m - 1);
    }
  }

  lemma {:induction false} SpaceFromMore(cs: seq<Chain>, f: nat, m: nat, m': nat)
    requires AllValid(cs) && m <= m' && f + m' <= |cs|
    ensures SpaceFrom(cs, f, m) <= SpaceFrom(cs, f, m')
    decreases m'
  {
    if m < m' {
      SpaceFromMore(cs, f, m, m' - 1);
    }
  }

  /** Room in some chains is room in all that may be used. */
  lemma {:induction false} RoomIn(cs: seq<Chain>, k: nat, m: nat, len: nat, n: nat)
    requires AllValid(cs) && FirstSpace(cs, k) + m <= |cs| && m <= n
    requires SpaceFrom(cs, FirstSpace(cs, k), m) >= len
    ensures HasRoom(cs, k, len, n)
  {
    var f := FirstSpace(cs, k);
    SpaceFromMore(cs, f, m, Min(n, |cs| - f));
  }

  /** An empty chain in place of the empty chains from `m` on. */
  lemma {:induction false} TailOk(cs: seq<Chain>, k: nat, m: nat, c: Chain)
    requires AllValid(cs) && Distinct(cs) && LastWithData(cs, k)
    requires m <= |cs| && AllEmpty(cs[m..]) && (m > k || (m == 0 && k == 0))
    requires c.Valid() && c.off == 0 && c.at !in Addresses(cs)
    ensures var ds := cs[..m] + [c];
            && AllValid(ds) && Distinct(ds) && LastWithData(ds, k)
            && Flat(ds) == Flat(cs) && SumOff(ds) == SumOff(cs)
            && LinkAt(ds, k) == LinkAt(cs, k)
            && Addresses(ds) <= Addresses(cs) + {c.at}
  {
    hide Flat, SumOff, Addresses;
    TailData(cs, m, c);
    AddressesAppend(cs[..m], [c]);
    AddressesPart(cs, 0, m);
    OneAddress(c);
    JoinLinks(cs[..m], [c], 0);
  }

  lemma {:induction false} TailData(cs: seq<Chain>, m: nat, c: Chain)
    requires AllValid(cs) && m <= |cs| && AllEmpty(cs[m..]) && c.Valid() && c.off == 0
    ensures var ds := cs[..m] + [c];
            AllValid(ds) && Flat(ds) == Flat(cs) && SumOff(ds) == SumOff(cs)
  {
    hide Flat, SumOff;
    FlatSplit(cs, m);
    FlatEmpty(cs[m..]);
    FlatEmpty([c]);
    FlatAppend(cs[..m], [c]);
    SumOffAppend(cs[..m], [c]);
  }

  /** Free the empty chains from `m` on and put the empty chain `c` there. */
  method ReplaceTail(buf: Evbuffer, m: nat, c: Chain)
    requires buf.Valid() && m <= |buf.chains| && AllEmpty(buf.chains[m..])
    requires m > buf.lwd || (m == 0 && buf.lwd == 0)
    requires c.Valid() && c.off == 0 && c.at !in Addresses(buf.chains)
    modifies buf`chains, buf`last
    ensures buf.Valid() && buf.Contents() == old(buf.Contents())
    ensures buf.chains == old(buf.chains)[..m] + [c]
    ensures Addresses(buf.chains) <= old(Addresses(buf.chains)) + {c.at}
  {
    hide Flat, SumOff, Addresses, Distinct, AllValid, PosOf;
    TailOk(buf.chains, buf.lwd, m, c);
    buf.chains := buf.chains[..m] + [c];
    buf.last := c.at;
  }

  /** An empty chain's free space made to start at the beginning of its memory. */
  function Reset(c: Chain): (d: Chain)
    requires c.Valid() && c.off == 0
    ensures d.Valid() && d.at == c.at && d.off == 0 && d.Space() == |d.mem| == |c.mem|
  {
    c.(misalign := 0)
  }

  /** Two lists that differ at most in where their empty chains start. */
  ghost predicate Alike(cs: seq<Chain>, ds: seq<Chain>) {
    && AllValid(cs) && AllValid(ds) && |cs| == |ds|
    && Flat(cs) == Flat(ds) && Addresses(cs) == Addresses(ds)
    && (forall i :: 0 <= i < |cs| ==> cs[i].off == ds[i].off)
  }

  method Realign(buf: Evbuffer, j: nat)
    requires buf.Valid() && j < |buf.chains| && buf.chains[j].off == 0
    modifies buf`chains
    ensures buf.Valid() && Alike(old(buf.chains), buf.chains)
    ensures buf.chains == old(buf.chains)[j := Reset(old(buf.chains)[j])]
  {
    hide Flat, SumOff, Addresses, Distinct, PosOf;
    var c := Reset(buf.chains[j]);
    UpdateAt(buf.chains, j, c);
    AddressesUpdate(buf.chains, j, c);
    FlatAt(buf.chains, j);
    assert c.Data() == [] == buf.chains[j].Data();
    buf.chains := buf.chains[j := c];
  }

  /** Free space counted from the last chain with data up to chain `i`. */
  ghost predicate Counted(cs: seq<Chain>, k: nat, i: nat, used: nat, avail: nat)
    requires AllValid(cs)
  {
    && k <= i <= |cs|
    && if i == k then used == 0 && avail == 0 else
       var f := FirstSpace(cs, k);
       f <= i && avail == SpaceFrom(cs, f, i - f) && i - f <= used
  }

  /** One chain more; a full chain with data is not counted. */
  lemma {:induction false} CountedStep(cs: seq<Chain>, ds: seq<Chain>, k: nat, i: nat, used: nat, avail: nat)
    requires AllValid(cs) && AllValid(ds) && Counted(cs, k, i, used, avail) && i < |cs| == |ds|
    requires ds == cs[i := ds[i]]
    ensures Counted(ds, k, i + 1,
                    if i == k && ds[i].Space() == 0 && ds[i].off > 0 then used else used + 1,
                    avail + ds[i].Space())
  {
    var f := FirstSpace(ds, k);
    if i > k {
      SpaceFromSame(cs, ds, f, i - f);
    } else if f == i {
      assert SpaceFrom(ds, f, 1) == SpaceFrom(ds, f, 0) + ds[f].Space();
    }
  }

  lemma {:induction false} AlikeSelf(cs: seq<Chain>)
    requires AllValid(cs)
    ensures Alike(cs, cs)
  {
  }

  lemma {:induction false} AlikeTrans(a: seq<Chain>, b: seq<Chain>, c: seq<Chain>)
    requires Alike(a, b) && Alike(b, c)
    ensures Alike(a, c)
  {
    hide Flat, Addresses;
  }

  /** The chain expand_fast_ leaves in place of `c`. */
  function Opened(c: Chain): (d: Chain)
    requires c.Valid()
    ensures d.Valid() && d.off == c.off && (c.off > 0 ==> d == c) && (c.off == 0 ==> d.Space() == |c.mem|)
  {
    if c.off > 0 then c else Reset(c)
  }

  /** Chains with free space among the `m` from `k` on, once empty chains are realigned. */
  ghost function Uses(cs: seq<Chain>, k: nat, m: nat): nat
    requires AllValid(cs) && k + m <= |cs|
  {
    if m == 0 then 0
    else Uses(cs, k, m - 1) + var c := cs[k + m - 1]; if c.off > 0 && c.Space() == 0 then 0 else 1
  }

  /** Their free bytes. */
  ghost function Avail(cs: seq<Chain>, k: nat, m: nat): nat
    requires AllValid(cs) && k + m <= |cs|
  {
    if m == 0 then 0 else Avail(cs, k, m - 1) + Opened(cs[k + m - 1]).Space()
  }

  lemma {:induction false} CountsGrow(cs: seq<Chain>, k: nat, m: nat, m': nat)
    requires AllValid(cs) && m <= m' && k + m' <= |cs|
    ensures Uses(cs, k, m) <= Uses(cs, k, m') && Avail(cs, k, m) <= Avail(cs, k, m')
    decreases m'
  {
    if m < m' {
      CountsGrow(cs, k, m, m' - 1);
    }
  }

  lemma {:induction false} CountsStep(cs: seq<Chain>, k: nat, i: nat)
    requires AllValid(cs) && k <= i < |cs|
    ensures Uses(cs, k, i + 1 - k) == Uses(cs, k, i - k) + if cs[i].off > 0 && cs[i].Space() == 0 then 0 else 1
    ensures Avail(cs, k, i + 1 - k) == Avail(cs, k, i - k) + Opened(cs[i]).Space()
    ensures Uses(cs, k, 0) == Avail(cs, k, 0) == 0
  {
  }

  /** The last chain is writable, and fewer than `n` chains have free space, less than `len` bytes
      in all: evbuffer_expand_fast_ adds a chain for what is missing. */
  ghost predicate Appends(cs: seq<Chain>, k: nat, len: nat, n: nat)
    requires AllValid(cs) && k <= |cs|
  {
    && cs != [] && !cs[|cs| - 1].immutable
    && Uses(cs, k, |cs| - k) < n && Avail(cs, k, |cs| - k) < len
  }

  /** `ds` is `cs` with the chains from `k` to `i` realigned where they are empty. */
  ghost predicate OpenedTo(cs: seq<Chain>, k: nat, i: nat, ds: seq<Chain>)
    requires AllValid(cs)
  {
    |ds| == |cs| && forall j :: 0 <= j < |cs| ==> ds[j] == if k <= j < i then Opened(cs[j]) else cs[j]
  }

  lemma {:induction false} OpenedStep(cs: seq<Chain>, k: nat, i: nat, ds: seq<Chain>)
    requires AllValid(cs) && OpenedTo(cs, k, i, ds) && k <= i < |cs|
    ensures |ds| == |cs| && ds[i] == cs[i] && OpenedTo(cs, k, i + 1, ds[i := Opened(cs[i])])
  {
    hide Opened;
  }

  lemma {:induction false} OpenedNone(cs: seq<Chain>, k: nat)
    requires AllValid(cs)
    ensures OpenedTo(cs, k, k, cs)
  {
  }

  /** `ds` is `cs` with one more chain, empty and made for `size` bytes. */
  ghost predicate OneMore(cs: seq<Chain>, k: nat, size: nat, ds: seq<Chain>)
    requires AllValid(cs) && size <= CHAIN_LIMIT
  {
    && |ds| == |cs| + 1 && OpenedTo(cs, k, |cs|, ds[..|cs|])
    && var c := ds[|cs|]; !c.immutable && c.misalign == 0 && c.off == 0 && |c.mem| == BufferLen(size)
  }

  lemma {:induction false} CountedStart(cs: seq<Chain>, k: nat)
    requires AllValid(cs) && k <= |cs|
    ensures Counted(cs, k, k, 0, 0)
  {
  }

  lemma {:induction false} CountedRoom(cs: seq<Chain>, k: nat, i: nat, used: nat, avail: nat, len: nat, n: nat)
    requires AllValid(cs) && k < i && Counted(cs, k, i, used, avail) && used <= n && len <= avail
    ensures HasRoom(cs, k, len, n)
  {
    RoomIn(cs, k, i - FirstSpace(cs, k), len, n);
  }

  /** The free bytes of a chain, which is realigned if it is empty. */
  method OpenChain(buf: Evbuffer, i: nat) returns (space: nat)
    requires buf.Valid() && i < |buf.chains|
    modifies buf`chains
    ensures buf.Valid() && Alike(old(buf.chains), buf.chains)
    ensures buf.chains == old(buf.chains)[i := Opened(old(buf.chains)[i])] && space == buf.chains[i].Space()
  {
    hide Flat, SumOff, Addresses, PosOf, Distinct, LinkAt, Alike;
    if buf.chains[i].off > 0 {
      AlikeSelf(buf.chains);
      space := buf.chains[i].Space();
    } else {
      Realign(buf, i);
      space := |buf.chains[i].mem|;
    }
  }

  /** The loop of evbuffer_expand_fast_. */
  method CountSpace(buf: Evbuffer, datlen: nat, n: nat) returns (enough: bool, used: nat, avail: nat)
    requires buf.Valid() && buf.chains != [] && n >= 2
    modifies buf`chains
    ensures buf.Valid() && Alike(old(buf.chains), buf.chains) && used <= n
    ensures enough ==> HasRoom(buf.chains, buf.lwd, datlen, n)
    ensures !enough ==> avail < datlen && (used == n || Counted(buf.chains, buf.lwd, |buf.chains|, used, avail))
    ensures !enough ==> buf.chains[buf.lwd].Space() <= avail
    ensures datlen == 0 ==> enough && buf.chains[buf.lwd] == Opened(old(buf.chains)[buf.lwd])
    ensures old(Appends(buf.chains, buf.lwd, datlen, n)) ==>
              && !enough && used < n && avail == old(Avail(buf.chains, buf.lwd, |buf.chains| - buf.lwd))
              && OpenedTo(old(buf.chains), buf.lwd, |buf.chains|, buf.chains)
  {
    hide Flat, SumOff, Addresses, PosOf, Distinct, SpaceFrom, Counted, FirstSpace, HasRoom, Alike, LinkAt, Uses, Avail,
      Opened, OpenedTo;
    TargetOfLink(buf.chains, buf.lwd);
    var i: nat := Target(buf.chains, buf.lwdp);
    used, avail := 0, 0;
    ghost var k := buf.lwd;
    CountedStart(buf.chains, k);
    AlikeSelf(buf.chains);
    CountsStep(buf.chains, k, k);
    OpenedNone(buf.chains, k);
    while i < |buf.chains|
      invariant buf.Valid() && Alike(old(buf.chains), buf.chains)
      invariant i == k ==> buf.chains == old(buf.chains)
      invariant k <= i <= |buf.chains| && Counted(buf.chains, k, i, used, avail) && used < n
      invariant i > k ==> avail < datlen && buf.chains[k].Space() <= avail
      invariant |buf.chains| == |old(buf.chains)|
      invariant used == Uses(old(buf.chains), k, i - k) && avail == Avail(old(buf.chains), k, i - k)
      invariant OpenedTo(old(buf.chains), k, i, buf.chains)
    {
      ghost var cs := buf.chains;
      CountsStep(old(buf.chains), k, i);
      CountsGrow(old(buf.chains), k, i + 1 - k, |cs| - k);
      OpenedStep(old(buf.chains), k, i, cs);
      var space := OpenChain(buf, i);
      AlikeTrans(old(buf.chains), cs, buf.chains);
      CountedStep(cs, buf.chains, k, i, used, avail);
      avail := avail + space;
      if buf.chains[i].off == 0 || space > 0 {
        used := used + 1;
      }
      i := i + 1;
      if avail >= datlen {
        CountedRoom(buf.chains, k, i, used, avail, datlen, n);
        return true, used, avail;
      }
      if used == n {
        break;
      }
    }
    enough := false;
  }

  /** The last chain holds data, is writable and has no room left. */
  ghost predicate Full(cs: seq<Chain>, k: nat) {
    cs != [] && k == |cs| - 1 && cs[k].Valid() && !cs[k].immutable && cs[k].off > 0 && cs[k].Space() == 0
  }

  /** evbuffer_expand_fast_ */
  method ExpandFast(buf: Evbuffer, datlen: nat, n: nat) returns (ok: bool)
    requires buf.Valid() && n >= 2
    modifies buf`chains, buf`last, buf`lwdp, buf`lwd, buf`totalLen
    ensures buf.Valid() && buf.Contents() == old(buf.Contents())
    ensures ok ==> buf.chains != [] && HasRoom(buf.chains, buf.lwd, datlen, n)
    ensures datlen <= CHAIN_LIMIT ==> ok
    ensures datlen == 0 ==> (FirstSpace(buf.chains, buf.lwd) == |buf.chains| <==> old(Full(buf.chains, buf.lwd)))
    ensures old(Appends(buf.chains, buf.lwd, datlen, n)) && datlen <= CHAIN_LIMIT ==>
              && buf.lwd == old(buf.lwd)
              && OneMore(old(buf.chains), buf.lwd, datlen - old(Avail(buf.chains, buf.lwd, |buf.chains| - buf.lwd)), buf.chains)
    ensures forall a :: a in Addresses(buf.chains) && a !in old(Addresses(buf.chains)) ==> fresh(a)
  {
    hide Flat, SumOff, Addresses, PosOf, Distinct, SpaceFrom, HasRoom, Counted;
    if buf.chains == [] || buf.chains[|buf.chains| - 1].immutable {
      ok := ExpandWithNew(buf, datlen, n);
      return;
    }
    var enough, used, avail := CountSpace(buf, datlen, n);
    if enough {
      return true;
    }
    if used < n {
      var tmp := buf.Alloc(datlen - avail);
      if tmp.None? {
        return false;
      }
      AppendedRoom(buf.chains, buf.lwd, used, avail, tmp.value, datlen, n);
      ReplaceTail(buf, |buf.chains|, tmp.value);
      ok := true;
    } else {
      ok := NukeEmpty(buf, datlen, n);
    }
  }

  /** evbuffer_expand_fast_ when the last chain is missing or read-only. */
  method ExpandWithNew(buf: Evbuffer, datlen: nat, n: nat) returns (ok: bool)
    requires buf.Valid() && n >= 2
    modifies buf`chains, buf`last, buf`lwdp, buf`lwd, buf`totalLen
    ensures buf.Valid() && buf.Contents() == old(buf.Contents())
    ensures ok ==> buf.chains != [] && HasRoom(buf.chains, buf.lwd, datlen, n)
    ensures ok <==> datlen <= CHAIN_LIMIT
    ensures ok ==> FirstSpace(buf.chains, buf.lwd) < |buf.chains|
    ensures forall a :: a in Addresses(buf.chains) && a !in old(Addresses(buf.chains)) ==> fresh(a)
  {
    hide Flat, SumOff, Addresses, PosOf, Distinct, SpaceFrom, HasRoom;
    var c := buf.Alloc(datlen);
    if c.None? {
      return false;
    }
    ghost var cs, k := buf.chains, buf.lwd;
    assert c.value.Data() == [];
    buf.ChainInsert(c.value);
    LastRoom(buf.chains, k, datlen, n);
    ok := true;
  }

  /** An empty writable chain at or right behind the last chain with data. */
  lemma {:induction false} LastRoom(cs: seq<Chain>, k: nat, len: nat, n: nat)
    requires AllValid(cs) && cs != [] && n >= 2 && |cs| - 2 <= k < |cs|
    requires cs[|cs| - 1].off == 0 && cs[|cs| - 1].Space() > 0
    requires k == |cs| - 1 ==> len <= cs[k].Space()
    requires k == |cs| - 2 ==> len <= cs[k].Space() + cs[k + 1].Space()
    ensures HasRoom(cs, k, len, n)
  {
    hide SpaceFrom;
    var f := FirstSpace(cs, k);
    TwoSpaces(cs, f);
    RoomIn(cs, k, |cs| - f, len, n);
  }

  lemma {:induction false} TwoSpaces(cs: seq<Chain>, f: nat)
    requires AllValid(cs) && |cs| - 2 <= f < |cs|
    ensures SpaceFrom(cs, f, |cs| - f) == if f == |cs| - 1 then cs[f].Space() else cs[f].Space() + cs[f + 1].Space()
  {
    assert SpaceFrom(cs, f, 1) == SpaceFrom(cs, f, 0) + cs[f].Space();
  }

  lemma {:induction false} AppendedRoom(cs: seq<Chain>, k: nat, used: nat, avail: nat, c: Chain, len: nat, n: nat)
    requires AllValid(cs) && c.Valid() && k < |cs| && Counted(cs, k, |cs|, used, avail)
    requires used < n && len <= avail + c.Space()
    ensures AllValid(cs + [c]) && HasRoom(cs[..|cs|] + [c], k, len, n)
  {
    var ds, f := cs + [c], FirstSpace(cs, k);
    assert cs[..|cs|] == cs && FirstSpace(ds, k) == f;
    SpaceFromSame(cs, ds, f, |cs| - f);
    RoomIn(ds, k, |cs| - f + 1, len, n);
  }

  /** Replace all empty chains by one that is large enough. */
  method NukeEmpty(buf: Evbuffer, datlen: nat, n: nat) returns (ok: bool)
    requires buf.Valid() && buf.chains != [] && n >= 2 && buf.chains[buf.lwd].Space() <= datlen
    modifies buf`chains, buf`last, buf`lwdp, buf`lwd, buf`totalLen
    ensures buf.Valid() && buf.Contents() == old(buf.Contents())
    ensures ok ==> buf.chains != [] && HasRoom(buf.chains, buf.lwd, datlen, n)
    ensures datlen <= CHAIN_LIMIT ==> ok
    ensures forall a :: a in Addresses(buf.chains) && a !in old(Addresses(buf.chains)) ==> fresh(a)
  {
    hide Flat, SumOff, Addresses, PosOf, Distinct, SpaceFrom, HasRoom, FirstSpace;
    TargetOfLink(buf.chains, buf.lwd);
    var i: nat := Target(buf.chains, buf.lwdp);
    var all := buf.chains[i].off == 0;
    var keep := if all then i else i + 1;
    var avail := if all then 0 else buf.chains[i].Space();
    var tmp := buf.Alloc(datlen - avail);
    if tmp.None? {
      DropTail(buf, keep);
      return false;
    }
    ReplaceTail(buf, keep, tmp.value);
    LastRoom(buf.chains, buf.lwd, datlen, n);
    ok := true;
  }

  /** Free the empty chains from `m` on. */
  method DropTail(buf: Evbuffer, m: nat)
    requires buf.Valid() && m <= |buf.chains| && AllEmpty(buf.chains[m..])
    requires m == buf.lwd + 1 || (m == 0 && buf.lwd == 0)
    modifies buf`chains, buf`last, buf`lwdp, buf`lwd, buf`totalLen
    ensures buf.Valid() && buf.Contents() == old(buf.Contents())
    ensures Addresses(buf.chains) <= old(Addresses(buf.chains))
  {
    hide Flat, SumOff, Addresses, PosOf;
    FlatSplit(buf.chains, m);
    FlatEmpty(buf.chains[m..]);
    AddressesPart(buf.chains, 0, m);
    if m == 0 {
      assert buf.chains[..0] == [] && buf.chains[0..] == buf.chains;
      buf.ZeroChain();
    } else {
      buf.chains := buf.chains[..m];
      buf.last := buf.chains[m - 1].at;
    }
  }

  /** Replace the last chain with data by a copy in a new chain. */
  method ResizeChain(buf: Evbuffer, j: nat, tmp: Chain)
    requires buf.Valid() && j == buf.lwd < |buf.chains|
    requires tmp.Valid() && tmp.Data() == buf.chains[j].Data() && tmp.at !in Addresses(buf.chains)
    modifies buf`chains, buf`last
    ensures buf.Valid() && buf.Contents() == old(buf.Contents())
    ensures buf.chains == old(buf.chains)[j := tmp]
    ensures Addresses(buf.chains) <= old(Addresses(buf.chains)) + {tmp.at}
  {
    hide Flat, SumOff, PosOf, Chain.Data;
    ghost var cs := buf.chains;
    SwapChain(cs, j, tmp);
    if buf.last == buf.chains[j].at {
      buf.last := tmp.at;
    }
    buf.chains := buf.chains[j := tmp];
  }

  lemma {:induction false} SwapChain(cs: seq<Chain>, j: nat, c: Chain)
    requires AllValid(cs) && Distinct(cs) && j < |cs| && c.Valid() && c.Data() == cs[j].Data()
    requires c.at !in Addresses(cs)
    ensures var ds := cs[j := c];
            && AllValid(ds) && Distinct(ds) && Flat(ds) == Flat(cs) && SumOff(ds) == SumOff(cs)
            && Addresses(ds) <= Addresses(cs) + {c.at}
            && (forall k :: LastWithData(cs, k) ==> LastWithData(ds, k))
  {
    hide Flat, SumOff, Chain.Data;
    var ds := cs[j := c];
    FlatAt(cs, j);
    FlatAt(ds, j);
    assert ds[..j] == cs[..j] && ds[j + 1..] == cs[j + 1..];
    forall i | 0 <= i < |cs| ensures cs[i].at in Addresses(cs) {
      assert cs[i] in cs;
    }
  }

  /** evbuffer_expand_singlechain leaves the last chain with data alone although it has some room,
      and uses the chain after it. */
  ghost predicate UsesNext(cs: seq<Chain>, k: nat, datlen: nat)
    requires AllValid(cs)
  {
    && k + 1 < |cs| && !cs[k].immutable && cs[k].off > 0 && 0 < cs[k].Space() < datlen
    && !cs[k].ShouldRealign(datlen)
    && (cs[k].Space() < |cs[k].mem| / 8 || cs[k].off > MAX_TO_COPY_IN_EXPAND || datlen >= SSIZE_MAX - cs[k].off)
    && cs[k + 1].Space() >= datlen
  }

  /** evbuffer_expand_singlechain: the position of a chain with `datlen` free bytes. */
  method ExpandSinglechain(buf: Evbuffer, datlen: nat) returns (r: Option<nat>)
    requires buf.Valid()
    modifies buf`chains, buf`last, buf`lwdp, buf`lwd, buf`totalLen
    ensures buf.Valid() && buf.Contents() == old(buf.Contents())
    ensures r.Some? ==> buf.lwd <= r.value < |buf.chains| && buf.chains[r.value].Space() >= datlen
    ensures old(UsesNext(buf.chains, buf.lwd, datlen)) ==>
              r == Some(buf.lwd + 1) && buf.chains == old(buf.chains) && buf.lwd == old(buf.lwd)
    ensures r.Some? && !old(UsesNext(buf.chains, buf.lwd, datlen)) ==>
              r.value == FirstSpace(buf.chains, buf.lwd) || r.value == |buf.chains| - 1
    ensures datlen <= CHAIN_LIMIT - MAX_TO_COPY_IN_EXPAND ==> r.Some?
    ensures forall a :: a in Addresses(buf.chains) && a !in old(Addresses(buf.chains)) ==> fresh(a)
  {
    hide Flat, SumOff, PosOf, Distinct, Addresses, Chain.Data, Chain.Align;
    TargetOfLink(buf.chains, buf.lwd);
    var j: nat := FirstSpace(buf.chains, Target(buf.chains, buf.lwdp));
    if j == |buf.chains| || buf.chains[j].immutable {
      r := InsertNew(buf, datlen);
      return;
    }
    var chain := buf.chains[j];
    if chain.Space() >= datlen {
      return Some(j);
    }
    if chain.off == 0 {
      r := InsertNew(buf, datlen);
      return;
    }
    r := MakeRoom(buf, j, datlen);
  }

  /** evbuffer_expand_singlechain for a writable chain with data and too little room: realign it,
      resize it, use the next chain or append a new one. */
  method MakeRoom(buf: Evbuffer, j: nat, datlen: nat) returns (r: Option<nat>)
    requires buf.Valid() && j == buf.lwd < |buf.chains| && !buf.chains[j].immutable
    requires 0 < buf.chains[j].off && 0 < buf.chains[j].Space() < datlen
    modifies buf`chains, buf`last, buf`lwdp, buf`lwd, buf`totalLen
    ensures buf.Valid() && buf.Contents() == old(buf.Contents())
    ensures r.Some? ==> buf.lwd <= r.value < |buf.chains| && buf.chains[r.value].Space() >= datlen
    ensures old(UsesNext(buf.chains, buf.lwd, datlen)) ==>
              r == Some(buf.lwd + 1) && buf.chains == old(buf.chains) && buf.lwd == old(buf.lwd)
    ensures r.Some? && !old(UsesNext(buf.chains, buf.lwd, datlen)) ==>
              r.value == FirstSpace(buf.chains, buf.lwd) || r.value == |buf.chains| - 1
    ensures datlen <= CHAIN_LIMIT - MAX_TO_COPY_IN_EXPAND ==> r.Some?
    ensures forall a :: a in Addresses(buf.chains) && a !in old(Addresses(buf.chains)) ==> fresh(a)
  {
    hide Flat, SumOff, PosOf, Distinct, Addresses, Chain.Data, Chain.Align, Chain.Put, LinkAt;
    var chain := buf.chains[j];
    if chain.ShouldRealign(datlen) {
      assert chain.Data() == chain.Data() + [];
      buf.StoreLast(chain.Align(), []);
      return Some(j);
    }
    if chain.Space() < |chain.mem| / 8 || chain.off > MAX_TO_COPY_IN_EXPAND || datlen >= SSIZE_MAX - chain.off {
      if j + 1 < |buf.chains| && buf.chains[j + 1].Space() >= datlen {
        return Some(j + 1);
      }
      r := InsertNew(buf, datlen);
      return;
    }
    var tmp := buf.Alloc(chain.off + datlen);
    if tmp.None? {
      return None;
    }
    assert tmp.value.Data() == [];
    ResizeChain(buf, j, tmp.value.Put(chain.Data()));
    r := Some(j);
  }

  /** evbuffer_chain_insert_new, as the last resort of evbuffer_expand_singlechain. */
  method InsertNew(buf: Evbuffer, datlen: nat) returns (r: Option<nat>)
    requires buf.Valid()
    modifies buf`chains, buf`last, buf`lwdp, buf`lwd, buf`totalLen
    ensures buf.Valid() && buf.Contents() == old(buf.Contents())
    ensures r.Some? <==> datlen <= CHAIN_LIMIT
    ensures r.Some? ==> buf.lwd <= r.value < |buf.chains| && buf.chains[r.value].Space() >= datlen
    ensures r.Some? ==> r.value == |buf.chains| - 1
    ensures forall a :: a in Addresses(buf.chains) && a !in old(Addresses(buf.chains)) ==> fresh(a)
  {
    hide Flat, SumOff, Addresses, PosOf, Distinct;
    var c := buf.Alloc(datlen);
    if c.None? {
      return None;
    }
    assert c.value.Data() == [];
    buf.ChainInsert(c.value);
    r := Some(|buf.chains| - 1);
  }

  /** `vecs` are the free extents of the chains from `f` on. */
  ghost predicate Extents(cs: seq<Chain>, f: nat, vecs: seq<Vec>)
    requires AllValid(cs)
  {
    && f + |vecs| <= |cs|
    && forall j :: 0 <= j < |vecs| ==>
         vecs[j] == Vec(cs[f + j].at, cs[f + j].misalign + cs[f + j].off, cs[f + j].Space())
  }

  /** What evbuffer_read_setup_vecs_ offers: the free extents of the chains from `f` on until there are
      `howmuch` bytes, the last one cut to fit if `exact`. */
  ghost predicate Offered(cs: seq<Chain>, f: nat, vecs: seq<Vec>, howmuch: nat, exact: bool)
    requires AllValid(cs)
  {
    && f + |vecs| <= |cs|
    && forall j :: 0 <= j < |vecs| ==>
         && SpaceFrom(cs, f, j) < howmuch
         && vecs[j] == Vec(cs[f + j].at, cs[f + j].misalign + cs[f + j].off,
                           if exact then Min(cs[f + j].Space(), howmuch - SpaceFrom(cs, f, j)) else cs[f + j].Space())
  }

  function TotalLen(vecs: seq<Vec>): nat {
    if vecs == [] then 0 else TotalLen(vecs[..|vecs| - 1]) + vecs[|vecs| - 1].len
  }

  /** evbuffer_read_setup_vecs_: None stands for a failed assertion. */
  method SetupVecs(buf: Evbuffer, howmuch: nat, n: nat, exact: bool) returns (r: Option<seq<Vec>>)
    requires buf.Valid() && buf.chains != [] && HasRoom(buf.chains, buf.lwd, howmuch, n)
    ensures r.None? <==> FirstSpace(buf.chains, buf.lwd) == |buf.chains|
    ensures r.Some? ==>
              var f := FirstSpace(buf.chains, buf.lwd);
              && |r.value| <= n && Offered(buf.chains, f, r.value, howmuch, exact)
              && SpaceFrom(buf.chains, f, |r.value|) >= howmuch
              && (if exact then TotalLen(r.value) == howmuch else Extents(buf.chains, f, r.value))
  {
    hide Flat, SumOff, PosOf, Distinct, LastWithData, LinkAt, Extents, SpaceFrom, Offered, TotalLen;
    TargetOfLink(buf.chains, buf.lwd);
    var f: nat := FirstSpace(buf.chains, Target(buf.chains, buf.lwdp));
    if f == |buf.chains| {
      return None;
    }
    OfferedNone(buf.chains, f, howmuch, exact);
    var vecs: seq<Vec>, soFar: nat := [], 0;
    while |vecs| < n && soFar < howmuch
      invariant |vecs| <= n && f + |vecs| <= |buf.chains| && Offered(buf.chains, f, vecs, howmuch, exact)
      invariant soFar == if exact then Min(howmuch, SpaceFrom(buf.chains, f, |vecs|)) else SpaceFrom(buf.chains, f, |vecs|)
      invariant exact ==> soFar == TotalLen(vecs)
    {
      RoomLeft(buf.chains, f, |vecs|, howmuch, n);
      var c := buf.chains[f + |vecs|];
      var avail := c.Space();
      if exact && avail > howmuch - soFar {
        avail := howmuch - soFar;
      }
      OfferedStep(buf.chains, f, vecs, howmuch, exact, Vec(c.at, c.misalign + c.off, avail));
      vecs, soFar := vecs + [Vec(c.at, c.misalign + c.off, avail)], soFar + avail;
    }
    assert |vecs| == n ==> Min(n, |buf.chains| - f) == n;
    if !exact {
      OfferedWhole(buf.chains, f, vecs, howmuch);
    }
    r := Some(vecs);
  }

  lemma {:induction false} OfferedNone(cs: seq<Chain>, f: nat, howmuch: nat, exact: bool)
    requires AllValid(cs) && f <= |cs|
    ensures Offered(cs, f, [], howmuch, exact) && SpaceFrom(cs, f, 0) == 0 && TotalLen([]) == 0
  {
  }

  lemma {:induction false} OfferedStep(cs: seq<Chain>, f: nat, vecs: seq<Vec>, howmuch: nat, exact: bool, v: Vec)
    requires AllValid(cs) && f + |vecs| < |cs| && Offered(cs, f, vecs, howmuch, exact)
    requires SpaceFrom(cs, f, |vecs|) < howmuch
    requires var c := cs[f + |vecs|];
             v == Vec(c.at, c.misalign + c.off, if exact then Min(c.Space(), howmuch - SpaceFrom(cs, f, |vecs|)) else c.Space())
    ensures Offered(cs, f, vecs + [v], howmuch, exact) && TotalLen(vecs + [v]) == TotalLen(vecs) + v.len
    ensures SpaceFrom(cs, f, |vecs| + 1) == SpaceFrom(cs, f, |vecs|) + cs[f + |vecs|].Space()
  {
    assert (vecs + [v])[..|vecs|] == vecs;
  }

  lemma {:induction false} OfferedWhole(cs: seq<Chain>, f: nat, vecs: seq<Vec>, howmuch: nat)
    requires AllValid(cs) && Offered(cs, f, vecs, howmuch, false)
    ensures Extents(cs, f, vecs)
  {
  }

  /** The walk cannot leave the list before enough room was seen. */
  lemma {:induction false} RoomLeft(cs: seq<Chain>, f: nat, m: nat, len: nat, n: nat)
    requires AllValid(cs) && f + m <= |cs| && m < n
    requires SpaceFrom(cs, f, m) < len <= SpaceFrom(cs, f, Min(n, |cs| - f))
    ensures f + m < |cs|
  {
  }

  datatype Reserved = Refused | Aborted | Granted(vecs: seq<Vec>)

  /** evbuffer_reserve_space with two or more vectors. Asking for 0 bytes when the last chain is
      full fails the assertion that some chain follows. */
  method ReserveMany(buf: Evbuffer, size: nat, n: nat) returns (r: Reserved)
    requires buf.Valid() && n >= 2
    modifies buf`chains, buf`last, buf`lwdp, buf`lwd, buf`totalLen
    ensures buf.Valid() && buf.Contents() == old(buf.Contents())
    ensures r.Refused? ==> buf.freezeEnd || size > CHAIN_LIMIT
    ensures buf.freezeEnd ==> r.Refused?
    ensures r.Aborted? <==> !buf.freezeEnd && size == 0 && old(Full(buf.chains, buf.lwd))
    ensures old(Appends(buf.chains, buf.lwd, size, n)) && size <= CHAIN_LIMIT && !buf.freezeEnd ==>
              && buf.lwd == old(buf.lwd)
              && OneMore(old(buf.chains), buf.lwd, size - old(Avail(buf.chains, buf.lwd, |buf.chains| - buf.lwd)), buf.chains)
    ensures r.Granted? ==>
              var f := FirstSpace(buf.chains, buf.lwd);
              && buf.chains != [] && |r.vecs| <= n && Extents(buf.chains, f, r.vecs)
              && SpaceFrom(buf.chains, f, |r.vecs|) >= size
  {
    hide Flat, SumOff, Addresses, PosOf, Distinct, SpaceFrom, Full, Extents, Uses, Avail, OneMore;
    if buf.freezeEnd {
      return Refused;
    }
    var ok := ExpandFast(buf, size, n);
    if !ok {
      return Refused;
    }
    NoRoomAtEnd(buf.chains);
    var v := SetupVecs(buf, size, n, false);
    r := if v.None? then Aborted else Granted(v.value);
  }

  lemma {:induction false} NoRoomAtEnd(cs: seq<Chain>)
    requires AllValid(cs)
    ensures SpaceFrom(cs, |cs|, 0) == 0
  {
  }

  /** evbuffer_reserve_space with one vector. */
  method ReserveOne(buf: Evbuffer, size: nat) returns (r: Reserved, ghost j: nat)
    requires buf.Valid()
    modifies buf`chains, buf`last, buf`lwdp, buf`lwd, buf`totalLen
    ensures buf.Valid() && buf.Contents() == old(buf.Contents()) && !r.Aborted?
    ensures r.Refused? ==> buf.freezeEnd || size > CHAIN_LIMIT - MAX_TO_COPY_IN_EXPAND
    ensures buf.freezeEnd ==> r.Refused?
    ensures r.Granted? ==> |r.vecs| == 1 && size <= r.vecs[0].len && buf.lwd <= j && Extents(buf.chains, j, r.vecs)
    ensures r.Granted? ==>
              if old(UsesNext(buf.chains, buf.lwd, size)) then
                j == buf.lwd + 1 && buf.chains == old(buf.chains) && buf.lwd == old(buf.lwd)
              else
                j == FirstSpace(buf.chains, buf.lwd) || j == |buf.chains| - 1
  {
    hide Flat, SumOff, Addresses, PosOf, Distinct, FirstSpace, UsesNext;
    j := 0;
    if buf.freezeEnd {
      return Refused, 0;
    }
    var i := ExpandSinglechain(buf, size);
    if i.None? {
      return Refused, 0;
    }
    var c := buf.chains[i.value];
    j := i.value;
    r := Granted([Vec(c.at, c.misalign + c.off, c.Space())]);
  }

  /** `vecs` lie at the start of the free space of the chains from `f` on. */
  ghost predicate Fits(cs: seq<Chain>, f: nat, vecs: seq<Vec>)
    requires AllValid(cs)
  {
    && f + |vecs| <= |cs|
    && forall j :: 0 <= j < |vecs| ==> FitsIn(cs[f + j], vecs[j])
  }

  predicate FitsIn(c: Chain, v: Vec)
    requires c.Valid()
  {
    v.at == c.at && v.base == c.misalign + c.off && v.len <= c.Space()
  }

  /** What the memory of the chains from `f` on holds in the extents `vecs`. */
  ghost function Pieces(cs: seq<Chain>, f: nat, vecs: seq<Vec>): seq<Byte>
    requires AllValid(cs) && Fits(cs, f, vecs)
  {
    if vecs == [] then [] else
      var n := |vecs| - 1;
      Pieces(cs, f, vecs[..n]) + Piece(cs[f + n], vecs[n].len)
  }

  function Piece(c: Chain, len: nat): (d: seq<Byte>)
    requires c.Valid() && len <= c.Space()
    ensures |d| == len
  {
    c.mem[c.misalign + c.off..c.misalign + c.off + len]
  }

  /** `c` with `len` bytes of its free space counted as data. */
  function Extend(c: Chain, len: nat): (d: Chain)
    requires c.Valid() && len <= c.Space()
    ensures d.Valid() && d.at == c.at && d.off == c.off + len && d.Data() == c.Data() + Piece(c, len)
  {
    c.(off := c.off + len)
  }

  /** Data that becomes visible in an empty chain behind the last chain with data. */
  lemma {:induction false} GrowAt(cs: seq<Chain>, k: nat, j: nat, c: Chain, d: seq<Byte>)
    requires AllValid(cs) && Distinct(cs) && LastWithData(cs, k) && k <= j < |cs|
    requires c.Valid() && c.at == cs[j].at && c.Data() == cs[j].Data() + d
    ensures AllValid(cs[j := c]) && Distinct(cs[j := c]) && Flat(cs[j := c]) == Flat(cs) + d
    ensures SumOff(cs[j := c]) == SumOff(cs) + |d|
    ensures LastWithData(cs[j := c], if d == [] then k else j)
  {
    hide Flat, SumOff;
    UpdateAt(cs, j, c);
    FlatAt(cs, j);
    FlatEmpty(cs[j + 1..]);
    assert Flat(cs[..j]) + ((cs[j].Data() + d) + []) == Flat(cs[..j]) + (cs[j].Data() + []) + d;
  }

  /** One step of the second pass of evbuffer_commit_space. */
  method CommitOne(buf: Evbuffer, j: nat, len: nat)
    requires buf.Valid() && buf.lwd <= j < |buf.chains| && len <= buf.chains[j].Space()
    modifies buf`chains, buf`lwdp, buf`lwd, buf`totalLen
    ensures buf.Valid() && buf.Contents() == old(buf.Contents()) + Piece(old(buf.chains)[j], len)
    ensures buf.chains == old(buf.chains)[j := Extend(old(buf.chains)[j], len)] && buf.lwd <= j
  {
    hide Flat, SumOff, PosOf, Distinct, Chain.Data, Extend, Piece;
    var c := Extend(buf.chains[j], len);
    GrowAt(buf.chains, buf.lwd, j, c, Piece(buf.chains[j], len));
    buf.chains := buf.chains[j := c];
    if len > 0 {
      buf.lwdp := LinkAt(buf.chains, j);
      buf.lwd := j;
    }
    buf.totalLen := buf.totalLen + len;
  }

  /** The single-vector case of evbuffer_commit_space, for space in the last chain. */
  method CommitLast(buf: Evbuffer, len: nat)
    requires buf.Valid() && buf.chains != [] && len <= buf.chains[|buf.chains| - 1].Space()
    modifies buf`chains, buf`lwdp, buf`lwd, buf`totalLen
    ensures buf.Valid() && buf.Contents() == old(buf.Contents()) + Piece(old(buf.chains)[|old(buf.chains)| - 1], len)
  {
    hide Flat, SumOff, PosOf, Distinct, Chain.Data, Extend, Piece;
    var j := |buf.chains| - 1;
    var c := Extend(buf.chains[j], len);
    GrowAt(buf.chains, buf.lwd, j, c, Piece(buf.chains[j], len));
    buf.chains := buf.chains[j := c];
    if len > 0 {
      var _ := AdvanceLastWithData(buf, buf.lwd);
    }
    buf.totalLen := buf.totalLen + len;
  }

  /** evbuffer_commit_space: the committed prefixes are appended in order, or nothing changes. */
  method Commit(buf: Evbuffer, vecs: seq<Vec>) returns (ok: bool, ghost p: nat)
    requires buf.Valid()
    modifies buf`chains, buf`lwdp, buf`lwd, buf`totalLen
    ensures buf.Valid()
    ensures ok <==> !buf.freezeEnd && (vecs == [] || old(Committable(buf.chains, buf.lwd, vecs)))
    ensures !ok || vecs == [] ==> buf.Contents() == old(buf.Contents())
    ensures ok && vecs != [] ==> old(Fits(buf.chains, p, vecs))
    ensures ok && vecs != [] ==> buf.Contents() == old(buf.Contents()) + old(Pieces(buf.chains, p, vecs))
  {
    hide Flat, SumOff, PosOf, Distinct, Chain.Data, Extend, Piece;
    p := 0;
    if buf.freezeEnd {
      return false, 0;
    }
    if vecs == [] {
      return true, 0;
    }
    if buf.chains == [] {
      return false, 0;
    }
    var c := buf.chains[|buf.chains| - 1];
    if |vecs| == 1 && vecs[0].at == c.at && vecs[0].base == c.misalign + c.off {
      p := |buf.chains| - 1;
      OnlyLast(buf.chains, buf.lwd, vecs);
      if vecs[0].len > c.Space() {
        return false, p;
      }
      OnePiece(buf.chains, p, vecs);
      CommitLast(buf, vecs[0].len);
      ok := true;
      return;
    }
    ok, p := CommitMany(buf, vecs);
  }

  /** A vector at the end of the last chain can only be committed there. */
  lemma {:induction false} OnlyLast(cs: seq<Chain>, k: nat, vecs: seq<Vec>)
    requires AllValid(cs) && Distinct(cs) && cs != [] && |vecs| == 1 && k < |cs|
    requires var c := cs[|cs| - 1]; vecs[0].at == c.at && vecs[0].base == c.misalign + c.off
    ensures Committable(cs, k, vecs) <==> vecs[0].len <= cs[|cs| - 1].Space()
  {
    var f := FirstSpace(cs, k);
    if vecs[0].len <= cs[|cs| - 1].Space() {
      assert FitsIn(cs[|cs| - 1 + 0], vecs[0]);
      assert Fits(cs, |cs| - 1, vecs);
    } else {
      assert f < |cs| - 1 ==> !FitsIn(cs[f + 0], vecs[0]);
      assert !FitsIn(cs[|cs| - 1 + 0], vecs[0]);
    }
  }

  lemma {:induction false} OnePiece(cs: seq<Chain>, p: nat, vecs: seq<Vec>)
    requires AllValid(cs) && |vecs| == 1 && p < |cs| && FitsIn(cs[p], vecs[0])
    ensures Fits(cs, p, vecs) && Pieces(cs, p, vecs) == Piece(cs[p], vecs[0].len)
  {
    assert vecs[..0] == [];
    assert Pieces(cs, p, vecs[..0]) == [];
  }

  /** The two passes of evbuffer_commit_space. */
  method CommitMany(buf: Evbuffer, vecs: seq<Vec>) returns (ok: bool, ghost p: nat)
    requires buf.Valid() && vecs != [] && buf.chains != []
    modifies buf`chains, buf`lwdp, buf`lwd, buf`totalLen
    ensures buf.Valid()
    ensures ok <==> old(Fits(buf.chains, FirstSpace(buf.chains, buf.lwd), vecs))
    ensures !ok ==> buf.Contents() == old(buf.Contents())
    ensures ok ==> p == old(FirstSpace(buf.chains, buf.lwd))
    ensures ok ==> buf.Contents() == old(buf.Contents()) + old(Pieces(buf.chains, p, vecs))
  {
    hide Flat, SumOff, PosOf, Distinct, Chain.Data, Extend, Piece, LinkAt;
    TargetOfLink(buf.chains, buf.lwd);
    var f: nat := FirstSpace(buf.chains, Target(buf.chains, buf.lwdp));
    p := f;
    var i := 0;
    while i < |vecs|
      invariant i <= |vecs| && f + i <= |buf.chains|
      invariant forall j :: 0 <= j < i ==> FitsIn(buf.chains[f + j], vecs[j])
    {
      if f + i == |buf.chains| || !FitsIn(buf.chains[f + i], vecs[i]) {
        return false, p;
      }
      i := i + 1;
    }
    CommitAll(buf, f, vecs);
    ok := true;
  }

  /** The second pass of evbuffer_commit_space. */
  method CommitAll(buf: Evbuffer, f: nat, vecs: seq<Vec>)
    requires buf.Valid() && buf.lwd <= f && Fits(buf.chains, f, vecs)
    modifies buf`chains, buf`lwdp, buf`lwd, buf`totalLen
    ensures buf.Valid() && buf.Contents() == old(buf.Contents()) + old(Pieces(buf.chains, f, vecs))
  {
    hide Flat, SumOff, PosOf, Distinct, Chain.Data, Extend, Piece, LinkAt, LastWithData, Pieces;
    ghost var cs, s := buf.chains, buf.Contents();
    PiecesNil(cs, f);
    var i := 0;
    while i < |vecs|
      invariant i <= |vecs| && buf.Valid() && |buf.chains| == |cs| && (i < |vecs| ==> buf.lwd <= f + i)
      invariant forall j :: f + i <= j < |cs| ==> buf.chains[j] == cs[j]
      invariant Fits(cs, f, vecs[..i]) && buf.Contents() == s + Pieces(cs, f, vecs[..i])
    {
      PiecesSnoc(cs, f, vecs, i);
      assert FitsIn(cs[f + i], vecs[i]) && buf.chains[f + i] == cs[f + i];
      CommitOne(buf, f + i, vecs[i].len);
      i := i + 1;
    }
    assert vecs[..i] == vecs;
  }

  lemma {:induction false} PiecesNil(cs: seq<Chain>, f: nat)
    requires AllValid(cs) && f <= |cs|
    ensures forall vs: seq<Vec> :: |vs| == 0 ==> Fits(cs, f, vs) && Pieces(cs, f, vs) == []
  {
  }

  lemma {:induction false} PiecesSnoc(cs: seq<Chain>, f: nat, vecs: seq<Vec>, i: nat)
    requires AllValid(cs) && Fits(cs, f, vecs) && i < |vecs|
    ensures Fits(cs, f, vecs[..i]) && Fits(cs, f, vecs[..i + 1]) && FitsIn(cs[f + i], vecs[i])
    ensures Pieces(cs, f, vecs[..i + 1]) == Pieces(cs, f, vecs[..i]) + Piece(cs[f + i], vecs[i].len)
  {
    assert vecs[..i + 1][..i] == vecs[..i];
    assert FitsIn(cs[f + i], vecs[i]);
  }

  /** When evbuffer_commit_space accepts `vecs`. */
  ghost predicate Committable(cs: seq<Chain>, k: nat, vecs: seq<Vec>)
    requires AllValid(cs)
  {
    cs != [] && ((|vecs| == 1 && Fits(cs, |cs| - 1, vecs)) || Fits(cs, FirstSpace(cs, k), vecs))
  }

  /** The caller's own write at the start of a chain's free space. */
  function Filled(c: Chain, d: seq<Byte>): (e: Chain)
    requires c.Valid() && |d| <= c.Space()
    ensures e.Valid() && e.at == c.at && e.misalign == c.misalign && e.off == c.off && e.immutable == c.immutable
    ensures e.Data() == c.Data() && e.Space() == c.Space() && Piece(e, |d|) == d
  {
    var b := c.misalign + c.off;
    if d == [] then c else c.(mem := c.mem[..b] + d + c.mem[b + |d|..])
  }

  method WriteSpace(buf: Evbuffer, j: nat, d: seq<Byte>)
    requires buf.Valid() && j < |buf.chains| && |d| <= buf.chains[j].Space()
    modifies buf`chains
    ensures buf.Valid() && buf.Contents() == old(buf.Contents())
    ensures buf.chains == old(buf.chains)[j := Filled(old(buf.chains)[j], d)]
  {
    hide Flat, SumOff, Chain.Data, Filled, PosOf;
    var c := Filled(buf.chains[j], d);
    UpdateAt(buf.chains, j, c);
    FlatAt(buf.chains, j);
    buf.chains := buf.chains[j := c];
  }

  lemma {:induction false} PiecesSame(cs: seq<Chain>, ds: seq<Chain>, f: nat, vecs: seq<Vec>)
    requires AllValid(cs) && AllValid(ds) && Fits(cs, f, vecs) && |cs| == |ds|
    requires forall j :: f <= j < f + |vecs| ==> ds[j] == cs[j]
    ensures Fits(ds, f, vecs) && Pieces(ds, f, vecs) == Pieces(cs, f, vecs)
  {
    if vecs != [] {
      var n := |vecs| - 1;
      PiecesSame(cs, ds, f, vecs[..n]);
    }
  }

  /** One extent more. */
  lemma {:induction false} PiecesAdd(cs: seq<Chain>, f: nat, vecs: seq<Vec>, v: Vec)
    requires AllValid(cs) && Fits(cs, f, vecs) && f + |vecs| < |cs| && FitsIn(cs[f + |vecs|], v)
    ensures Fits(cs, f, vecs + [v])
    ensures Pieces(cs, f, vecs + [v]) == Pieces(cs, f, vecs) + Piece(cs[f + |vecs|], v.len)
  {
    var ws := vecs + [v];
    assert Fits(cs, f, ws);
    PiecesSnoc(cs, f, ws, |vecs|);
    assert ws[..|vecs|] == vecs && ws[..|vecs| + 1] == ws;
  }

  /** Spread `data` over reserved extents. */
  method Spread(buf: Evbuffer, f: nat, vecs: seq<Vec>, data: seq<Byte>) returns (filled: seq<Vec>)
    requires buf.Valid() && buf.lwd <= f && Extents(buf.chains, f, vecs)
    requires SpaceFrom(buf.chains, f, |vecs|) >= |data|
    modifies buf`chains
    ensures buf.Valid() && buf.Contents() == old(buf.Contents())
    ensures |filled| == |vecs| && Fits(buf.chains, f, filled) && Pieces(buf.chains, f, filled) == data
    ensures |buf.chains| == |old(buf.chains)|
    ensures forall j :: 0 <= j < |buf.chains| ==> buf.chains[j].Space() == old(buf.chains)[j].Space()
  {
    hide Flat, SumOff, PosOf, Distinct, Chain.Data, Filled, Piece, LinkAt, LastWithData, Pieces, SpaceFrom, Fits;
    ghost var cs := buf.chains;
    filled := [];
    var pos := 0;
    PiecesNil(cs, f);
    SpreadStart(cs, f);
    while |filled| < |vecs|
      invariant |filled| <= |vecs| && buf.Valid() && buf.Contents() == old(buf.Contents()) && |buf.chains| == |cs|
      invariant forall j :: 0 <= j < |cs| ==> buf.chains[j].Space() == cs[j].Space()
      invariant forall j :: f + |filled| <= j < |cs| ==> buf.chains[j] == cs[j]
      invariant pos == Min(SpaceFrom(cs, f, |filled|), |data|)
      invariant Fits(buf.chains, f, filled) && Pieces(buf.chains, f, filled) == data[..pos]
    {
      var v := SpreadOne(buf, f, filled, vecs[|filled|], data, pos, cs);
      filled := filled + [v];
      pos := pos + v.len;
    }
    assert data[..pos] == data;
  }

  /** Fill one reserved extent with the next bytes of `data`. */
  method SpreadOne(buf: Evbuffer, f: nat, filled: seq<Vec>, v: Vec, data: seq<Byte>, pos: nat, ghost cs: seq<Chain>)
    returns (w: Vec)
    requires buf.Valid() && AllValid(cs) && |cs| == |buf.chains| && f + |filled| < |cs|
    requires buf.chains[f + |filled|] == cs[f + |filled|]
    requires var c := cs[f + |filled|]; v == Vec(c.at, c.misalign + c.off, c.Space())
    requires pos == Min(SpaceFrom(cs, f, |filled|), |data|)
    requires Fits(buf.chains, f, filled) && Pieces(buf.chains, f, filled) == data[..pos]
    modifies buf`chains
    ensures buf.Valid() && buf.Contents() == old(buf.Contents())
    ensures |buf.chains| == |cs|
    ensures forall j :: 0 <= j < |cs| ==> buf.chains[j].Space() == old(buf.chains)[j].Space()
    ensures forall j :: f + |filled| < j < |cs| ==> buf.chains[j] == old(buf.chains)[j]
    ensures pos + w.len == Min(SpaceFrom(cs, f, |filled| + 1), |data|)
    ensures Fits(buf.chains, f, filled + [w]) && Pieces(buf.chains, f, filled + [w]) == data[..pos + w.len]
  {
    hide Flat, SumOff, PosOf, Distinct, Chain.Data, Filled, Piece, LinkAt, LastWithData, Pieces, SpaceFrom, Fits;
    var i, n := |filled|, Min(v.len, |data| - pos);
    ghost var before := buf.chains;
    w := v.(len := n);
    WriteSpace(buf, f + i, data[pos..pos + n]);
    PiecesSame(before, buf.chains, f, filled);
    SpreadStep(cs, f, i, data, pos);
    PiecesAdd(buf.chains, f, filled, w);
  }

  lemma {:induction false} SpreadStart(cs: seq<Chain>, f: nat)
    requires AllValid(cs) && f <= |cs|
    ensures SpaceFrom(cs, f, 0) == 0
  {
  }

  lemma {:induction false} SpreadStep(cs: seq<Chain>, f: nat, i: nat, data: seq<Byte>, pos: nat)
    requires AllValid(cs) && f + i < |cs| && pos == Min(SpaceFrom(cs, f, i), |data|)
    ensures var n := Min(cs[f + i].Space(), |data| - pos);
            && pos + n == Min(SpaceFrom(cs, f, i + 1), |data|)
            && data[..pos] + data[pos..pos + n] == data[..pos + n]
  {
  }

  /** Reserving, writing and committing has the effect of evbuffer_add. */
  method AddReserved(buf: Evbuffer, data: seq<Byte>, n: nat) returns (r: Reserved)
    requires buf.Valid() && n >= 2
    modifies buf`chains, buf`last, buf`lwdp, buf`lwd, buf`totalLen
    ensures r.Aborted? <==> !buf.freezeEnd && data == [] && old(Full(buf.chains, buf.lwd))
    ensures r.Refused? ==> buf.freezeEnd || |data| > CHAIN_LIMIT
    ensures buf.Valid() && buf.Contents() == old(buf.Contents()) + if r.Granted? then data else []
  {
    hide Flat, SumOff, PosOf, Distinct, LinkAt, Pieces, SpaceFrom, Fits, Full, Extents;
    r := ReserveMany(buf, |data|, n);
    if r.Granted? {
      var f := FirstSpace(buf.chains, LastDataPos(buf));
      var filled := Spread(buf, f, r.vecs, data);
      ghost var cs := buf.chains;
      var ok, p := Commit(buf, filled);
      if filled != [] {
        OnePlace(cs, f, p, filled);
      } else {
        PiecesNil(cs, f);
      }
    }
  }

  /** The chain last_with_datap points at. */
  function LastDataPos(buf: Evbuffer): (k: nat)
    requires buf.Valid()
    reads buf
    ensures k == buf.lwd
  {
    TargetOfLink(buf.chains, buf.lwd);
    Target(buf.chains, buf.lwdp)
  }

  /** Vectors fit in one place only. */
  lemma {:induction false} OnePlace(cs: seq<Chain>, f: nat, p: nat, vecs: seq<Vec>)
    requires AllValid(cs) && Distinct(cs) && vecs != [] && Fits(cs, f, vecs) && Fits(cs, p, vecs)
    ensures f == p
  {
    assert FitsIn(cs[f + 0], vecs[0]) && FitsIn(cs[p + 0], vecs[0]);
  }

  /** The same with one vector. The commit is refused exactly when the reservation lies neither in
      the first chain with room nor in the last chain. */
  method AddReservedOne(buf: Evbuffer, data: seq<Byte>) returns (r: Reserved, ok: bool)
    requires buf.Valid()
    modifies buf`chains, buf`last, buf`lwdp, buf`lwd, buf`totalLen
    ensures !r.Aborted? && (r.Refused? ==> buf.freezeEnd || |data| > CHAIN_LIMIT - MAX_TO_COPY_IN_EXPAND)
    ensures r.Granted? ==>
              (ok <==> !old(UsesNext(buf.chains, buf.lwd, |data|) && buf.lwd + 2 < |buf.chains|))
    ensures buf.Valid() && buf.Contents() == old(buf.Contents()) + if r.Granted? && ok then data else []
  {
    hide Flat, SumOff, PosOf, Distinct, LinkAt, Pieces, Full, UsesNext;
    ghost var j;
    r, j := ReserveOne(buf, |data|);
    ok := false;
    if r.Granted? {
      var i := PosOf(buf.chains, r.vecs[0].at);
      SameIndex(buf.chains, j);
      ghost var uses := old(UsesNext(buf.chains, buf.lwd, |data|));
      if uses {
        FirstOfNext(buf.chains, buf.lwd, |data|);
      }
      WriteSpace(buf, i, data);
      ghost var cs := buf.chains;
      var v := r.vecs[0].(len := |data|);
      OnePiece(cs, i, [v]);
      CommittableOne(cs, buf.lwd, i, [v]);
      ghost var p;
      ok, p := Commit(buf, [v]);
      if ok {
        OnePlace(cs, i, p, [v]);
      }
    }
  }

  lemma {:induction false} FirstOfNext(cs: seq<Chain>, k: nat, len: nat)
    requires AllValid(cs) && UsesNext(cs, k, len)
    ensures k + 1 < |cs| && FirstSpace(cs, k) == k
  {
  }

  lemma {:induction false} SameIndex(cs: seq<Chain>, j: nat)
    requires Distinct(cs) && j < |cs|
    ensures PosOf(cs, cs[j].at) == j
  {
  }

  lemma {:induction false} CommittableOne(cs: seq<Chain>, k: nat, j: nat, vecs: seq<Vec>)
    requires AllValid(cs) && Distinct(cs) && j < |cs| && |vecs| == 1 && k < |cs| && Fits(cs, j, vecs)
    ensures Committable(cs, k, vecs) <==> j == |cs| - 1 || j == FirstSpace(cs, k)
  {
    if Fits(cs, |cs| - 1, vecs) {
      OnePlace(cs, j, |cs| - 1, vecs);
    }
    if Fits(cs, FirstSpace(cs, k), vecs) {
      OnePlace(cs, j, FirstSpace(cs, k), vecs);
    }
  }

  lemma {:induction false} SomeLengths()
    ensures BufferLen(8100) == 8144 && BufferLen(956) == BufferLen(976) == 976 && BufferLen(980) == 2000
  {
    assert Rounded(8148, 4096) == 8192;
    assert Rounded(8148, 1024) == Rounded(8148, 2048) == 8192;
    assert Rounded(1028, 1024) == 2048;
  }

  /** Adding 8100 bytes and reserving twice with three vectors leaves a buffer whose one-vector
      reservation of 100 bytes cannot be committed. */
  method StrandedReservation() returns (buf: Evbuffer, r: Reserved, ok: bool)
    ensures buf.Valid() && r.Granted? && !ok && |buf.Contents()| == 8100
  {
    hide Flat, SumOff, PosOf, Distinct, Addresses, LinkAt, LastWithData, HasRoom, SpaceFrom, Extents;
    buf := new Evbuffer();
    var added := buf.Add(seq(8100, _ => 0));
    SomeLengths();
    ghost var one := buf.chains;
    OneSpace(one);
    var first := ReserveMany(buf, 1000, 3);
    ghost var two := buf.chains;
    TwoChains(two);
    var second := ReserveMany(buf, 2000, 3);
    assert UsesNext(buf.chains, buf.lwd, 100);
    r, ok := AddReservedOne(buf, seq(100, _ => 0));
  }

  lemma {:induction false} OneSpace(cs: seq<Chain>)
    requires AllValid(cs) && |cs| == 1 && cs[0].off > 0 && cs[0].Space() > 0
    ensures Uses(cs, 0, 1) == 1 && Avail(cs, 0, 1) == cs[0].Space()
  {
    CountsStep(cs, 0, 0);
  }

  lemma {:induction false} TwoChains(cs: seq<Chain>)
    requires AllValid(cs) && |cs| == 2 && cs[0].off > 0 && cs[0].Space() > 0 && cs[1].off == 0
    ensures Uses(cs, 0, 2) == 2 && Avail(cs, 0, 2) == cs[0].Space() + |cs[1].mem|
  {
    CountsStep(cs, 0, 0);
    CountsStep(cs, 0, 1);
  }

  /** Adding 976 bytes fills the first chain; reserving 0 bytes then fails an assertion. */
  method AbortedReservation() returns (buf: Evbuffer, r: Reserved)
    ensures buf.Valid() && |buf.Contents()| == 976 && r.Aborted?
  {
    hide Flat, SumOff, PosOf, Distinct, Addresses, LinkAt, HasRoom, SpaceFrom, Extents;
    buf := new Evbuffer();
    var added := buf.Add(seq(976, _ => 0));
    SomeLengths();
    r := ReserveMany(buf, 0, 2);
  }
}
