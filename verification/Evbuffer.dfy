/** `struct evbuffer`: a byte queue held as a list of chains, updated in place.
    The list threaded through `first` and `next` is the field `chains`; the pointers the C code
    maintains by hand beside it are `last`, `lwdp` (last_with_datap) and `totalLen`. */
module Evbuffers {
  import opened Basics
  import opened Chains

  /** A pointer to a next-pointer: `&buf->first` or `&chain->next`. */
  datatype Link = First | Next(at: Address)

  ghost predicate Distinct(cs: seq<Chain>) {
    forall i, j :: 0 <= i < j < |cs| ==> cs[i].at != cs[j].at
  }

  function LinkAt(cs: seq<Chain>, i: nat): Link
    requires i <= |cs|
  {
    if i == 0 then First else Next(cs[i - 1].at)
  }

  /** Position of the chain living at `a`, or |cs| when no chain lives there. */
  function PosOf(cs: seq<Chain>, a: Address): (i: nat)
    ensures i <= |cs|
    ensures i < |cs| ==> cs[i].at == a
    ensures forall j :: 0 <= j < i ==> cs[j].at != a
  {
    if cs == [] then 0 else if cs[0].at == a then 0 else
      var i := PosOf(cs[1..], a);
      assert forall j :: 0 < j < i + 1 ==> cs[j] == cs[1..][j - 1];
      1 + i
  }

  /** Position of the chain a link points at; |cs| for a null pointer. */
  function Target(cs: seq<Chain>, l: Link): (i: nat)
    requires l.Next? ==> PosOf(cs, l.at) < |cs|
    ensures i <= |cs|
  {
    if l.First? then 0 else PosOf(cs, l.at) + 1
  }

  lemma {:induction false} TargetOfLink(cs: seq<Chain>, i: nat)
    requires Distinct(cs) && i <= |cs|
    ensures LinkAt(cs, i).Next? ==> PosOf(cs, LinkAt(cs, i).at) < |cs|
    ensures Target(cs, LinkAt(cs, i)) == i
  {
    if i > 0 {
      var p := PosOf(cs, cs[i - 1].at);
      assert p <= i - 1;
    }
  }

  ghost function Addresses(cs: seq<Chain>): set<Address> {
    set c | c in cs :: c.at
  }

  /** Where the trailing empty chains start, given the position of the last chain with data. */
  ghost function CutAt(cs: seq<Chain>, k: nat): nat {
    if k < |cs| && cs[k].off != 0 then k + 1 else k
  }

  lemma {:induction false} AddressesAppend(cs: seq<Chain>, ds: seq<Chain>)
    ensures Addresses(cs + ds) == Addresses(cs) + Addresses(ds)
  {
    assert forall c :: c in cs + ds <==> c in cs || c in ds;
  }

  lemma {:induction false} OneAddress(c: Chain)
    ensures Addresses([c]) == {c.at}
  {
    assert c in [c];
  }

  lemma {:induction false} AddressesPart(cs: seq<Chain>, i: nat, j: nat)
    requires i <= j <= |cs|
    ensures Addresses(cs[i..j]) <= Addresses(cs)
  {
  }

  lemma {:induction false} AddressesUpdate(cs: seq<Chain>, i: nat, c: Chain)
    requires i < |cs| && c.at == cs[i].at
    ensures Addresses(cs[i := c]) == Addresses(cs)
  {
    var ds := cs[i := c];
    forall a | a in Addresses(cs) ensures a in Addresses(ds) {
      var j :| 0 <= j < |cs| && cs[j].at == a;
      assert ds[j] in ds;
    }
    forall a | a in Addresses(ds) ensures a in Addresses(cs) {
      var j :| 0 <= j < |ds| && ds[j].at == a;
      assert cs[j] in cs;
    }
  }

  lemma {:induction false} NoAddresses()
    ensures Addresses([]) == {}
  {
  }

  lemma {:induction false} SumOffNil()
    ensures forall cs: seq<Chain> :: |cs| == 0 ==> SumOff(cs) == 0
  {
  }

  lemma {:induction false} SkipAddresses(cs: seq<Chain>, i: nat, r: nat)
    requires AllValid(cs) && i < |cs| && r < cs[i].off
    ensures Addresses([cs[i].Skip(r)]) + Addresses(cs[i + 1..]) <= Addresses(cs)
  {
    OneAddress(cs[i].Skip(r));
    AddressesPart(cs, i + 1, |cs|);
    assert cs[i] in cs;
  }

  lemma {:induction false} LinkIsNext(cs: seq<Chain>, k: nat, i: nat)
    requires Distinct(cs) && k <= |cs| && i < |cs|
    ensures LinkAt(cs, k) == Next(cs[i].at) <==> k == i + 1
    ensures LinkAt(cs, k) == First <==> k == 0
  {
  }

  lemma {:induction false} FrontLinks(c: Chain, cs: seq<Chain>, k: nat)
    requires Distinct(cs) && c.at !in Addresses(cs) && k < |cs|
    ensures Distinct([c] + cs)
    ensures LinkAt([c] + cs, k + 1) == if k == 0 then Next(c.at) else LinkAt(cs, k)
    ensures LinkAt(cs, k) == First <==> k == 0
    ensures LinkAt([c] + cs, 0) == First
  {
    forall i | 0 <= i < |cs| ensures cs[i].at in Addresses(cs) {
      assert cs[i] in cs;
    }
  }

  lemma {:induction false} SkipLinks(cs: seq<Chain>, i: nat, r: nat, k: nat)
    requires AllValid(cs) && Distinct(cs) && i < |cs| && r < cs[i].off && i <= k < |cs|
    ensures Distinct([cs[i].Skip(r)] + cs[i + 1..])
    ensures LinkAt([cs[i].Skip(r)] + cs[i + 1..], k - i) == if k == i then First else LinkAt(cs, k)
    ensures ([cs[i].Skip(r)] + cs[i + 1..])[|cs| - i - 1].at == cs[|cs| - 1].at
  {
  }

  /** Fewer bytes than the list holds end before the list does, and before its last chain
      with data. */
  lemma {:induction false} StopsInside(cs: seq<Chain>, i: nat, len: nat)
    requires AllValid(cs) && len < SumOff(cs) && i < |cs|
    requires len - SumOff(cs[..i]) >= cs[i].off
    ensures i + 1 < |cs|
    ensures forall k :: LastWithData(cs, k) ==> i < k
  {
    hide Flat, SumOff;
    FlatSplit(cs, i + 1);
    FlatSnoc(cs, i);
    if AllEmpty(cs[i + 1..]) {
      FlatEmpty(cs[i + 1..]);
    }
    forall k | LastWithData(cs, k) ensures i < k {
    }
  }

  /** Replacing one chain by another living at the same address. */
  lemma {:induction false} UpdateAt(cs: seq<Chain>, i: nat, c: Chain)
    requires Distinct(cs) && AllValid(cs) && i < |cs| && c.Valid() && c.at == cs[i].at
    ensures Distinct(cs[i := c]) && AllValid(cs[i := c])
    ensures Flat(cs[i := c]) == Flat(cs[..i]) + (c.Data() + Flat(cs[i + 1..]))
    ensures SumOff(cs[i := c]) == SumOff(cs) - cs[i].off + c.off
  {
    var ds := cs[i := c];
    FlatAt(cs, i);
    FlatAt(ds, i);
    assert ds[..i] == cs[..i] && ds[i + 1..] == cs[i + 1..];
  }

  lemma {:induction false} LastInside(cs: seq<Chain>, k: nat)
    requires LastWithData(cs, k)
    ensures k <= CutAt(cs, k) <= |cs| && (k == |cs| ==> cs == [])
  {
  }

  /** The list after a new chain replaced the trailing empty chains. */
  lemma {:induction false} InsertAtCut(cs: seq<Chain>, k: nat, c: Chain)
    requires Distinct(cs) && AllValid(cs) && LastWithData(cs, k)
    requires c.Valid() && c.at !in Addresses(cs)
    ensures var m := CutAt(cs, k);
            var ds := cs[..m] + [c];
            && Distinct(ds) && AllValid(ds)
            && Flat(ds) == Flat(cs) + c.Data()
            && SumOff(ds) == SumOff(cs) + c.off
            && LastWithData(ds, if c.off > 0 then m else k)
            && LinkAt(ds, k) == LinkAt(cs, k) && LinkAt(ds, m) == LinkAt(cs[..m], m)
  {
    hide Flat, SumOff;
    var m := CutAt(cs, k);
    FlatUpTo(cs, k, m);
    FlatSplit(cs, m);
    FlatEmpty(cs[m..]);
    FlatOne(c);
    FlatAppend(cs[..m], [c]);
    SumOffAppend(cs[..m], [c]);
    forall i | 0 <= i < m ensures cs[i].at in Addresses(cs) {
      assert cs[i] in cs;
    }
  }

  class Evbuffer {
    var chains: seq<Chain>
    var last: Address?
    var lwdp: Link
    var totalLen: nat
    var freezeStart: bool
    var freezeEnd: bool
    ghost var lwd: nat  // position of the last chain with data

    /** The invariant documented with the structure. */
    ghost predicate Valid()
      reads this
    {
      && Distinct(chains)
      && AllValid(chains)
      && last == (if chains == [] then null else chains[|chains| - 1].at)
      && totalLen == SumOff(chains)
      && LastWithData(chains, lwd)
      && lwdp == LinkAt(chains, lwd)
    }

    ghost function Contents(): (bytes: seq<Byte>)
      requires Valid()
      reads this
      ensures |bytes| == totalLen
    {
      FlatLength(chains);
      Flat(chains)
    }

    constructor ()
      ensures Valid() && Contents() == [] && chains == [] && !freezeStart && !freezeEnd
    {
      chains, last, lwdp, totalLen, freezeStart, freezeEnd := [], null, First, 0, false, false;
      lwd := 0;
    }

    ghost function Cut(): nat
      reads this
    {
      CutAt(chains, lwd)
    }

    method FreeTrailingEmptyChains() returns (chp: Link)
      requires Valid()
      modifies this`chains
      ensures chains == old(chains)[..old(Cut())]
      ensures chp == LinkAt(chains, |chains|)
      ensures Flat(chains) == old(Contents())
    {
      TargetOfLink(chains, lwd);
      var i := Target(chains, lwdp);
      while i < |chains| && chains[i].off != 0
        invariant lwd <= i <= Cut() <= |chains|
      {
        i := i + 1;
      }
      FlatUpTo(chains, lwd, i);
      chp := LinkAt(chains, i);
      chains := chains[..i];
    }

    /** A new chain that is not in this buffer. */
    method Alloc(size: nat) returns (r: Option<Chain>)
      ensures r.None? <==> size > CHAIN_LIMIT
      ensures r.Some? ==>
                && fresh(r.value.at) && r.value.at !in Addresses(chains)
                && r.value.Valid() && !r.value.immutable
                && r.value.misalign == 0 && r.value.off == 0 && |r.value.mem| == BufferLen(size)
    {
      r := ChainNew(size);
    }

    /** evbuffer_chain_insert */
    method ChainInsert(chain: Chain)
      requires Valid() && chain.Valid() && chain.at !in Addresses(chains)
      modifies this`chains, this`last, this`lwdp, this`lwd, this`totalLen
      ensures Valid() && Contents() == old(Contents()) + chain.Data()
      ensures chains == old(chains)[..old(Cut())] + [chain]
      ensures Addresses(chains) <= old(Addresses(chains)) + {chain.at}
      ensures lwd == if chain.off > 0 then old(Cut()) else old(lwd)
    {
      hide Flat, SumOff, Distinct, AllValid, PosOf, Addresses, LinkAt, LastWithData, CutAt;
      LastInside(chains, lwd);
      assert Addresses([chain]) == {chain.at} by { OneAddress(chain); }
      InsertAtCut(chains, lwd, chain);
      AddressesAppend(chains[..Cut()], [chain]);
      AddressesPart(chains, 0, Cut());
      TargetOfLink(chains, lwd);
      if Target(chains, lwdp) == |chains| {
        chains := [chain];
        assert chains == old(chains)[..0] + [chain];
        last := chain.at;
      } else {
        var chp := FreeTrailingEmptyChains();
        chains := chains + [chain];
        if chain.off > 0 {
          lwdp := chp;
        }
        last := chain.at;
      }
      lwd := if chain.off > 0 then old(Cut()) else lwd;
      totalLen := totalLen + chain.off;
    }

    /** Copy `d` behind the data of the last chain with data, leaving `c` there. */
    method StoreLast(c: Chain, d: seq<Byte>)
      requires Valid() && lwd < |chains| && c.Valid() && c.at == chains[lwd].at
      requires c.Data() == chains[lwd].Data() + d
      modifies this`chains, this`totalLen
      ensures Valid() && Contents() == old(Contents()) + d
      ensures chains == old(chains)[lwd := c] && Addresses(chains) == old(Addresses(chains))
    {
      hide Flat, SumOff, PosOf;
      GrowLast(chains, lwd, c, d);
      AddressesUpdate(chains, lwd, c);
      TargetOfLink(chains, lwd);
      chains := chains[Target(chains, lwdp) := c];
      totalLen := totalLen + |d|;
    }

    /** evbuffer_add */
    method Add(data: seq<Byte>) returns (ok: bool)
      requires Valid()
      modifies this`chains, this`last, this`lwdp, this`lwd, this`totalLen
      ensures Valid() && Contents() == old(Contents()) + if ok then data else []
      ensures ok <==> !freezeEnd && |data| <= SIZE_MAX - old(totalLen) && |data| <= CHAIN_LIMIT
      ensures ok && old(chains) == [] ==>
                lwd == 0 && |chains| == 1 && !chains[0].immutable && chains[0].misalign == 0 && chains[0].off == |data|
                && |chains[0].mem| == BufferLen(|data|)
      ensures forall a :: a in Addresses(chains) && a !in old(Addresses(chains)) ==> fresh(a)
    {
      hide Flat, SumOff, PosOf, Distinct, Addresses, BufferLen;
      if freezeEnd || |data| > SIZE_MAX - totalLen {
        return false;
      }
      TargetOfLink(chains, lwd);
      if Target(chains, lwdp) == |chains| {
        var n := Alloc(|data|);
        if n.None? {
          return false;
        }
        ChainInsert(n.value);
      }
      ok := AddToLast(data);
    }

    /** The part of evbuffer_add that starts from the last chain with data. */
    method AddToLast(data: seq<Byte>) returns (ok: bool)
      requires Valid() && chains != []
      modifies this`chains, this`last, this`lwdp, this`lwd, this`totalLen
      ensures Valid() && Contents() == old(Contents()) + if ok then data else []
      ensures ok <==> |data| <= CHAIN_LIMIT
      ensures old(!chains[lwd].immutable && |data| <= chains[lwd].Space()) ==>
                lwd == old(lwd) && chains == old(chains)[lwd := old(chains[lwd]).Put(data)]
      ensures forall a :: a in Addresses(chains) && a !in old(Addresses(chains)) ==> fresh(a)
    {
      hide Flat, SumOff, PosOf, Distinct, Addresses;
      TargetOfLink(chains, lwd);
      var chain := chains[Target(chains, lwdp)];
      var remain := 0;
      if !chain.immutable {
        remain := chain.Space();
        if remain >= |data| {
          StoreLast(chain.Put(data), data);
          return true;
        } else if chain.ShouldRealign(|data|) {
          StoreLast(chain.Align().Put(data), data);
          return true;
        }
      }
      ok := AddInNewChain(data, remain);
    }

    /** Fill the `remain` bytes of the last chain with data and put the rest in a new chain. */
    method AddInNewChain(data: seq<Byte>, remain: nat) returns (ok: bool)
      requires Valid() && chains != [] && remain == chains[lwd].Space() <= |data|
      modifies this`chains, this`last, this`lwdp, this`lwd, this`totalLen
      ensures Valid() && Contents() == old(Contents()) + if ok then data else []
      ensures ok <==> |data| <= CHAIN_LIMIT
      ensures forall a :: a in Addresses(chains) && a !in old(Addresses(chains)) ==> fresh(a)
    {
      hide Flat, SumOff, PosOf, Distinct, Addresses, Chain.Put, Chain.Data;
      TargetOfLink(chains, lwd);
      var chain := chains[Target(chains, lwdp)];
      var toAlloc := |chain.mem|;
      if toAlloc <= MAX_AUTO_SIZE / 2 {
        toAlloc := 2 * toAlloc;
      }
      if |data| > toAlloc {
        toAlloc := |data|;
      }
      var tmp := Alloc(toAlloc);
      if tmp.None? {
        return false;
      }
      if remain > 0 {
        StoreLast(chain.Put(data[..remain]), data[..remain]);
      }
      assert tmp.value.Data() == [];
      TwoParts(old(Contents()), data, remain);
      ChainInsert(tmp.value.Put(data[remain..]));
      ok := true;
    }

    /** Room in front of the data of the first chain. */
    ghost function Headroom(): nat
      requires Valid()
      reads this
    {
      if chains == [] || chains[0].immutable then 0
      else if chains[0].off == 0 then |chains[0].mem|
      else chains[0].misalign
    }

    /** Copy `d` in front of the data of the first chain, leaving `c` there. */
    method StoreFirst(c: Chain, d: seq<Byte>)
      requires Valid() && chains != [] && c.Valid() && c.at == chains[0].at
      requires c.Data() == d + chains[0].Data()
      modifies this`chains, this`totalLen
      ensures Valid() && Contents() == d + old(Contents())
      ensures chains == old(chains)[0 := c] && Addresses(chains) == old(Addresses(chains))
    {
      hide Flat, SumOff, PosOf;
      GrowFirst(chains, lwd, c, d);
      AddressesUpdate(chains, 0, c);
      chains := chains[0 := c];
      totalLen := totalLen + |d|;
    }

    /** Link a chain with data in front of a non-empty list. */
    method LinkFront(tmp: Chain)
      requires Valid() && chains != [] && tmp.Valid() && tmp.off > 0 && tmp.at !in Addresses(chains)
      modifies this`chains, this`lwdp, this`lwd, this`totalLen
      ensures Valid() && Contents() == tmp.Data() + old(Contents())
      ensures Addresses(chains) == old(Addresses(chains)) + {tmp.at}
    {
      hide Flat, SumOff, PosOf, Distinct, LinkAt, Addresses, AllValid;
      PushFront(chains, lwd, tmp);
      AddressesAppend([tmp], chains);
      OneAddress(tmp);
      FrontLinks(tmp, chains, lwd);
      if lwdp == First && chains[0].off > 0 {
        lwdp := Next(tmp.at);
      }
      lwd := if chains[lwd].off > 0 then lwd + 1 else 0;
      chains := [tmp] + chains;
      totalLen := totalLen + tmp.off;
    }

    /** evbuffer_prepend. When the last allocation is refused, the tail of `data` that fitted
        in front of the first chain stays in the buffer although the call fails. */
    method Prepend(data: seq<Byte>) returns (ok: bool)
      requires Valid()
      modifies this`chains, this`last, this`lwdp, this`lwd, this`totalLen
      ensures Valid()
      ensures ok <==> data == [] || (!freezeStart && |data| <= SIZE_MAX - old(totalLen)
                                     && |data| - old(Headroom()) <= CHAIN_LIMIT)
      ensures Contents() ==
              (if ok then data
               else if freezeStart || |data| > SIZE_MAX - old(totalLen) then []
               else data[|data| - old(Headroom())..]) + old(Contents())
      ensures ok && data != [] && old(chains) == [] ==> Headroom() == BufferLen(|data|) - |data|
      ensures forall a :: a in Addresses(chains) && a !in old(Addresses(chains)) ==> fresh(a)
    {
      hide Flat, SumOff, PosOf, Distinct, Addresses, BufferLen;
      if data == [] {
        return true;
      }
      if freezeStart || |data| > SIZE_MAX - totalLen {
        return false;
      }
      if chains == [] {
        var n := Alloc(|data|);
        if n.None? {
          return false;
        }
        ChainInsert(n.value);
      }
      ok := PrependToFirst(data);
    }

    /** The part of evbuffer_prepend that starts from the first chain. */
    method PrependToFirst(data: seq<Byte>) returns (ok: bool)
      requires Valid() && data != [] && chains != []
      modifies this`chains, this`lwdp, this`lwd, this`totalLen
      ensures Valid()
      ensures ok <==> |data| - old(Headroom()) <= CHAIN_LIMIT
      ensures Contents() == (if ok then data else data[|data| - old(Headroom())..]) + old(Contents())
      ensures |data| <= old(Headroom()) ==> Headroom() == old(Headroom()) - |data|
      ensures forall a :: a in Addresses(chains) && a !in old(Addresses(chains)) ==> fresh(a)
    {
      hide Flat, SumOff, PosOf, Distinct, Addresses, Chain.PutFront, Chain.OpenFront, Chain.Data;
      var chain := chains[0];
      var rest := data;
      if !chain.immutable {
        chain := chain.OpenFront();
        if chain.misalign >= |data| {
          StoreFirst(chain.PutFront(data), data);
          return true;
        } else if chain.misalign > 0 {
          rest := data[..|data| - chain.misalign];
          var tail := data[|data| - chain.misalign..];
          StoreFirst(chain.PutFront(tail), tail);
          assert data == rest + tail;
        }
      }
      var tmp := Alloc(|rest|);
      if tmp.None? {
        return false;
      }
      assert tmp.value.Data() == [];
      LinkFront(tmp.value.OpenFront().PutFront(rest));
      ok := true;
    }

    /** ZERO_CHAIN */
    method ZeroChain()
      modifies this`chains, this`last, this`lwdp, this`lwd, this`totalLen
      ensures Valid() && chains == [] && Contents() == []
    {
      chains, last, lwdp, lwd, totalLen := [], null, First, 0, 0;
    }

    /** evbuffer_drain */
    method Drain(len: nat) returns (ok: bool)
      requires Valid()
      modifies this`chains, this`last, this`lwdp, this`lwd, this`totalLen
      ensures Valid()
      ensures ok <==> old(totalLen) == 0 || !freezeStart
      ensures Contents() == old(Contents())[if ok then Min(len, old(totalLen)) else 0..]
      ensures Addresses(chains) <= old(Addresses(chains))
    {
      hide Flat, SumOff, PosOf, Addresses, Distinct, AllValid;
      if totalLen == 0 {
        return true;
      }
      if freezeStart {
        return false;
      }
      if len >= totalLen {
        ZeroChain();
        NoAddresses();
      } else {
        DrainSome(len);
      }
      ok := true;
    }

    /** The loop of evbuffer_drain, for fewer bytes than the buffer holds. */
    method DrainSome(len: nat)
      requires Valid() && len < totalLen
      modifies this`chains, this`lwdp, this`lwd, this`totalLen
      ensures Valid() && Contents() == old(Contents())[len..]
      ensures Addresses(chains) <= old(Addresses(chains))
    {
      hide Flat, SumOff, PosOf, Addresses, Distinct, LinkAt, Chain.Skip, Chain.Data;
      totalLen := totalLen - len;
      var remaining: nat, i := len, 0;
      SumOffNil();
      LinkIsNext(chains, lwd, 0);
      while remaining >= chains[i].off
        modifies this`lwdp
        invariant i < |chains| && remaining == len - SumOff(chains[..i])
        invariant i <= lwd < |chains| && lwdp == if lwd == i then First else LinkAt(chains, lwd)
        decreases |chains| - i
      {
        StopsInside(chains, i, len);
        FlatSnoc(chains, i);
        LinkIsNext(chains, lwd, i);
        remaining := remaining - chains[i].off;
        if lwdp == Next(chains[i].at) {
          lwdp := First;
        }
        i := i + 1;
      }
      DropFront(chains, lwd, i, remaining);
      AddressesAppend([chains[i].Skip(remaining)], chains[i + 1..]);
      SkipAddresses(chains, i, remaining);
      SkipLinks(chains, i, remaining, lwd);
      lwd := lwd - i;
      chains := [chains[i].Skip(remaining)] + chains[i + 1..];
    }

    /** Move the start of the first chain's data past its first `n` bytes. */
    method SkipFirst(n: nat)
      requires Valid() && chains != [] && n < chains[0].off
      modifies this`chains, this`totalLen
      ensures Valid() && Contents() == old(Contents())[n..]
      ensures Addresses(chains) <= old(Addresses(chains))
    {
      hide Flat, SumOff, PosOf, Addresses, Distinct, LinkAt, Chain.Skip, Chain.Data;
      SumOffNil();
      DropFront(chains, lwd, 0, n);
      AddressesAppend([chains[0].Skip(n)], chains[1..]);
      SkipAddresses(chains, 0, n);
      SkipLinks(chains, 0, n, lwd);
      LinkIsNext(chains, lwd, 0);
      chains := [chains[0].Skip(n)] + chains[1..];
      totalLen := totalLen - n;
    }

    /** evbuffer_add_reference: the caller's memory becomes a read-only chain. */
    method AddReference(data: seq<Byte>) returns (ok: bool)
      requires Valid() && |data| <= CHAIN_LIMIT
      modifies this`chains, this`last, this`lwdp, this`lwd, this`totalLen
      ensures Valid() && ok == !freezeEnd
      ensures Contents() == old(Contents()) + if ok then data else []
      ensures forall a :: a in Addresses(chains) && a !in old(Addresses(chains)) ==> fresh(a)
    {
      if freezeEnd {
        return false;
      }
      var at := new Address();
      ChainInsert(Chain(at, data, 0, |data|, true));
      ok := true;
    }
  }

  /** A prepend that fails and still changes the buffer: 10 bytes leave 966 bytes of room in front, and
      967 bytes more than a chain may hold leave their last 966 bytes there. */
  method PartialPrepend() returns (buf: Evbuffer, ok: bool)
    ensures buf.Valid() && !ok && |buf.Contents()| == 976
  {
    hide Flat, SumOff, PosOf, Distinct, Addresses, LastWithData, LinkAt, Evbuffer.Headroom;
    buf := new Evbuffer();
    assert buf.totalLen == 0;
    var first := buf.Prepend(seq(10, _ => 0));
    assert BufferLen(10) == 976;
    ok := buf.Prepend(seq(CHAIN_LIMIT + 967, _ => 0));
  }
}
