/** Operations that splice the chains of one evbuffer into another, and evbuffer_pullup. */
module EvbufferMoves {
  import opened Basics
  import opened Chains
  import opened Evbuffers

  /** Two buffers never share a chain. */
  ghost predicate Separate(a: Evbuffer, b: Evbuffer)
    reads a, b
  {
    a != b ==> Addresses(a.chains) !! Addresses(b.chains)
  }

  /** `ds` linked behind `cs`, both without repeated chains. */
  lemma {:induction false} JoinLinks(cs: seq<Chain>, ds: seq<Chain>, j: nat)
    requires Distinct(cs) && Distinct(ds) && Addresses(cs) !! Addresses(ds) && j < |ds|
    ensures Distinct(cs + ds)
    ensures LinkAt(cs + ds, |cs| + j) == if j == 0 then LinkAt(cs, |cs|) else LinkAt(ds, j)
    ensures LinkAt(ds, j) == First <==> j == 0
  {
    forall i | 0 <= i < |cs| ensures cs[i].at in Addresses(cs) {
      assert cs[i] in cs;
    }
    forall i | 0 <= i < |ds| ensures ds[i].at in Addresses(ds) {
      assert ds[i] in ds;
    }
  }

  /** The bytes and the last chain with data of two joined lists, the second holding data. */
  lemma {:induction false} JoinData(cs: seq<Chain>, ds: seq<Chain>, j: nat)
    requires AllValid(cs) && AllValid(ds) && LastWithData(ds, j) && SumOff(ds) > 0
    ensures AllValid(cs + ds) && Flat(cs + ds) == Flat(cs) + Flat(ds)
    ensures SumOff(cs + ds) == SumOff(cs) + SumOff(ds)
    ensures LastWithData(cs + ds, |cs| + j) && j < |ds|
  {
    hide Flat, SumOff;
    LastHasData(ds, j);
    FlatAppend(cs, ds);
    SumOffAppend(cs, ds);
  }

  /** COPY_CHAIN, after the empty chains of `dst` were freed. */
  method CopyChain(dst: Evbuffer, src: Evbuffer)
    requires src.Valid() && dst != src
    modifies dst`chains, dst`last, dst`lwdp, dst`lwd, dst`totalLen
    ensures dst.Valid() && dst.chains == src.chains
  {
    dst.chains := src.chains;
    if src.lwdp == First {
      dst.lwdp := First;
    } else {
      dst.lwdp := src.lwdp;
    }
    dst.last, dst.totalLen, dst.lwd := src.last, src.totalLen, src.lwd;
  }

  /** APPEND_CHAIN */
  method AppendChain(dst: Evbuffer, src: Evbuffer)
    requires dst.Valid() && src.Valid() && dst != src && Separate(dst, src) && src.totalLen > 0
    modifies dst`chains, dst`last, dst`lwdp, dst`lwd, dst`totalLen
    ensures dst.Valid() && dst.Contents() == old(dst.Contents()) + src.Contents()
    ensures Addresses(dst.chains) <= old(Addresses(dst.chains)) + Addresses(src.chains)
  {
    hide Flat, SumOff, Distinct, Addresses, AllValid, PosOf, LinkAt;
    AddressesPart(dst.chains, 0, dst.Cut());
    TrimTotal(dst.chains, dst.lwd);
    var chp := dst.FreeTrailingEmptyChains();
    ghost var m := |dst.chains|;
    assert dst.chains == old(dst.chains)[..m];
    DistinctPart(old(dst.chains), 0, m);
    JoinData(dst.chains, src.chains, src.lwd);
    JoinLinks(dst.chains, src.chains, src.lwd);
    AddressesAppend(dst.chains, src.chains);
    dst.chains := dst.chains + src.chains;
    if src.lwdp == First {
      dst.lwdp := chp;
    } else {
      dst.lwdp := src.lwdp;
    }
    dst.last := src.last;
    dst.totalLen := dst.totalLen + src.totalLen;
    dst.lwd := m + src.lwd;
  }

  lemma {:induction false} DistinctPart(cs: seq<Chain>, i: nat, j: nat)
    requires Distinct(cs) && i <= j <= |cs|
    ensures Distinct(cs[i..j])
  {
  }

  lemma {:induction false} TrimTotal(cs: seq<Chain>, k: nat)
    requires AllValid(cs) && LastWithData(cs, k)
    ensures CutAt(cs, k) <= |cs| && AllValid(cs[..CutAt(cs, k)])
    ensures SumOff(cs[..CutAt(cs, k)]) == SumOff(cs)
  {
    hide Flat, SumOff;
    var m := CutAt(cs, k);
    FlatSplit(cs, m);
    FlatEmpty(cs[m..]);
  }

  /** PREPEND_CHAIN. Its caller copies instead when `dst` has no data, so `*dst->last_with_datap`
      is never null here. */
  method PrependChain(dst: Evbuffer, src: Evbuffer)
    requires dst.Valid() && src.Valid() && dst != src && Separate(dst, src)
    requires src.totalLen > 0 && dst.totalLen > 0
    modifies dst`chains, dst`lwdp, dst`lwd, dst`totalLen
    ensures dst.Valid() && dst.Contents() == src.Contents() + old(dst.Contents())
    ensures Addresses(dst.chains) == old(Addresses(dst.chains)) + Addresses(src.chains)
  {
    hide Flat, SumOff, Distinct, Addresses, AllValid, PosOf;
    JoinData(src.chains, dst.chains, dst.lwd);
    JoinLinks(src.chains, dst.chains, dst.lwd);
    AddressesAppend(src.chains, dst.chains);
    SumOffNil();
    dst.chains := src.chains + dst.chains;
    dst.totalLen := dst.totalLen + src.totalLen;
    if dst.lwdp == First {
      dst.lwdp := Next(src.last);
    }
    dst.lwd := |src.chains| + dst.lwd;
  }

  /** evbuffer_add_buffer */
  method AddBuffer(dst: Evbuffer, src: Evbuffer) returns (ok: bool)
    requires dst.Valid() && src.Valid() && Separate(dst, src)
    modifies dst, src
    ensures dst.Valid() && src.Valid() && Separate(dst, src)
    ensures ok <==> old(src.totalLen) == 0 || dst == src || (!dst.freezeEnd && !src.freezeStart)
    ensures dst != src ==> dst.Contents() == old(dst.Contents()) + if ok then old(src.Contents()) else []
    ensures dst != src ==> src.Contents() == if ok then [] else old(src.Contents())
    ensures dst == src ==> dst.Contents() == old(dst.Contents())
    ensures Addresses(dst.chains) <= old(Addresses(dst.chains) + Addresses(src.chains))
    ensures Addresses(src.chains) <= old(Addresses(src.chains))
    ensures unchanged(dst`freezeStart, dst`freezeEnd, src`freezeStart, src`freezeEnd)
  {
    hide Flat, SumOff, Distinct, Addresses, AllValid, PosOf;
    if src.totalLen == 0 || dst == src {
      return true;
    }
    if dst.freezeEnd || src.freezeStart {
      return false;
    }
    if dst.totalLen == 0 {
      CopyChain(dst, src);
    } else {
      AppendChain(dst, src);
    }
    src.ZeroChain();
    NoAddresses();
    ok := true;
  }

  /** evbuffer_prepend_buffer */
  method PrependBuffer(dst: Evbuffer, src: Evbuffer) returns (ok: bool)
    requires dst.Valid() && src.Valid() && Separate(dst, src)
    modifies dst, src
    ensures dst.Valid() && src.Valid() && Separate(dst, src)
    ensures ok <==> old(src.totalLen) == 0 || dst == src || (!dst.freezeStart && !src.freezeStart)
    ensures dst != src ==> dst.Contents() == (if ok then old(src.Contents()) else []) + old(dst.Contents())
    ensures dst != src ==> src.Contents() == if ok then [] else old(src.Contents())
    ensures dst == src ==> dst.Contents() == old(dst.Contents())
    ensures Addresses(dst.chains) <= old(Addresses(dst.chains) + Addresses(src.chains))
    ensures Addresses(src.chains) <= old(Addresses(src.chains))
    ensures unchanged(dst`freezeStart, dst`freezeEnd, src`freezeStart, src`freezeEnd)
  {
    hide Flat, SumOff, Distinct, Addresses, AllValid, PosOf;
    if src.totalLen == 0 || dst == src {
      return true;
    }
    if dst.freezeStart || src.freezeStart {
      return false;
    }
    if dst.totalLen == 0 {
      CopyChain(dst, src);
    } else {
      PrependChain(dst, src);
    }
    src.ZeroChain();
    NoAddresses();
    ok := true;
  }

  /** advance_last_with_data: `p` is where the search starts. */
  method AdvanceLastWithData(buf: Evbuffer, ghost p: nat) returns (n: nat)
    requires Distinct(buf.chains) && p <= |buf.chains| && buf.lwdp == LinkAt(buf.chains, p)
    requires if buf.chains == [] then p == 0 else p < |buf.chains| && (p > 0 ==> buf.chains[p].off > 0)
    modifies buf`lwdp, buf`lwd
    ensures LastWithData(buf.chains, buf.lwd) && buf.lwdp == LinkAt(buf.chains, buf.lwd)
    ensures n == if buf.chains == [] then 0 else |buf.chains| - 1 - p
  {
    hide PosOf, Distinct;
    TargetOfLink(buf.chains, p);
    var i := Target(buf.chains, buf.lwdp);
    n := 0;
    buf.lwd := p;
    if i == |buf.chains| {
      return;
    }
    while i + 1 < |buf.chains|
      invariant p <= buf.lwd <= i < |buf.chains| && n == i - p
      invariant buf.lwdp == LinkAt(buf.chains, buf.lwd)
      invariant buf.lwd > 0 ==> buf.chains[buf.lwd].off > 0
      invariant forall j :: buf.lwd < j <= i ==> buf.chains[j].off == 0
    {
      i := i + 1;
      if buf.chains[i].off != 0 {
        buf.lwdp := LinkAt(buf.chains, i);
        buf.lwd := i;
      }
      n := n + 1;
    }
  }

  /** The chains evbuffer_remove_buffer can move as a whole: `i` of them, holding `n` bytes. */
  method WholeChains(src: Evbuffer, datlen: nat) returns (i: nat, n: nat)
    requires src.Valid() && datlen < src.totalLen
    modifies src`lwdp
    ensures i <= src.lwd < |src.chains| && n == SumOff(src.chains[..i]) <= datlen
    ensures datlen - n < src.chains[i].off
    ensures src.lwdp == if src.lwd == i then First else LinkAt(src.chains, src.lwd)
  {
    hide Flat, SumOff, PosOf, Addresses, Distinct, LinkAt;
    i, n := 0, 0;
    SumOffNil();
    LinkIsNext(src.chains, src.lwd, 0);
    while src.chains[i].off <= datlen - n
      modifies src`lwdp
      invariant i <= src.lwd < |src.chains| && n == SumOff(src.chains[..i]) <= datlen
      invariant src.lwdp == if src.lwd == i then First else LinkAt(src.chains, src.lwd)
      decreases |src.chains| - i
    {
      StopsInside(src.chains, i, datlen);
      FlatSnoc(src.chains, i);
      LinkIsNext(src.chains, src.lwd, i);
      n := n + src.chains[i].off;
      if src.lwdp == Next(src.chains[i].at) {
        src.lwdp := First;
      }
      i := i + 1;
    }
  }

  /** Cutting a list before its last chain with data. */
  lemma {:induction false} CutLinks(cs: seq<Chain>, k: nat, i: nat)
    requires AllValid(cs) && Distinct(cs) && LastWithData(cs, k) && i <= k < |cs|
    ensures AllValid(cs[i..]) && Distinct(cs[i..]) && LastWithData(cs[i..], k - i)
    ensures LinkAt(cs[i..], k - i) == if k == i then First else LinkAt(cs, k)
  {
  }

  lemma {:induction false} CutAddresses(cs: seq<Chain>, i: nat)
    requires Distinct(cs) && i <= |cs|
    ensures Addresses(cs[..i]) !! Addresses(cs[i..])
    ensures Addresses(cs[..i]) + Addresses(cs[i..]) == Addresses(cs)
  {
    assert cs == cs[..i] + cs[i..];
    AddressesAppend(cs[..i], cs[i..]);
  }

  /** Link the first `i` chains of `src` behind `dst`. */
  method SpliceFront(src: Evbuffer, dst: Evbuffer, i: nat, n: nat)
    requires dst != src && dst.Valid() && Separate(dst, src)
    requires Distinct(src.chains) && AllValid(src.chains) && 0 < i <= |src.chains|
    requires n == SumOff(src.chains[..i])
    modifies dst`chains, dst`last, dst`lwdp, dst`lwd, dst`totalLen
    ensures dst.Valid() && dst.Contents() == old(dst.Contents()) + Flat(src.chains[..i])
    ensures Addresses(dst.chains) <= old(Addresses(dst.chains)) + Addresses(src.chains[..i])
  {
    hide Flat, SumOff, Distinct, Addresses, PosOf, LinkAt;
    ghost var k := dst.lwd;
    AddressesPart(dst.chains, 0, dst.Cut());
    AddressesPart(src.chains, 0, i);
    TrimTotal(dst.chains, k);
    var moved := src.chains[..i];
    DistinctPart(src.chains, 0, i);
    var chp := dst.FreeTrailingEmptyChains();
    ghost var kept := dst.chains;
    assert kept == old(dst.chains)[..|kept|];
    DistinctPart(old(dst.chains), 0, |kept|);
    JoinPrefix(kept, moved, old(dst.chains), k);
    dst.chains := dst.chains + moved;
    dst.last := moved[i - 1].at;
    var _ := AdvanceLastWithData(dst, k);
    dst.totalLen := dst.totalLen + n;
  }

  /** Facts about a kept prefix joined with moved chains. */
  lemma {:induction false} JoinPrefix(kept: seq<Chain>, moved: seq<Chain>, cs: seq<Chain>, k: nat)
    requires Distinct(kept) && Distinct(moved) && Addresses(kept) !! Addresses(moved)
    requires AllValid(kept) && AllValid(moved) && moved != []
    requires kept <= cs && k <= |kept|
    ensures Distinct(kept + moved) && AllValid(kept + moved)
    ensures Flat(kept + moved) == Flat(kept) + Flat(moved)
    ensures SumOff(kept + moved) == SumOff(kept) + SumOff(moved)
    ensures LinkAt(kept + moved, k) == LinkAt(cs, k)
    ensures Addresses(kept + moved) == Addresses(kept) + Addresses(moved)
  {
    hide Flat, SumOff, Addresses;
    JoinLinks(kept, moved, 0);
    FlatAppend(kept, moved);
    SumOffAppend(kept, moved);
    AddressesAppend(kept, moved);
  }

  /** The chain-moving part of evbuffer_remove_buffer; `rest` bytes are left to copy. */
  method TakeChains(src: Evbuffer, dst: Evbuffer, datlen: nat) returns (rest: nat)
    requires dst != src && dst.Valid() && src.Valid() && Separate(dst, src) && datlen < src.totalLen
    modifies src`lwdp, src`chains, src`lwd, src`totalLen
    modifies dst`chains, dst`last, dst`lwdp, dst`lwd, dst`totalLen
    ensures src.Valid() && dst.Valid() && Separate(dst, src)
    ensures rest <= datlen && src.chains != [] && rest < src.chains[0].off
    ensures dst.Contents() == old(dst.Contents()) + old(src.Contents())[..datlen - rest]
    ensures src.Contents() == old(src.Contents())[datlen - rest..]
    ensures Addresses(dst.chains) <= old(Addresses(dst.chains) + Addresses(src.chains))
    ensures Addresses(src.chains) <= old(Addresses(src.chains))
  {
    hide Flat, SumOff, Distinct, Addresses, PosOf, LinkAt, LastWithData;
    var i, n := WholeChains(src, datlen);
    rest := datlen - n;
    ghost var cs := src.chains;
    FlatSplit(cs, i);
    CutLinks(cs, src.lwd, i);
    CutAddresses(cs, i);
    assert Flat(cs) == Flat(cs[..i]) + Flat(cs[i..]) && |Flat(cs[..i])| == n;
    if i > 0 {
      SpliceFront(src, dst, i, n);
      assert cs[i..][|cs| - i - 1] == cs[|cs| - 1];
      src.chains := src.chains[i..];
      src.lwd := src.lwd - i;
      src.totalLen := src.totalLen - n;
    } else {
      SumOffNil();
      assert cs[0..] == cs && n == 0;
    }
  }

  /** evbuffer_remove_buffer. The two buffers are in memory together, so their lengths add up
      without wrapping. The return value is a C `int`. */
  method RemoveBuffer(src: Evbuffer, dst: Evbuffer, datlen: nat) returns (r: int)
    requires dst.Valid() && src.Valid() && Separate(dst, src)
    requires dst.totalLen + src.totalLen <= SIZE_MAX
    modifies dst, src
    ensures dst.Valid() && src.Valid() && Separate(dst, src)
    ensures unchanged(dst`freezeStart, dst`freezeEnd, src`freezeStart, src`freezeEnd)
    ensures var frozen := dst.freezeEnd || src.freezeStart;
            var moved := if dst == src || frozen then 0 else Min(datlen, old(src.totalLen));
            && (r == if datlen != 0 && dst != src && frozen then -1 else ToInt(moved))
            && src.Contents() == old(src.Contents())[moved..]
            && (dst != src ==> dst.Contents() == old(dst.Contents()) + old(src.Contents())[..moved])
  {
    hide Flat, SumOff, Distinct, Addresses, PosOf, LinkAt, LastWithData, AllValid;
    if datlen == 0 || dst == src {
      return 0;
    }
    if dst.freezeEnd || src.freezeStart {
      return -1;
    }
    if datlen >= src.totalLen {
      r := ToInt(src.totalLen);
      var _ := AddBuffer(dst, src);
      return;
    }
    RemoveSome(src, dst, datlen);
    r := ToInt(datlen);
  }

  /** evbuffer_remove_buffer for fewer bytes than `src` holds. */
  method RemoveSome(src: Evbuffer, dst: Evbuffer, datlen: nat)
    requires dst != src && dst.Valid() && src.Valid() && Separate(dst, src)
    requires datlen < src.totalLen && !dst.freezeEnd && dst.totalLen + src.totalLen <= SIZE_MAX
    modifies src`lwdp, src`chains, src`lwd, src`totalLen
    modifies dst`chains, dst`last, dst`lwdp, dst`lwd, dst`totalLen
    ensures src.Valid() && dst.Valid() && Separate(dst, src)
    ensures dst.Contents() == old(dst.Contents()) + old(src.Contents())[..datlen]
    ensures src.Contents() == old(src.Contents())[datlen..]
  {
    hide Flat, SumOff, Distinct, PosOf, LinkAt, LastWithData;
    var rest := TakeChains(src, dst, datlen);
    var chunk := src.chains[0].Data()[..rest];
    FirstBytes(src.chains, rest);
    ghost var mid := src.Contents();
    var ok := dst.Add(chunk);
    src.SkipFirst(rest);
    assert old(src.Contents())[..datlen] == old(src.Contents())[..datlen - rest] + mid[..rest];
  }

  lemma {:induction false} FirstBytes(cs: seq<Chain>, n: nat)
    requires AllValid(cs) && cs != [] && n <= cs[0].off
    ensures n <= |Flat(cs)| && cs[0].Data()[..n] == Flat(cs)[..n]
  {
  }

  /** The copying loop of evbuffer_pullup: chains `s..i` are copied behind `tmp` and freed. */
  method Gather(buf: Evbuffer, tmp: Chain, s: nat, n: nat)
    returns (t: Chain, i: nat, need: nat, goneLwd: bool, goneLwdp: bool)
    requires buf.Valid() && s <= 1 <= buf.lwd < |buf.chains|
    requires tmp.Valid() && n <= tmp.Space() && n <= SumOff(buf.chains[s..])
    ensures t.Valid() && t.at == tmp.at && need <= t.Space() && s <= i <= |buf.chains| && need <= n
    ensures t.Data() == tmp.Data() + Flat(buf.chains[s..i])
    ensures n == SumOff(buf.chains[s..i]) + need
    ensures i < |buf.chains| ==> need < buf.chains[i].off
    ensures i == |buf.chains| ==> need == 0
    ensures goneLwd <==> buf.lwd < i
    ensures goneLwdp <==> s < buf.lwd <= i
  {
    hide Flat, SumOff, Addresses, PosOf, Chain.Data, Chain.Put, Distinct, LinkAt;
    t, i, need, goneLwd, goneLwdp := tmp, s, n, false, false;
    ghost var cs := buf.chains;
    TargetOfLink(cs, buf.lwd);
    LinkIsNext(cs, buf.lwd, 0);
    var lastWithData := buf.chains[Target(buf.chains, buf.lwdp)].at;
    GatherStart(cs, s, tmp);
    while i < |buf.chains| && need >= buf.chains[i].off
      invariant s <= i <= |cs| && t.Valid() && t.at == tmp.at && need <= t.Space() && need <= n
      invariant t.Data() == tmp.Data() + Flat(cs[s..i])
      invariant n == SumOff(cs[s..i]) + need
      invariant goneLwd <==> buf.lwd < i
      invariant goneLwdp <==> s < buf.lwd <= i
    {
      GatherStep(cs, s, i);
      SameChain(cs, buf.lwd, i);
      LinkIsNext(cs, buf.lwd, i);
      t := t.Put(buf.chains[i].Data());
      need := need - buf.chains[i].off;
      if buf.chains[i].at == lastWithData {
        goneLwd := true;
      }
      if buf.lwdp == Next(buf.chains[i].at) {
        goneLwdp := true;
      }
      i := i + 1;
    }
    if i == |buf.chains| {
      WholeTail(cs, s);
    }
  }

  lemma {:induction false} WholeTail(cs: seq<Chain>, s: nat)
    requires s <= |cs|
    ensures cs[s..|cs|] == cs[s..]
  {
  }

  lemma {:induction false} GatherStart(cs: seq<Chain>, s: nat, tmp: Chain)
    requires s <= |cs| && tmp.Valid()
    ensures SumOff(cs[s..s]) == 0 && tmp.Data() + Flat(cs[s..s]) == tmp.Data()
  {
  }

  lemma {:induction false} GatherStep(cs: seq<Chain>, s: nat, i: nat)
    requires AllValid(cs) && s <= i < |cs|
    ensures Flat(cs[s..i + 1]) == Flat(cs[s..i]) + cs[i].Data()
    ensures SumOff(cs[s..i + 1]) == SumOff(cs[s..i]) + cs[i].off
  {
    hide Flat, SumOff;
    assert cs[s..][..i - s] == cs[s..i] && cs[s..][..i - s + 1] == cs[s..i + 1];
    FlatSnoc(cs[s..], i - s);
  }

  lemma {:induction false} SameChain(cs: seq<Chain>, i: nat, j: nat)
    requires Distinct(cs) && i < |cs| && j < |cs|
    ensures cs[i].at == cs[j].at <==> i == j
  {
  }

  /** The end of evbuffer_pullup: `t` replaces the chains before `i`, takes `need` bytes of
      chain `i`, and last_with_datap is repaired. */
  method Relink(buf: Evbuffer, t: Chain, i: nat, need: nat, goneLwd: bool, goneLwdp: bool)
    requires buf.Valid() && 1 <= i <= |buf.chains| && 1 <= buf.lwd < |buf.chains|
    requires t.Valid() && t.off + need > 0 && need <= t.Space() && t.at !in Addresses(buf.chains[i..])
    requires t.Data() == Flat(buf.chains[..i])
    requires if i < |buf.chains| then need < buf.chains[i].off else need == 0
    requires goneLwd <==> buf.lwd < i
    requires goneLwdp ==> buf.lwd <= i
    requires buf.lwd == i && !goneLwdp ==> buf.lwdp == Next(t.at)
    modifies buf`chains, buf`last, buf`lwdp, buf`lwd
    ensures buf.Valid() && buf.Contents() == old(buf.Contents())
    ensures buf.chains != [] && t.off + need <= buf.totalLen
    ensures buf.chains[0].Data() == buf.Contents()[..t.off + need]
    ensures Addresses(buf.chains) <= old(Addresses(buf.chains)) + {t.at}
  {
    hide Flat, SumOff, Addresses, PosOf, Chain.Data, Chain.Put, Chain.Skip, Distinct, LinkAt;
    ghost var cs, k := buf.chains, buf.lwd;
    OneAddress(t);
    if i < |buf.chains| {
      var t2, rest := t.Put(buf.chains[i].Data()[..need]), [buf.chains[i].Skip(need)] + buf.chains[i + 1..];
      StopsAtOrBefore(cs, k, i);
      RelinkData(cs, k, i, need, t);
      RelinkLinks(cs, k, i, need, t2);
      buf.chains := [t2] + rest;
      buf.lwd := k - i + 1;
    } else {
      assert cs[..i] == cs;
      FlatOne(t);
      FlatLength(cs);
      OneChain(t);
      buf.chains := [t];
      buf.last := t.at;
      buf.lwd := 0;
    }
    if goneLwd {
      buf.lwdp := First;
    } else if goneLwdp {
      buf.lwdp := if |buf.chains| > 1 && buf.chains[1].off > 0 then Next(buf.chains[0].at) else First;
    }
  }

  lemma {:induction false} OneChain(t: Chain)
    requires t.Valid()
    ensures Distinct([t]) && AllValid([t]) && LinkAt([t], 0) == First
  {
  }

  lemma {:induction false} StopsAtOrBefore(cs: seq<Chain>, k: nat, i: nat)
    requires LastWithData(cs, k) && i < |cs| && cs[i].off > 0
    ensures i <= k
  {
  }

  /** What the new list of evbuffer_pullup holds. */
  lemma {:induction false} RelinkData(cs: seq<Chain>, k: nat, i: nat, need: nat, t: Chain)
    requires AllValid(cs) && LastWithData(cs, k) && i <= k < |cs| && need < cs[i].off
    requires t.Valid() && t.off + need > 0 && need <= t.Space() && t.Data() == Flat(cs[..i])
    ensures var t2 := t.Put(cs[i].Data()[..need]);
            var ds := [t2] + ([cs[i].Skip(need)] + cs[i + 1..]);
            && AllValid(ds) && LastWithData(ds, k - i + 1)
            && Flat(ds) == Flat(cs) && SumOff(ds) == SumOff(cs)
            && t2.off <= |Flat(cs)| && t2.Data() == Flat(cs)[..t2.off]
  {
    hide Flat, SumOff, Chain.Data, Chain.Put, Chain.Skip;
    var t2, rest := t.Put(cs[i].Data()[..need]), [cs[i].Skip(need)] + cs[i + 1..];
    DropFront(cs, k, i, need);
    PushFront(rest, k - i, t2);
    FlatAt(cs, i);
    var pre, d, tail := Flat(cs[..i]), cs[i].Data(), Flat(cs[i + 1..]);
    assert |pre| == t.off;
    FlatLength(cs[..i]);
    FlatLength(cs);
    assert t2.Data() == pre + d[..need];
    assert (pre + (d + tail))[..t2.off] == pre + d[..need];
    FlatLength([t2] + rest);
  }

  /** How the new list of evbuffer_pullup is linked. */
  lemma {:induction false} RelinkLinks(cs: seq<Chain>, k: nat, i: nat, need: nat, t: Chain)
    requires AllValid(cs) && Distinct(cs) && i <= k < |cs| && need < cs[i].off
    requires t.at !in Addresses(cs[i..])
    ensures var ds := [t] + ([cs[i].Skip(need)] + cs[i + 1..]);
            && Distinct(ds)
            && LinkAt(ds, k - i + 1) == (if k == i then Next(t.at) else LinkAt(cs, k))
            && Addresses(ds) <= Addresses(cs) + {t.at}
  {
    hide Addresses;
    var rest := [cs[i].Skip(need)] + cs[i + 1..];
    SkipLinks(cs, i, need, k);
    assert Addresses(rest) <= Addresses(cs[i..]) by {
      assert cs[i..][0] == cs[i] && cs[i..][1..] == cs[i + 1..];
      SkipAddresses(cs[i..], 0, need);
      AddressesAppend([cs[i].Skip(need)], cs[i + 1..]);
    }
    AddressesPart(cs, i, |cs|);
    assert cs[i..|cs|] == cs[i..];
    FrontLinks(t, rest, k - i);
    AddressesAppend([t], rest);
    OneAddress(t);
  }

  /** evbuffer_pullup: the first `size` bytes become contiguous and nothing else changes. */
  method Pullup(buf: Evbuffer, size: int) returns (r: Option<seq<Byte>>)
    requires buf.Valid()
    modifies buf`chains, buf`last, buf`lwdp, buf`lwd
    ensures buf.Valid() && buf.Contents() == old(buf.Contents())
    ensures var n := if size < 0 then buf.totalLen else size;
            && (r.Some? <==> 0 < n <= buf.totalLen && n <= CHAIN_LIMIT)
            && (r.Some? ==> buf.chains != [] && n <= |r.value|
                            && r.value == buf.chains[0].Data() && r.value <= buf.Contents())
    ensures forall a :: a in Addresses(buf.chains) && a !in old(Addresses(buf.chains)) ==> fresh(a)
  {
    hide Flat, SumOff, Addresses, PosOf, Chain.Data, Chain.Put, Distinct, LinkAt;
    var n: nat := if size < 0 then buf.totalLen else size;
    if n == 0 || n > buf.totalLen {
      return None;
    }
    SumOffNil();
    var chain := buf.chains[0];
    if chain.off >= n {
      FirstBytes(buf.chains, chain.off);
      assert chain.Data()[..chain.off] == chain.Data();
      return Some(chain.Data());
    }
    DataBeyondFirst(buf.chains, buf.lwd);
    if |chain.mem| - chain.misalign >= n {
      FirstAddress(buf.chains);
      PullInto(buf, chain, 1, n - chain.off);
    } else {
      var tmp := buf.Alloc(n);
      if tmp.None? {
        return None;
      }
      assert tmp.value.Data() == [];
      PullInto(buf, tmp.value, 0, n);
    }
    r := Some(buf.chains[0].Data());
  }

  lemma {:induction false} FirstAddress(cs: seq<Chain>)
    requires cs != []
    ensures cs[0].at in Addresses(cs)
  {
    assert cs[0] in cs;
  }

  lemma {:induction false} DataBeyondFirst(cs: seq<Chain>, k: nat)
    requires AllValid(cs) && LastWithData(cs, k) && cs != [] && cs[0].off < SumOff(cs)
    ensures 1 <= k < |cs|
    ensures SumOff(cs[1..]) == SumOff(cs) - cs[0].off && Flat(cs[..1]) == cs[0].Data()
    ensures SumOff(cs[0..]) == SumOff(cs) && Flat(cs[..0]) == []
  {
    if k == 0 {
      FlatEmpty(cs[1..]);
    }
    FlatOne(cs[0]);
    assert cs[..1] == [cs[0]] && cs[0..] == cs;
  }

  lemma {:induction false} NotLater(cs: seq<Chain>, i: nat, a: Address)
    requires Distinct(cs) && 1 <= i <= |cs|
    requires a == cs[0].at || a !in Addresses(cs)
    ensures a !in Addresses(cs[i..])
  {
    CutAddresses(cs, i);
    assert cs[0] in cs[..i];
  }

  /** Gather and relink: `tmp` is the first chain (s == 1) or a new one (s == 0). */
  method PullInto(buf: Evbuffer, tmp: Chain, s: nat, n: nat)
    requires buf.Valid() && s <= 1 <= buf.lwd < |buf.chains|
    requires tmp.Valid() && n <= tmp.Space() && n <= SumOff(buf.chains[s..])
    requires buf.chains[0].off < tmp.off + n && tmp.Data() == Flat(buf.chains[..s])
    requires if s == 1 then tmp.at == buf.chains[0].at else tmp.at !in Addresses(buf.chains)
    modifies buf`chains, buf`last, buf`lwdp, buf`lwd
    ensures buf.Valid() && buf.Contents() == old(buf.Contents())
    ensures buf.chains != [] && tmp.off + n <= buf.totalLen
    ensures buf.chains[0].Data() == buf.Contents()[..tmp.off + n]
    ensures Addresses(buf.chains) <= old(Addresses(buf.chains)) + {tmp.at}
  {
    hide Flat, SumOff, PosOf, Chain.Data, Chain.Put, LinkAt, Distinct, Addresses;
    var t, i, need, goneLwd, goneLwdp := Gather(buf, tmp, s, n);
    ghost var cs := buf.chains;
    assert i >= 1 by {
      SumOffNil();
      FlatLength(cs[..s]);
    }
    LinkIsNext(cs, buf.lwd, 0);
    assert t.Data() == Flat(cs[..i]) by {
      assert cs[..i][..s] == cs[..s] && cs[..i][s..] == cs[s..i];
      FlatSplit(cs[..i], s);
    }
    FlatLength(cs[s..i]);
    NotLater(cs, i, t.at);
    Relink(buf, t, i, need, goneLwd, goneLwdp);
  }
}
