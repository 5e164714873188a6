/** event_tagging.c on evbuffers: each routine against the codec functions of TagCodec. */
module Tagging {
  import opened Basics
  import opened Chains
  import opened Evbuffers
  import opened EvbufferMoves
  import opened EvbufferSearch
  import C = TagCodec

  /** Write nibble `v` at nibble position `k`. */
  function SetNib(s: seq<Byte>, k: nat, v: nat): (t: seq<Byte>)
    requires k / 2 < |s| && v < 16
    ensures |t| == |s| && C.Nib(t, k) == v
    ensures forall i: nat :: i != k && i / 2 < |s| ==> C.Nib(t, i) == C.Nib(s, i)
  {
    var b := s[k / 2] as nat;
    s[k / 2 := (if k % 2 == 1 then b / 16 * 16 + v else b % 16 + v * 16) as Byte]
  }

  /** ENCODE_INT_INTERNAL, filling `data` nibble by nibble. */
  method EncodeIntInternal(data: array<Byte>, number: nat) returns (len: nat)
    requires |C.Nibbles(number)| <= 16 && data.Length >= |C.Nibbles(number)| / 2 + 1
    modifies data
    ensures len == |C.EncodeInt(number)| <= data.Length && data[..len] == C.EncodeInt(number)
  {
    hide C.Nibbles, C.Nib, C.Pack, SetNib;
    forall i | 0 <= i < data.Length {
      data[i] := 0;
    }
    ghost var w: seq<nat> := [];
    var off, n := 1, number;
    ZeroNibs(data[..]);
    while n != 0
      invariant off == |w| + 1 && C.Nibbles(number) == w + C.Nibbles(n)
      invariant forall k: nat :: k / 2 < data.Length ==> C.Nib(data[..], k) == if 1 <= k < off then w[k - 1] else 0
      decreases n
    {
      NibblesStep(n);
      ghost var before := data[..];
      data[off / 2] := SetNib(data[..], off, n % 16)[off / 2];
      SetNibAt(before, off, n % 16);
      assert data[..] == SetNib(before, off, n % 16);
      w := w + [n % 16];
      n := n / 16;
      off := off + 1;
    }
    var nibbles := if off > 2 then off - 2 else 0;
    ghost var before := data[..];
    data[0] := SetNib(data[..], 0, nibbles)[0];
    SetNibAt(before, 0, nibbles);
    assert data[..] == SetNib(before, 0, nibbles);
    len := (off + 1) / 2;
    assert w == C.Nibbles(number) by { assert C.Nibbles(0) == []; }
    NibblesWritten(data[..], number);
  }

  lemma {:induction false} NibblesWritten(s: seq<Byte>, number: nat)
    requires |C.Nibbles(number)| <= 16 && |C.Nibbles(number)| / 2 < |s|
    requires forall k: nat :: k / 2 < |s| ==>
               C.Nib(s, k) == if k < |C.IntNibbles(number)| then C.IntNibbles(number)[k] else 0
    ensures s[..|C.Nibbles(number)| / 2 + 1] == C.EncodeInt(number)
  {
    hide C.Nibbles, C.Pack, C.IntNibbles;
    var e := C.EncodeInt(number);
    var t := s[..|e|];
    forall k: nat | k < 2 * |t| ensures C.Nib(t, k) == C.Nib(e, k) {
      C.PackNib(C.IntNibbles(number), k);
      assert t[k / 2] == s[k / 2];
      assert C.Nib(t, k) == C.Nib(s, k);
    }
    C.NibsDetermine(t, e);
  }

  lemma {:induction false} ZeroNibs(s: seq<Byte>)
    requires forall i :: 0 <= i < |s| ==> s[i] == 0
    ensures forall k: nat :: k / 2 < |s| ==> C.Nib(s, k) == 0
  {
  }

  lemma {:induction false} NibblesStep(n: nat)
    requires n > 0
    ensures C.Nibbles(n) == [n % 16] + C.Nibbles(n / 16)
  {
  }

  lemma {:induction false} SetNibAt(s: seq<Byte>, k: nat, v: nat)
    requires k / 2 < |s| && v < 16
    ensures SetNib(s, k, v) == s[k / 2 := SetNib(s, k, v)[k / 2]]
  {
  }

  /** `s` after an evbuffer_add whose result is ignored. */
  function Pushed(s: seq<Byte>, d: seq<Byte>, frozen: bool): seq<Byte> {
    if frozen || |s| + |d| > SIZE_MAX then s else s + d
  }

  /** evtag_encode_int and evtag_encode_int64 */
  method EncodeInt(buf: Evbuffer, number: nat, size: nat)
    requires buf.Valid() && size <= 9 && |C.Nibbles(number)| <= 16 && |C.EncodeInt(number)| <= size
    modifies buf`chains, buf`last, buf`lwdp, buf`lwd, buf`totalLen
    ensures buf.Valid() && buf.Contents() == Pushed(old(buf.Contents()), C.EncodeInt(number), buf.freezeEnd)
    ensures forall a :: a in Addresses(buf.chains) && a !in old(Addresses(buf.chains)) ==> fresh(a)
  {
    hide Flat, SumOff, Distinct, AllValid, PosOf, LastWithData, LinkAt, Addresses, C.Nibbles, C.EncodeInt;
    var data := new Byte[size];
    var len := EncodeIntInternal(data, number);
    var ok := buf.Add(data[..len]);
  }

  /** evtag_encode_tag */
  method EncodeTag(buf: Evbuffer, tag: nat)
    requires buf.Valid() && tag < 0x1_0000_0000
    modifies buf`chains, buf`last, buf`lwdp, buf`lwd, buf`totalLen
    ensures buf.Valid() && buf.Contents() == Pushed(old(buf.Contents()), C.EncodeTag(tag), buf.freezeEnd)
    ensures forall a :: a in Addresses(buf.chains) && a !in old(Addresses(buf.chains)) ==> fresh(a)
  {
    hide Flat, SumOff, Distinct, AllValid, PosOf, LastWithData, LinkAt, Addresses, C.EncodeTag;
    var data: seq<Byte>, rest := [], tag;
    TagLength(tag, 5);
    while true
      modifies {}
      invariant C.EncodeTag(tag) == data + C.EncodeTag(rest)
      decreases rest
    {
      TagStep(rest);
      var lower := rest % 128;
      rest := rest / 128;
      if rest != 0 {
        lower := lower + 128;
      }
      data := data + [lower as Byte];
      if rest == 0 {
        break;
      }
    }
    var ok := buf.Add(data);
  }

  lemma {:induction false} TagStep(tag: nat)
    ensures C.EncodeTag(tag) == if tag < 128 then [tag as Byte] else [(tag % 128 + 128) as Byte] + C.EncodeTag(tag / 128)
  {
  }

  lemma {:induction false} TagLength(tag: nat, n: nat)
    requires 1 <= n <= 5 && tag < C.Pow128(n)
    ensures |C.EncodeTag(tag)| <= n
    decreases n
  {
    if tag >= 128 {
      TagLength(tag / 128, n - 1);
    }
  }

  /** decode_tag_internal */
  method DecodeTagInternal(buf: Evbuffer, drain: bool) returns (r: Option<(nat, nat)>)
    requires buf.Valid()
    modifies buf`chains, buf`last, buf`lwdp, buf`lwd, buf`totalLen
    ensures buf.Valid() && r == C.DecodeTag(old(buf.Contents()))
    ensures r.Some? ==> 0 < r.value.1 <= old(buf.totalLen)
    ensures buf.Contents() == old(buf.Contents())[if drain && r.Some? && !buf.freezeStart then r.value.1 else 0..]
  {
    hide Flat, SumOff, Distinct, AllValid, PosOf, LastWithData, LinkAt, Addresses, C.DecodeTagAt;
    var len := buf.totalLen;
    ghost var s := buf.Contents();
    C.DecodeTagUsed(s, 0);
    var data := Pullup(buf, Min(len, 5));
    if data.None? {
      DecodeTagEmpty(s);
      return None;
    }
    var number: nat, count: nat, scale: nat, done := 0, 0, 1, false;
    while count < len
      modifies {}
      invariant count <= len && count <= 5 && scale == C.Pow128(count)
      invariant C.DecodeTagAt(s, 0) == Scaled(number, scale, C.DecodeTagAt(s, count))
      decreases len - count
    {
      DecodeTagStep(s, count, number, scale);
      if count > 4 {
        return None;
      }
      assert data.value[count] == s[count];
      var lower := data.value[count] as nat;
      if count == 4 && lower % 128 > 15 {
        return None;
      }
      number := number + lower % 128 * scale;
      scale := 128 * scale;
      count := count + 1;
      if lower < 128 {
        done := true;
        break;
      }
    }
    if !done {
      DecodeTagStep(s, count, number, scale);
      return None;
    }
    if drain {
      var _ := buf.Drain(count);
    }
    r := Some((number, count));
  }

  /** A decoded suffix with the lower bits `number` in front. */
  ghost function Scaled(number: nat, scale: nat, rest: Option<(nat, nat)>): Option<(nat, nat)> {
    if rest.None? then None else Some((number + rest.value.0 * scale, rest.value.1))
  }

  lemma {:induction false} DecodeTagEmpty(s: seq<Byte>)
    requires s == []
    ensures C.DecodeTag(s) == None
  {
  }

  lemma {:induction false} DecodeTagStep(s: seq<Byte>, k: nat, number: nat, scale: nat)
    ensures Scaled(number, scale, C.DecodeTagAt(s, k)) ==
            if k >= |s| || k > 4 || (k == 4 && s[k] as nat % 128 > 15) then None
            else if s[k] < 128 then Some((number + s[k] as nat % 128 * scale, k + 1))
            else Scaled(number + s[k] as nat % 128 * scale, 128 * scale, C.DecodeTagAt(s, k + 1))
  {
    if k < |s| && k <= 4 && s[k] >= 128 && C.DecodeTagAt(s, k + 1).Some? {
      var low, v := s[k] as nat % 128, C.DecodeTagAt(s, k + 1).value.0;
      assert (low + 128 * v) * scale == low * scale + v * (128 * scale);
    }
  }

  /** DECODE_INT_INTERNAL at `offset`; nothing is drained. */
  method DecodeIntInternal(buf: Evbuffer, max: nat, offset: nat) returns (r: Option<(nat, nat)>)
    requires buf.Valid() && 1 <= max <= 16 && offset <= buf.totalLen && offset <= 16
    modifies buf`chains, buf`last, buf`lwdp, buf`lwd
    ensures buf.Valid() && buf.Contents() == old(buf.Contents())
    ensures r == C.DecodeInt(buf.Contents()[offset..], max)
    ensures r.Some? ==> 1 <= r.value.1 <= buf.totalLen - offset
  {
    hide Flat, SumOff, Distinct, AllValid, PosOf, LastWithData, LinkAt, Addresses, C.FromNibbles, C.Digits;
    ghost var s := buf.Contents();
    if buf.totalLen <= offset {
      return None;
    }
    var d := Pullup(buf, offset + 1);
    assert d.value[offset] == s[offset..][0];
    var n := d.value[offset] as nat / 16 + 1;
    if n > max || n / 2 + 1 > buf.totalLen - offset {
      return None;
    }
    var len := n / 2 + 1;
    d := Pullup(buf, offset + len);
    var bytes := d.value[offset..offset + len];
    PrefixDigits(bytes, s[offset..], n);
    var number := ReadNibbles(bytes, n);
    r := Some((number, len));
  }

  lemma {:induction false} PrefixDigits(a: seq<Byte>, b: seq<Byte>, n: nat)
    requires n / 2 < |a| && a <= b
    ensures C.Digits(a, n) == C.Digits(b, n)
  {
    forall i | 0 <= i < n ensures C.Digits(a, n)[i] == C.Digits(b, n)[i] {
      assert a[(i + 1) / 2] == b[(i + 1) / 2];
    }
  }

  /** The loop of DECODE_INT_INTERNAL, from the most significant nibble down. */
  method ReadNibbles(data: seq<Byte>, n: nat) returns (number: nat)
    requires n / 2 < |data|
    ensures number == C.FromNibbles(C.Digits(data, n))
  {
    hide C.FromNibbles;
    number := 0;
    var k := n;
    ghost var ds := C.Digits(data, n);
    NoNibbles();
    while k > 0
      invariant 0 <= k <= n && number == C.FromNibbles(ds[k..])
    {
      HighNibble(ds, k - 1);
      number := 16 * number + C.Nib(data, k);
      k := k - 1;
    }
    assert ds[0..] == ds;
  }

  lemma {:induction false} NoNibbles()
    ensures forall ns: seq<nat> :: |ns| == 0 ==> C.FromNibbles(ns) == 0
  {
  }

  lemma {:induction false} HighNibble(ns: seq<nat>, k: nat)
    requires k < |ns|
    ensures C.FromNibbles(ns[k..]) == ns[k] + 16 * C.FromNibbles(ns[k + 1..])
  {
    assert ns[k..][1..] == ns[k + 1..];
  }

  /** `s` after tag, length and payload were added one by one. */
  ghost function Marshalled(s: seq<Byte>, tag: nat, payload: seq<Byte>, frozen: bool): seq<Byte>
    requires |payload| < 0x1_0000_0000
  {
    var t := Pushed(s, C.EncodeTag(tag), frozen);
    Pushed(Pushed(t, C.EncodeInt32(|payload|), frozen), payload, frozen)
  }

  /** A frozen buffer stays as it is; one that has room gets the whole record. */
  lemma {:induction false} MarshalledIs(s: seq<Byte>, tag: nat, payload: seq<Byte>, frozen: bool)
    requires |payload| < 0x1_0000_0000
    ensures frozen ==> Marshalled(s, tag, payload, frozen) == s
    ensures !frozen && |s| + |C.Marshal(tag, payload)| <= SIZE_MAX ==>
              Marshalled(s, tag, payload, frozen) == s + C.Marshal(tag, payload)
  {
    hide C.EncodeTag, C.EncodeInt32;
    assert s + (C.EncodeTag(tag) + C.EncodeInt32(|payload|) + payload) ==
           s + C.EncodeTag(tag) + C.EncodeInt32(|payload|) + payload;
  }

  /** evtag_marshal */
  method Marshal(buf: Evbuffer, tag: nat, payload: seq<Byte>)
    requires buf.Valid() && tag < 0x1_0000_0000 && |payload| < 0x1_0000_0000
    modifies buf`chains, buf`last, buf`lwdp, buf`lwd, buf`totalLen
    ensures buf.Valid() && buf.Contents() == Marshalled(old(buf.Contents()), tag, payload, buf.freezeEnd)
  {
    hide Flat, SumOff, Distinct, AllValid, PosOf, LastWithData, LinkAt, Addresses, C.EncodeTag, C.EncodeInt, C.Nibbles;
    TagLength(tag, 5);
    C.Fits32(|payload|);
    EncodeTag(buf, tag);
    EncodeInt(buf, |payload|, 5);
    var ok := buf.Add(payload);
  }

  /** evtag_decode_int */
  method DecodeInt(buf: Evbuffer) returns (r: Option<(nat, nat)>)
    requires buf.Valid()
    modifies buf`chains, buf`last, buf`lwdp, buf`lwd, buf`totalLen
    ensures buf.Valid() && r == C.DecodeInt(old(buf.Contents()), 8)
    ensures r.Some? ==> 1 <= r.value.1 <= old(buf.totalLen)
    ensures buf.Contents() == old(buf.Contents())[if r.Some? && !buf.freezeStart then r.value.1 else 0..]
  {
    hide Flat, SumOff, Distinct, AllValid, PosOf, LastWithData, LinkAt, Addresses, C.DecodeInt, Evbuffer.Valid;
    ghost var s := buf.Contents();
    assert s[0..] == s;
    r := DecodeIntInternal(buf, 8, 0);
    if r.Some? {
      var _ := buf.Drain(r.value.1);
    }
  }

  /** What a failed evtag_unmarshal_header has drained: the tag, if there was one. */
  function DrainedTag(s: seq<Byte>, frozen: bool): (n: nat)
    ensures n <= |s| && (frozen ==> n == 0)
  {
    C.DecodeTagUsed(s, 0);
    var t := C.DecodeTag(s);
    if frozen || t.None? then 0 else t.value.1
  }

  /** evtag_unmarshal_header. The result is a C `int`: a length of 2^31 or more comes out negative. */
  method UnmarshalHeader(buf: Evbuffer) returns (len: int, tag: nat)
    requires buf.Valid()
    modifies buf`chains, buf`last, buf`lwdp, buf`lwd, buf`totalLen
    ensures buf.Valid()
    ensures var h := C.SeenHeader(old(buf.Contents()), buf.freezeStart);
            if h.None? then len == -1 && buf.Contents() == old(buf.Contents())[DrainedTag(old(buf.Contents()), buf.freezeStart)..]
            else
              var rest := old(buf.Contents())[h.value.used..];
              && buf.Contents() == rest && tag == h.value.tag
              && (len == if |rest| < h.value.len then -1 else ToInt(h.value.len))
  {
    hide Flat, SumOff, Distinct, AllValid, PosOf, LastWithData, LinkAt, Addresses, C.DecodeTagAt, C.DecodeInt, ToInt;
    hide Evbuffer.Valid;
    ghost var s := buf.Contents();
    tag := 0;
    var t := DecodeTagInternal(buf, true);
    if t.None? {
      return -1, 0;
    }
    tag := t.value.0;
    var n := DecodeInt(buf);
    if n.None? {
      return -1, tag;
    }
    if !buf.freezeStart {
      assert s[t.value.1..][n.value.1..] == s[t.value.1 + n.value.1..];
    }
    if buf.totalLen < n.value.0 {
      return -1, tag;
    }
    len := ToInt(n.value.0);
  }

  /** A C `int` used as a size_t. */
  function ToSize(n: int): nat
    requires -0x8000_0000 <= n
  {
    if n < 0 then n + SIZE_MAX + 1 else n
  }

  /** The bytes a drain of `len`, a C `int`, takes from the front of `n` bytes. */
  function Drained(n: nat, len: int, frozen: bool): (d: nat)
    requires -0x8000_0000 <= len
    ensures d <= n
  {
    if frozen then 0 else Min(n, ToSize(len))
  }

  /** evtag_consume: a length that is negative as an `int` drains whatever is left. */
  method Consume(buf: Evbuffer) returns (ok: bool)
    requires buf.Valid()
    modifies buf`chains, buf`last, buf`lwdp, buf`lwd, buf`totalLen
    ensures buf.Valid()
    ensures var s := old(buf.Contents());
            var h := C.SeenHeader(s, buf.freezeStart);
            && (ok <==> h.Some? && |s| - h.value.used >= h.value.len && ToInt(h.value.len) != -1)
            && (ok ==> buf.Contents() == s[h.value.used + Drained(|s| - h.value.used, ToInt(h.value.len), buf.freezeStart)..])
            && (ok && !buf.freezeStart && h.value.len < 0x8000_0000 ==> buf.Contents() == s[h.value.used + h.value.len..])
            && (ok && !buf.freezeStart && ToInt(h.value.len) < 0 && |s| <= SIZE_MAX - 0x7fff_ffff ==> buf.Contents() == [])
            && (buf.freezeStart ==> buf.Contents() == s)
  {
    hide Flat, SumOff, Distinct, AllValid, PosOf, LastWithData, LinkAt, Addresses, C.SeenHeader, ToInt, DrainedTag;
    hide Evbuffer.Valid;
    ghost var s := buf.Contents();
    FrozenHeader(s);
    HeaderLength(s, buf.freezeStart);
    SmallInt();
    var len, tag := UnmarshalHeader(buf);
    if len == -1 {
      return false;
    }
    ghost var rest := buf.Contents();
    var _ := buf.Drain(ToSize(len));
    ok := true;
    ghost var h := C.SeenHeader(s, buf.freezeStart).value;
    ghost var n := Drained(|rest|, len, buf.freezeStart);
    assert s[h.used..][n..] == s[h.used + n..];
  }

  lemma {:induction false} FrozenHeader(s: seq<Byte>)
    ensures var h := C.SeenHeader(s, true); h.Some? ==> h.value.used == 0
  {
  }

  /** evtag_peek_length: tag, length field and payload together, in 32 bits. */
  method PeekLength(buf: Evbuffer) returns (r: Option<nat>)
    requires buf.Valid()
    modifies buf`chains, buf`last, buf`lwdp, buf`lwd, buf`totalLen
    ensures buf.Valid() && buf.Contents() == old(buf.Contents())
    ensures var h := C.DecodeHeader(buf.Contents());
            r == if h.None? then None else Some((h.value.len + h.value.used) % 0x1_0000_0000)
  {
    hide Flat, SumOff, Distinct, AllValid, PosOf, LastWithData, LinkAt, Addresses, C.DecodeTagAt, C.DecodeInt;
    hide Evbuffer.Valid;
    ghost var s := buf.Contents();
    C.DecodeTagUsed(s, 0);
    var t := DecodeTagInternal(buf, false);
    if t.None? {
      return None;
    }
    assert s[0..] == s;
    var n := DecodeIntInternal(buf, 8, t.value.1);
    if n.None? {
      return None;
    }
    r := Some((n.value.0 + n.value.1 + t.value.1) % 0x1_0000_0000);
  }

  /** What evtag_peek_length announces is what a successful evtag_consume takes away, for payloads
      shorter than 2^31 bytes in a buffer that is not frozen. */
  method PeekThenConsume(buf: Evbuffer) returns (peeked: Option<nat>, ok: bool)
    requires buf.Valid()
    modifies buf`chains, buf`last, buf`lwdp, buf`lwd, buf`totalLen
    ensures buf.Valid() && (ok && !buf.freezeStart ==> peeked.Some? && C.DecodeHeader(old(buf.Contents())).Some?)
    ensures var h := C.DecodeHeader(old(buf.Contents()));
            ok && !buf.freezeStart && h.Some? && h.value.len < 0x8000_0000 ==>
              peeked.value <= old(buf.totalLen) && buf.Contents() == old(buf.Contents())[peeked.value..]
    ensures buf.freezeStart ==> buf.Contents() == old(buf.Contents())
  {
    hide Flat, SumOff, Distinct, AllValid, PosOf, LastWithData, LinkAt, Addresses, C.DecodeHeader, C.SeenHeader;
    hide Evbuffer.Valid, ToInt, ToSize, Drained;
    HeaderSize(buf.Contents());
    NoWrap(buf.Contents());
    peeked := PeekLength(buf);
    ok := Consume(buf);
  }

  lemma {:induction false} NoWrap(s: seq<Byte>)
    ensures var h := C.DecodeHeader(s);
            h.Some? && h.value.len < 0x8000_0000 ==> (h.value.len + h.value.used) % 0x1_0000_0000 == h.value.used + h.value.len
  {
    hide C.DecodeHeader;
    HeaderSize(s);
  }

  lemma {:induction false} HeaderSize(s: seq<Byte>)
    ensures var h := C.DecodeHeader(s); h.Some? ==> h.value.used <= 10
  {
    C.DecodeTagUsed(s, 0);
  }

  /** evtag_unmarshal. A length that is negative as an `int` is too much for `dst`. */
  method Unmarshal(src: Evbuffer, dst: Evbuffer) returns (len: int, tag: nat)
    requires src.Valid() && dst.Valid() && src != dst && Separate(src, dst)
    modifies src`chains, src`last, src`lwdp, src`lwd, src`totalLen
    modifies dst`chains, dst`last, dst`lwdp, dst`lwd, dst`totalLen
    ensures src.Valid() && dst.Valid()
    ensures var s := old(src.Contents());
            var h := C.SeenHeader(s, src.freezeStart);
            if h.None? || |s| - h.value.used < h.value.len then len == -1 && dst.Contents() == old(dst.Contents())
            else if ToInt(h.value.len) < 0 || dst.freezeEnd || old(dst.totalLen) + h.value.len > SIZE_MAX then
              len == -1 && dst.Contents() == old(dst.Contents()) && src.Contents() == s[h.value.used..]
            else
              var end := h.value.used + h.value.len;
              && len == h.value.len && tag == h.value.tag
              && dst.Contents() == old(dst.Contents()) + s[h.value.used..end] && src.Contents() == s[if src.freezeStart then 0 else end..]
  {
    hide Flat, SumOff, Distinct, AllValid, PosOf, LastWithData, LinkAt, Addresses, C.SeenHeader, ToInt, Separate;
    hide Evbuffer.Valid;
    ghost var s := src.Contents();
    HeaderLength(s, src.freezeStart);
    FrozenHeader(s);
    len, tag := UnmarshalHeader(src);
    SmallInt();
    if len == -1 {
      return;
    }
    var d := Pullup(src, len);
    if len < 0 {
      assert ToSize(len) > CHAIN_LIMIT;
      return -1, tag;
    }
    ghost var h := C.SeenHeader(s, src.freezeStart).value;
    ghost var rest := src.Contents();
    var bytes := if d.Some? then d.value[..len] else [];
    SplitRest(s, h.used, len);
    assert bytes == rest[..len];
    var ok := dst.Add(bytes);
    if !ok {
      return -1, tag;
    }
    var _ := src.Drain(len);
  }

  /** A decoded length has at most 32 bits. */
  lemma {:induction false} HeaderLength(s: seq<Byte>, frozen: bool)
    ensures var h := C.SeenHeader(s, frozen); h.Some? ==> h.value.len < 0x1_0000_0000
  {
    hide C.DecodeInt, C.DecodeTagAt;
    if C.SeenHeader(s, frozen).Some? {
      C.DecodeTagUsed(s, 0);
      C.DecodedFits(s[C.DecodeTag(s).value.1..], 8);
      C.DecodedFits(s, 8);
      assert C.Pow16(8) == 16 * (16 * (16 * (16 * (16 * (16 * (16 * (16 * C.Pow16(0))))))));
    }
  }

  lemma {:induction false} SmallInt()
    ensures forall n: nat :: n < 0x8000_0000 ==> ToInt(n) == n
    ensures forall n: nat :: 0x8000_0000 <= n < 0x1_0000_0000 ==> -0x8000_0000 <= ToInt(n) < 0
  {
  }

  lemma {:induction false} SplitRest(s: seq<Byte>, a: nat, n: nat)
    requires a + n <= |s|
    ensures s[a..][..n] == s[a..a + n] && s[a..][n..] == s[a + n..]
  {
  }

  /** evtag_marshal_int and evtag_marshal_int64 */
  method MarshalInt(buf: Evbuffer, tag: nat, number: nat, size: nat)
    requires buf.Valid() && tag < 0x1_0000_0000
    requires size <= 9 && |C.Nibbles(number)| <= 16 && |C.EncodeInt(number)| <= size
    modifies buf`chains, buf`last, buf`lwdp, buf`lwd, buf`totalLen
    ensures buf.Valid()
    ensures buf.Contents() == Marshalled(old(buf.Contents()), tag, C.EncodeInt(number), buf.freezeEnd)
  {
    hide Flat, SumOff, Distinct, AllValid, PosOf, LastWithData, LinkAt, Addresses, C.EncodeTag, C.EncodeInt, C.Nibbles;
    var data := new Byte[size];
    var len := EncodeIntInternal(data, number);
    Marshal(buf, tag, data[..len]);
  }

  /** evtag_unmarshal_int (max 8) and evtag_unmarshal_int64 (max 16) */
  method UnmarshalInt(buf: Evbuffer, needTag: nat, max: nat) returns (r: Option<nat>)
    requires buf.Valid() && 1 <= max <= 16
    modifies buf`chains, buf`last, buf`lwdp, buf`lwd, buf`totalLen
    ensures buf.Valid()
    ensures var u := C.UnmarshalInt(old(buf.Contents()), needTag, max, buf.freezeStart);
            r == u.0 && buf.Contents() == u.1
  {
    hide Flat, SumOff, Distinct, AllValid, PosOf, LastWithData, LinkAt, Addresses, C.DecodeTagAt, C.DecodeInt;
    hide Evbuffer.Valid;
    ghost var s := buf.Contents();
    var t := DecodeTagInternal(buf, true);
    if t.None? || t.value.0 != needTag {
      return None;
    }
    var n := DecodeInt(buf);
    if n.None? {
      return None;
    }
    if buf.totalLen < n.value.0 {
      return None;
    }
    r := TakeInt(buf, n.value.0, max);
  }

  /** The end of evtag_unmarshal_int: a payload of `len` bytes that should be an integer. */
  method TakeInt(buf: Evbuffer, len: nat, max: nat) returns (r: Option<nat>)
    requires buf.Valid() && 1 <= max <= 16 && len <= buf.totalLen
    modifies buf`chains, buf`last, buf`lwdp, buf`lwd, buf`totalLen
    ensures buf.Valid() && |old(buf.Contents())| == old(buf.totalLen)
    ensures var v := C.DecodeInt(old(buf.Contents()), max);
            r == if v.None? || v.value.1 > len then None else Some(v.value.0)
    ensures buf.Contents() == old(buf.Contents())[if buf.freezeStart then 0 else len..]
  {
    hide Flat, SumOff, Distinct, AllValid, PosOf, LastWithData, LinkAt, Addresses, C.DecodeInt, Evbuffer.Valid;
    ghost var s := buf.Contents();
    assert s[0..] == s;
    var v := DecodeIntInternal(buf, max, 0);
    var _ := buf.Drain(len);
    r := if v.None? || v.value.1 > len then None else Some(v.value.0);
  }

  lemma {:induction false} DropTwice(s: seq<Byte>, a: nat, b: nat)
    requires a + b <= |s|
    ensures s[a..][b..] == s[a + b..]
  {
  }

  /** evtag_marshal_timeval: both fields are cut to 32 bits by the integer encoder. */
  method MarshalTimeval(buf: Evbuffer, tag: nat, sec: int, usec: int)
    requires buf.Valid() && tag < 0x1_0000_0000
    modifies buf`chains, buf`last, buf`lwdp, buf`lwd, buf`totalLen
    ensures buf.Valid()
    ensures var payload := C.EncodeInt32(sec % 0x1_0000_0000) + C.EncodeInt32(usec % 0x1_0000_0000);
            |payload| <= 10 && buf.Contents() == Marshalled(old(buf.Contents()), tag, payload, buf.freezeEnd)
  {
    hide Flat, SumOff, Distinct, AllValid, PosOf, LastWithData, LinkAt, Addresses, C.EncodeTag, C.EncodeInt, C.Nibbles;
    var a, b := sec % 0x1_0000_0000, usec % 0x1_0000_0000;
    C.Fits32(a);
    C.Fits32(b);
    var data, more := new Byte[5], new Byte[5];
    var len := EncodeIntInternal(data, a);
    var len2 := EncodeIntInternal(more, b);
    Marshal(buf, tag, data[..len] + more[..len2]);
  }

  /** evtag_unmarshal_timeval */
  method UnmarshalTimeval(buf: Evbuffer, needTag: nat) returns (r: Option<(nat, nat)>)
    requires buf.Valid()
    modifies buf`chains, buf`last, buf`lwdp, buf`lwd, buf`totalLen
    ensures buf.Valid()
    ensures var s := old(buf.Contents());
            var h := C.SeenHeader(s, buf.freezeStart);
            if h.None? || |s| - h.value.used < h.value.len || ToInt(h.value.len) == -1 then r == None
            else if ToInt(h.value.len) < 0 then
              r == None && buf.Contents() == s[h.value.used + Drained(|s| - h.value.used, ToInt(h.value.len), buf.freezeStart)..]
            else
              var u := C.UnmarshalTimeval(s, needTag, buf.freezeStart);
              r == u.0 && buf.Contents() == s[u.1..]
  {
    hide Flat, SumOff, Distinct, AllValid, PosOf, LastWithData, LinkAt, Addresses, C.TwoInts, C.SeenHeader;
    hide Evbuffer.Valid, ToInt, DrainedTag;
    ghost var s := buf.Contents();
    HeaderLength(s, buf.freezeStart);
    FrozenHeader(s);
    SmallInt();
    var len, tag := UnmarshalHeader(buf);
    r := None;
    if len == -1 {
      return;
    }
    ghost var s1, used := buf.Contents(), C.SeenHeader(s, buf.freezeStart).value.used;
    if tag == needTag {
      r := ReadTwoInts(buf, len);
    }
    var _ := buf.Drain(ToSize(len));
    DropTwice(s, used, Drained(|s1|, len, buf.freezeStart));
  }

  /** The middle of evtag_unmarshal_timeval; nothing is drained, and no negative length is enough. */
  method ReadTwoInts(buf: Evbuffer, len: int) returns (r: Option<(nat, nat)>)
    requires buf.Valid()
    modifies buf`chains, buf`last, buf`lwdp, buf`lwd
    ensures buf.Valid() && buf.Contents() == old(buf.Contents())
    ensures r == C.TwoInts(buf.Contents(), len) && (len < 0 ==> r.None?)
  {
    hide Flat, SumOff, Distinct, AllValid, PosOf, LastWithData, LinkAt, Addresses, C.DecodeInt, Evbuffer.Valid;
    ghost var s := buf.Contents();
    assert s[0..] == s;
    var x := DecodeIntInternal(buf, 8, 0);
    if x.None? {
      return None;
    }
    ShortInt(s);
    var y := DecodeIntInternal(buf, 8, x.value.1);
    if y.None? || x.value.1 + y.value.1 > len {
      return None;
    }
    r := Some((x.value.0, y.value.0));
  }

  lemma {:induction false} ShortInt(s: seq<Byte>)
    ensures var x := C.DecodeInt(s, 8); x.Some? ==> 1 <= x.value.1 <= 5
  {
  }

  /** Marshal a list of records. */
  method MarshalAll(buf: Evbuffer, rs: seq<C.Record>)
    requires buf.Valid() && !buf.freezeEnd && C.AllValid(rs) && buf.totalLen + |rs| * 0x1_0000_0000 <= SIZE_MAX
    modifies buf`chains, buf`last, buf`lwdp, buf`lwd, buf`totalLen
    ensures buf.Valid() && buf.Contents() == old(buf.Contents()) + C.Stream(rs)
  {
    hide Flat, SumOff, Distinct, AllValid, PosOf, LastWithData, LinkAt, Addresses;
    hide C.Marshal, C.Stream;
    var i := 0;
    ghost var s := buf.Contents();
    StreamStart(rs);
    while i < |rs|
      invariant 0 <= i <= |rs| && buf.Valid() && !buf.freezeEnd
      invariant buf.Contents() + C.Stream(rs[i..]) == s + C.Stream(rs)
      invariant buf.totalLen + (|rs| - i) * 0x1_0000_0000 <= SIZE_MAX
    {
      StreamStep(rs, i);
      MarshalSize(rs[i]);
      ghost var c, m, t := buf.Contents(), C.Marshal(rs[i].tag, rs[i].payload), C.Stream(rs[i + 1..]);
      assert c + (m + t) == c + m + t;
      MarshalledIs(c, rs[i].tag, rs[i].payload, false);
      Marshal(buf, rs[i].tag, rs[i].payload);
      i := i + 1;
    }
    StreamEnd(rs, buf.Contents());
  }

  lemma {:induction false} StreamStart(rs: seq<C.Record>)
    requires C.AllValid(rs)
    ensures rs[0..] == rs
  {
  }

  lemma {:induction false} StreamEnd(rs: seq<C.Record>, s: seq<Byte>)
    ensures C.AllValid(rs[|rs|..]) && C.Stream(rs[|rs|..]) == [] && s + [] == s
  {
  }

  lemma {:induction false} StreamStep(rs: seq<C.Record>, i: nat)
    requires C.AllValid(rs) && i < |rs|
    ensures rs[i].Valid() && C.AllValid(rs[i..]) && C.AllValid(rs[i + 1..])
    ensures C.Stream(rs[i..]) == C.Marshal(rs[i].tag, rs[i].payload) + C.Stream(rs[i + 1..])
  {
    assert rs[i..][1..] == rs[i + 1..];
    assert rs[i].Valid();
  }

  lemma {:induction false} MarshalSize(r: C.Record)
    requires r.Valid()
    ensures |C.Marshal(r.tag, r.payload)| <= |r.payload| + 10
  {
    hide C.EncodeTag, C.EncodeInt32;
    assert C.Pow128(5) == 128 * (128 * (128 * (128 * (128 * C.Pow128(0)))));
    TagLength(r.tag, 5);
  }

  /** Unmarshalling a marshalled stream gives back the records and leaves what followed them. */
  method UnmarshalAll(src: Evbuffer, n: nat, ghost rs: seq<C.Record>, ghost rest: seq<Byte>) returns (out: seq<C.Record>)
    requires src.Valid() && !src.freezeStart && src.totalLen <= SIZE_MAX && n == |rs| && C.AllValid(rs)
    requires src.Contents() == C.Stream(rs) + rest
    modifies src`chains, src`last, src`lwdp, src`lwd, src`totalLen
    ensures src.Valid() && out == rs && src.Contents() == rest
  {
    hide Flat, SumOff, Distinct, AllValid, PosOf, LastWithData, LinkAt, Addresses;
    hide C.Marshal, C.Stream;
    out := [];
    StreamStart(rs);
    while |out| < n
      invariant |out| <= n && out == rs[..|out|] && src.Valid() && !src.freezeStart && src.totalLen <= SIZE_MAX
      invariant src.Contents() == C.Stream(rs[|out|..]) + rest
    {
      StreamStep(rs, |out|);
      var r := UnmarshalOne(src, rs[|out|], C.Stream(rs[|out| + 1..]) + rest);
      out := out + [r];
    }
    StreamEnd(rs, rest);
    assert [] + rest == rest;
  }

  method UnmarshalOne(src: Evbuffer, ghost r: C.Record, ghost rest: seq<Byte>) returns (out: C.Record)
    requires src.Valid() && !src.freezeStart && src.totalLen <= SIZE_MAX && r.Valid()
    requires src.Contents() == C.Marshal(r.tag, r.payload) + rest
    modifies src`chains, src`last, src`lwdp, src`lwd, src`totalLen
    ensures src.Valid() && out == r && src.Contents() == rest
  {
    hide Flat, SumOff, Distinct, AllValid, PosOf, LastWithData, LinkAt;
    hide C.Marshal, C.DecodeHeader, C.EncodeTag, C.EncodeInt32;
    C.HeaderRoundTrip(r.tag, r.payload, rest);
    ghost var s, used := src.Contents(), C.DecodeHeader(src.Contents()).value.used;
    SplitRest(s, used, |r.payload|);
    assert (r.payload + rest)[..|r.payload|] == r.payload && (r.payload + rest)[|r.payload|..] == rest;
    var dst := new Evbuffer();
    NoAddresses();
    var len, tag := Unmarshal(src, dst);
    var p := CopyOut(dst, None, dst.totalLen);
    assert dst.Contents() == [] + r.payload;
    out := C.Record(tag, p.value);
  }
}
