/** The tagged wire format of event_tagging.c as functions on byte strings: nibble integers, varint
    tags, and records. */
module TagCodec {
  import opened Basics

  // ---------- nibbles ----------

  /** Nibble `k` of a byte string, the high one of each byte first. */
  function Nib(s: seq<Byte>, k: nat): (n: nat)
    requires k / 2 < |s|
    ensures n < 16
  {
    if k % 2 == 0 then s[k / 2] as nat / 16 else s[k / 2] as nat % 16
  }

  ghost predicate Small(ns: seq<nat>) {
    forall i :: 0 <= i < |ns| ==> ns[i] < 16
  }

  /** Two nibbles to a byte, padded with a zero nibble. */
  function Pack(ns: seq<nat>): (s: seq<Byte>)
    requires Small(ns)
    ensures |s| == (|ns| + 1) / 2
  {
    if ns == [] then []
    else if |ns| == 1 then [(ns[0] * 16) as Byte]
    else [(ns[0] * 16 + ns[1]) as Byte] + Pack(ns[2..])
  }

  lemma {:induction false} PackNib(ns: seq<nat>, k: nat)
    requires Small(ns) && k < 2 * |Pack(ns)|
    ensures Nib(Pack(ns), k) == if k < |ns| then ns[k] else 0
  {
    if k >= 2 {
      PackNib(ns[2..], k - 2);
      assert Pack(ns)[k / 2] == Pack(ns[2..])[(k - 2) / 2];
    }
  }

  /** A byte string is determined by its nibbles. */
  lemma {:induction false} NibsDetermine(s: seq<Byte>, t: seq<Byte>)
    requires |s| == |t| && forall k: nat :: k < 2 * |s| ==> Nib(s, k) == Nib(t, k)
    ensures s == t
  {
    forall i | 0 <= i < |s| ensures s[i] == t[i] {
      assert Nib(s, 2 * i) == Nib(t, 2 * i) && Nib(s, 2 * i + 1) == Nib(t, 2 * i + 1);
    }
  }

  /** Significant nibbles of a number, least significant first. */
  function Nibbles(n: nat): (ns: seq<nat>)
    ensures Small(ns) && (n == 0 <==> ns == [])
  {
    if n == 0 then [] else [n % 16] + Nibbles(n / 16)
  }

  function FromNibbles(ns: seq<nat>): nat {
    if ns == [] then 0 else ns[0] + 16 * FromNibbles(ns[1..])
  }

  lemma {:induction false} NibblesValue(n: nat)
    ensures FromNibbles(Nibbles(n)) == n
  {
    if n > 0 {
      NibblesValue(n / 16);
    }
  }

  function Pow16(k: nat): (p: nat)
    ensures p > 0
  {
    if k == 0 then 1 else 16 * Pow16(k - 1)
  }

  lemma {:induction false} NibblesCount(n: nat, k: nat)
    requires n < Pow16(k)
    ensures |Nibbles(n)| <= k
  {
    if n > 0 {
      NibblesCount(n / 16, k - 1);
    }
  }

  /** The nibbles of an encoded integer: their number less one, then the number itself. */
  function IntNibbles(n: nat): (ns: seq<nat>)
    requires |Nibbles(n)| <= 16
    ensures Small(ns)
  {
    [if n == 0 then 0 else |Nibbles(n)| - 1] + Nibbles(n)
  }

  /** ENCODE_INT_INTERNAL */
  function EncodeInt(n: nat): (s: seq<Byte>)
    requires |Nibbles(n)| <= 16
    ensures |s| == |Nibbles(n)| / 2 + 1
  {
    Pack(IntNibbles(n))
  }

  /** Nibbles 1 to `n` of a byte string. */
  function Digits(s: seq<Byte>, n: nat): (ns: seq<nat>)
    requires n / 2 < |s|
    ensures |ns| == n && Small(ns)
  {
    seq(n, i requires 0 <= i < n => Nib(s, i + 1))
  }

  /** DECODE_INT_INTERNAL: the number and the bytes it takes. */
  function DecodeInt(s: seq<Byte>, max: nat): Option<(nat, nat)> {
    if s == [] then None
    else
      var n := s[0] as nat / 16 + 1;
      if n > max || n / 2 + 1 > |s| then None else Some((FromNibbles(Digits(s, n)), n / 2 + 1))
  }

  lemma {:induction false} NibblesBelow(ns: seq<nat>, k: nat)
    requires Small(ns) && |ns| <= k
    ensures FromNibbles(ns) < Pow16(k)
  {
    if ns != [] {
      NibblesBelow(ns[1..], k - 1);
    }
  }

  /** What is decoded fits the C type it is stored in: 32 bits for 8 nibbles, 64 for 16. */
  lemma {:induction false} DecodedFits(s: seq<Byte>, max: nat)
    ensures var n := DecodeInt(s, max); n.Some? ==> n.value.0 < Pow16(max)
  {
    if DecodeInt(s, max).Some? {
      NibblesBelow(Digits(s, s[0] as nat / 16 + 1), max);
    }
  }

  /** An encoded integer is decoded to itself, whatever follows it. */
  lemma {:induction false} IntRoundTrip(n: nat, max: nat, rest: seq<Byte>)
    requires |Nibbles(n)| <= max <= 16 && max >= 1
    ensures DecodeInt(EncodeInt(n) + rest, max) == Some((n, |EncodeInt(n)|))
  {
    hide Nibbles, FromNibbles, Pack;
    var e := EncodeInt(n);
    var s := e + rest;
    PackNib(IntNibbles(n), 0);
    var c := s[0] as nat / 16 + 1;
    assert Nib(e, 0) == c - 1;
    forall i | 0 <= i < c ensures Digits(s, c)[i] == if n == 0 then 0 else Nibbles(n)[i] {
      PackNib(IntNibbles(n), i + 1);
      assert s[(i + 1) / 2] == e[(i + 1) / 2];
    }
    NibblesValue(n);
    if n == 0 {
      assert Digits(s, c) == [0];
      ZeroDigit();
    } else {
      assert Digits(s, c) == Nibbles(n);
    }
  }

  lemma {:induction false} ZeroDigit()
    ensures FromNibbles([0]) == 0
  {
    assert [0][1..] == [];
  }

  // ---------- tags ----------

  /** evtag_encode_tag: seven bits to a byte, least significant first, high bit for "more". */
  function EncodeTag(tag: nat): (s: seq<Byte>)
    ensures |s| > 0
  {
    if tag < 128 then [tag as Byte] else [(tag % 128 + 128) as Byte] + EncodeTag(tag / 128)
  }

  /** decode_tag_internal from byte `k` on, where 7 * k is the shift: value and bytes used. */
  function DecodeTagAt(s: seq<Byte>, k: nat): Option<(nat, nat)>
    decreases |s| - k
  {
    if k >= |s| || k > 4 then None
    else
      var low := s[k] as nat % 128;
      if k == 4 && low > 15 then None
      else if s[k] < 128 then Some((low, k + 1))
      else
        var rest := DecodeTagAt(s, k + 1);
        if rest.None? then None else Some((low + 128 * rest.value.0, rest.value.1))
  }

  function DecodeTag(s: seq<Byte>): Option<(nat, nat)> {
    DecodeTagAt(s, 0)
  }

  function Pow128(k: nat): nat {
    if k == 0 then 1 else 128 * Pow128(k - 1)
  }

  /** Encoded from byte `k` on, with 32 - 7 * k bits left to use. */
  lemma {:induction false} TagRoundTripAt(pre: seq<Byte>, tag: nat, rest: seq<Byte>)
    requires |pre| <= 4 && tag < 16 * Pow128(4 - |pre|)
    ensures DecodeTagAt(pre + EncodeTag(tag) + rest, |pre|) == Some((tag, |pre| + |EncodeTag(tag)|))
    decreases tag
  {
    var e := EncodeTag(tag);
    var s := pre + e + rest;
    assert s[|pre|] == e[0];
    assert |pre| == 4 ==> Pow128(4 - |pre|) == 1;
    if tag >= 128 {
      var pre' := pre + [e[0]];
      assert e == [e[0]] + EncodeTag(tag / 128);
      assert s == pre' + EncodeTag(tag / 128) + rest;
      assert Pow128(4 - |pre|) == 128 * Pow128(4 - |pre'|);
      TagRoundTripAt(pre', tag / 128, rest);
    }
  }

  lemma {:induction false} TagRoundTrip(tag: nat, rest: seq<Byte>)
    requires tag < 0x1_0000_0000
    ensures DecodeTag(EncodeTag(tag) + rest) == Some((tag, |EncodeTag(tag)|))
  {
    assert Pow128(4) == 128 * (128 * (128 * (128 * Pow128(0))));
    TagRoundTripAt([], tag, rest);
    assert [] + EncodeTag(tag) + rest == EncodeTag(tag) + rest;
  }

  // ---------- records ----------

  datatype Record = Record(tag: nat, payload: seq<Byte>) {
    /** A 32-bit tag and a payload whose length fits a C `int`. */
    predicate Valid() {
      tag < 0x1_0000_0000 && |payload| < 0x8000_0000
    }
  }

  lemma {:induction false} Fits32(n: nat)
    requires n < 0x1_0000_0000
    ensures |Nibbles(n)| <= 8
  {
    assert Pow16(8) == 16 * (16 * (16 * (16 * (16 * (16 * (16 * (16 * Pow16(0))))))));
    NibblesCount(n, 8);
  }

  lemma {:induction false} Fits64(n: nat)
    requires n < 0x1_0000_0000_0000_0000
    ensures |Nibbles(n)| <= 16
  {
    assert Pow16(8) == 16 * (16 * (16 * (16 * (16 * (16 * (16 * (16 * Pow16(0))))))));
    assert Pow16(12) == 16 * (16 * (16 * (16 * Pow16(8))));
    assert Pow16(16) == 16 * (16 * (16 * (16 * Pow16(12))));
    NibblesCount(n, 16);
  }

  /** evtag_encode_int for a 32-bit number */
  function EncodeInt32(n: nat): (s: seq<Byte>)
    requires n < 0x1_0000_0000
    ensures 1 <= |s| <= 5
  {
    Fits32(n);
    EncodeInt(n)
  }

  lemma {:induction false} Int32RoundTrip(n: nat, rest: seq<Byte>)
    requires n < 0x1_0000_0000
    ensures DecodeInt(EncodeInt32(n) + rest, 8) == Some((n, |EncodeInt32(n)|))
  {
    Fits32(n);
    IntRoundTrip(n, 8, rest);
  }

  /** evtag_marshal */
  function Marshal(tag: nat, payload: seq<Byte>): seq<Byte>
    requires |payload| < 0x1_0000_0000
  {
    EncodeTag(tag) + EncodeInt32(|payload|) + payload
  }

  ghost predicate AllValid(rs: seq<Record>) {
    forall i :: 0 <= i < |rs| ==> rs[i].Valid()
  }

  function Stream(rs: seq<Record>): seq<Byte>
    requires AllValid(rs)
  {
    if rs == [] then []
    else
      assert rs[0].Valid();
      Marshal(rs[0].tag, rs[0].payload) + Stream(rs[1..])
  }

  /** Tag, payload length and header length at the start of a stream. */
  datatype Header = Header(tag: nat, len: nat, used: nat)

  function DecodeHeader(s: seq<Byte>): (h: Option<Header>)
    ensures h.Some? ==> h.value.used <= |s|
  {
    var t := DecodeTag(s);
    if t.None? then None
    else
      DecodeTagUsed(s, 0);
      var n := DecodeInt(s[t.value.1..], 8);
      if n.None? then None else Some(Header(t.value.0, n.value.0, t.value.1 + n.value.1))
  }

  /** The header as evtag_unmarshal_header sees it, and the bytes it drains. At the front of a frozen buffer
      nothing is drained, so that the length is read from the bytes of the tag. */
  function SeenHeader(s: seq<Byte>, frozen: bool): (h: Option<Header>)
    ensures h.Some? ==> h.value.used <= |s|
    ensures !frozen ==> h == DecodeHeader(s)
  {
    var t, n := DecodeTag(s), DecodeInt(s, 8);
    if !frozen then DecodeHeader(s)
    else if t.None? || n.None? then None
    else Some(Header(t.value.0, n.value.0, 0))
  }

  lemma {:induction false} DecodeTagUsed(s: seq<Byte>, k: nat)
    ensures DecodeTagAt(s, k).Some? ==> k < DecodeTagAt(s, k).value.1 <= |s| && DecodeTagAt(s, k).value.1 <= 5
    decreases |s| - k
  {
    if k < |s| {
      DecodeTagUsed(s, k + 1);
    }
  }

  lemma {:induction false} HeaderRoundTrip(tag: nat, payload: seq<Byte>, rest: seq<Byte>)
    requires tag < 0x1_0000_0000 && |payload| < 0x1_0000_0000
    ensures var s := Marshal(tag, payload) + rest;
            var used := |EncodeTag(tag)| + |EncodeInt32(|payload|)|;
            DecodeHeader(s) == Some(Header(tag, |payload|, used)) && s[used..] == payload + rest
  {
    hide EncodeInt32, EncodeTag, DecodeInt, DecodeTagAt;
    var t, n := EncodeTag(tag), EncodeInt32(|payload|);
    var s := Marshal(tag, payload) + rest;
    assert s == t + (n + (payload + rest));
    TagRoundTrip(tag, n + (payload + rest));
    assert s[|t|..] == n + (payload + rest);
    Int32RoundTrip(|payload|, payload + rest);
    assert s[|t| + |n|..] == payload + rest;
  }

  /** `s` without its first `n` bytes, unless it is the content of a frozen buffer. */
  function Drop(s: seq<Byte>, n: nat, frozen: bool): seq<Byte>
    requires n <= |s|
  {
    if frozen then s else s[n..]
  }

  /** evtag_unmarshal_int and evtag_unmarshal_int64: the number, and what is left even on failure. */
  function UnmarshalInt(s: seq<Byte>, needTag: nat, max: nat, frozen: bool): (Option<nat>, seq<Byte>) {
    DecodeTagUsed(s, 0);
    var t := DecodeTag(s);
    if t.None? then (None, s)
    else
      var s1 := Drop(s, t.value.1, frozen);
      var n := DecodeInt(s1, 8);
      if t.value.0 != needTag || n.None? then (None, s1)
      else
        var s2 := Drop(s1, n.value.1, frozen);
        if |s2| < n.value.0 then (None, s2)
        else
          var v := DecodeInt(s2, max);
          (if v.None? || v.value.1 > n.value.0 then None else Some(v.value.0), Drop(s2, n.value.0, frozen))
  }

  /** The wire format byte by byte: seven bits of a tag at a time, lowest first; the nibbles of an integer behind their
      number less one, lowest first; tag, length and payload in this order. */
  lemma {:induction false} WireFormat()
    ensures EncodeTag(0x166) == [0xe6, 0x02]
    ensures |Nibbles(0x123)| == 3 && EncodeInt(0x123) == [0x23, 0x21] && |Nibbles(0)| == 0 && EncodeInt(0) == [0]
    ensures |Nibbles(1)| == 1 && Marshal(0x166, [7]) == [0xe6, 0x02, 0x01, 7]
  {
    hide Nibbles, EncodeInt;
    assert EncodeTag(2) == [2];
    NibblesOf();
    IntOf(0, []);
    IntOf(1, [1]);
    IntOf(0x123, [3, 2, 1]);
    PackTwo(2, 3, [2, 1]);
    PackTwo(2, 1, []);
    PackTwo(0, 1, []);
    assert [2] + [3, 2, 1] == [2, 3] + [2, 1] && [2, 1] + [] == [2, 1] && [0] + [1] == [0, 1] + [];
  }

  lemma {:induction false} NibblesOf()
    ensures Nibbles(0) == [] && Nibbles(1) == [1] && Nibbles(0x123) == [3, 2, 1]
  {
    assert Nibbles(0x1) == [1] + Nibbles(0);
    assert Nibbles(0x12) == [2] + Nibbles(0x1) == [2, 1];
    assert Nibbles(0x123) == [3] + Nibbles(0x12);
  }

  lemma {:induction false} IntOf(n: nat, ns: seq<nat>)
    requires Nibbles(n) == ns && |ns| <= 16
    ensures var head := [if n == 0 then 0 else |ns| - 1]; Small(head + ns) && EncodeInt(n) == Pack(head + ns)
  {
    hide Pack, Nibbles;
  }

  lemma {:induction false} PackTwo(a: nat, b: nat, rest: seq<nat>)
    requires a < 16 && b < 16 && Small(rest)
    ensures Small([a, b] + rest) && Pack([a, b] + rest) == [(a * 16 + b) as Byte] + Pack(rest)
  {
    assert ([a, b] + rest)[2..] == rest;
  }

  /** An integer that needs more than its payload, or a payload longer than what is there, is refused. */
  lemma {:induction false} ShortRecordRefused(s: seq<Byte>, needTag: nat, max: nat)
    ensures var h := DecodeHeader(s);
            h.Some? ==>
              var rest := s[h.value.used..];
              var v := DecodeInt(rest, max);
              && (|rest| < h.value.len ==> UnmarshalInt(s, needTag, max, false).0.None?)
              && (v.Some? && v.value.1 > h.value.len ==> UnmarshalInt(s, needTag, max, false).0.None?)
              && (DecodeTag(s).value.0 == needTag && |rest| >= h.value.len && v.Some? && v.value.1 <= h.value.len ==>
                    UnmarshalInt(s, needTag, max, false) == (Some(v.value.0), rest[h.value.len..]))
    ensures forall len: int :: TwoInts(s, len).Some? ==>
              var x := DecodeInt(s, 8);
              && x.Some? && x.value.1 <= |s| && x.value.0 == TwoInts(s, len).value.0
              && var y := DecodeInt(s[x.value.1..], 8);
                 y.Some? && y.value.0 == TwoInts(s, len).value.1 && x.value.1 + y.value.1 <= len
  {
    hide DecodeTagAt;
    DecodeTagUsed(s, 0);
    var h := DecodeHeader(s);
    if h.Some? {
      var t := DecodeTag(s).value.1;
      var n := DecodeInt(s[t..], 8).value.1;
      assert s[t..][n..] == s[t + n..];
    }
  }

  /** A record with another tag is no integer, and no time, for this one. */
  lemma {:induction false} OtherTagRefused(s: seq<Byte>, needTag: nat, max: nat, frozen: bool)
    ensures DecodeTag(s).Some? && DecodeTag(s).value.0 != needTag ==> UnmarshalInt(s, needTag, max, frozen).0.None?
    ensures var h := SeenHeader(s, frozen);
            h.Some? && |s| - h.value.used >= h.value.len && DecodeTag(s).Some? && DecodeTag(s).value.0 != needTag ==>
              UnmarshalTimeval(s, needTag, frozen).0.None?
  {
    hide DecodeInt, DecodeTagAt, TwoInts;
    DecodeTagUsed(s, 0);
  }

  /** A decoded tag has 32 bits. */
  lemma {:induction false} DecodedTagFits(s: seq<Byte>)
    ensures DecodeTag(s).Some? ==> DecodeTag(s).value.0 < 0x1_0000_0000
  {
    TagBelow(s, 0);
    assert Pow128(4) == 128 * (128 * (128 * (128 * Pow128(0))));
  }

  lemma {:induction false} PowSome(k: nat)
    requires k > 0
    ensures Pow128(k) >= 128
  {
    if k > 1 {
      PowSome(k - 1);
    } else {
      assert Pow128(0) == 1;
    }
  }

  /** What is decoded from byte `k` on is below 2^(32 - 7k). */
  lemma {:induction false} TagBelow(s: seq<Byte>, k: nat)
    requires k <= 4
    ensures DecodeTagAt(s, k).Some? ==> DecodeTagAt(s, k).value.0 < 16 * Pow128(4 - k)
    decreases 4 - k
  {
    if k < 4 {
      TagBelow(s, k + 1);
      var p := Pow128(4 - (k + 1));
      assert Pow128(4 - k) == 128 * p;
      if DecodeTagAt(s, k).Some? && s[k] >= 128 {
        var low, v := s[k] as nat % 128, DecodeTagAt(s, k + 1).value.0;
        assert DecodeTagAt(s, k).value.0 == low + 128 * v;
        assert v <= 16 * p - 1;
      } else {
        PowSome(4 - k);
      }
    } else {
      assert Pow128(0) == 1;
    }
  }

  lemma {:induction false} UnmarshalIntRoundTrip(tag: nat, n: nat, max: nat, rest: seq<Byte>)
    requires tag < 0x1_0000_0000 && 1 <= max <= 16 && |Nibbles(n)| <= max
    ensures var m := Marshal(tag, EncodeInt(n));
            UnmarshalInt(m + rest, tag, max, false) == (Some(n), rest)
  {
    hide EncodeInt32, EncodeTag, DecodeInt, DecodeTagAt, EncodeInt, Nibbles;
    var e := EncodeInt(n);
    HeaderRoundTrip(tag, e, rest);
    IntRoundTrip(n, max, rest);
    DecodeTagUsed(Marshal(tag, e) + rest, 0);
  }

  /** Two integers, one after the other, within `len` bytes. */
  function TwoInts(s: seq<Byte>, len: int): Option<(nat, nat)> {
    var x := DecodeInt(s, 8);
    var y := if x.None? then None else DecodeInt(s[x.value.1..], 8);
    if x.None? || y.None? || x.value.1 + y.value.1 > len then None else Some((x.value.0, y.value.0))
  }

  /** evtag_unmarshal_timeval: seconds and microseconds, and the bytes drained even on failure. */
  function UnmarshalTimeval(s: seq<Byte>, needTag: nat, frozen: bool): (r: (Option<(nat, nat)>, nat))
    requires var h := SeenHeader(s, frozen); h.Some? && |s| - h.value.used >= h.value.len
    ensures r.1 <= |s|
  {
    var h := SeenHeader(s, frozen).value;
    (if h.tag != needTag then None else TwoInts(s[h.used..], h.len), if frozen then 0 else h.used + h.len)
  }

  lemma {:induction false} UnmarshalTimevalRoundTrip(tag: nat, sec: nat, usec: nat, rest: seq<Byte>)
    requires tag < 0x1_0000_0000 && sec < 0x1_0000_0000 && usec < 0x1_0000_0000
    ensures var m := Marshal(tag, EncodeInt32(sec) + EncodeInt32(usec));
            var h := DecodeHeader(m + rest);
            && h.Some? && |m + rest| - h.value.used >= h.value.len
            && UnmarshalTimeval(m + rest, tag, false) == (Some((sec, usec)), |m|)
  {
    hide EncodeInt32, EncodeTag, DecodeInt, DecodeHeader;
    var a, b := EncodeInt32(sec), EncodeInt32(usec);
    HeaderRoundTrip(tag, a + b, rest);
    assert (a + b) + rest == a + (b + rest) && (a + (b + rest))[|a|..] == b + rest;
    Int32RoundTrip(sec, b + rest);
    Int32RoundTrip(usec, rest);
  }
}
