/** DNS names on the wire: the parser name_parse and the encoder dnsname_to_labels with its label
    table (section 4.1.4 of RFC 1035). */
module DnsNames {
  import opened Basics

  const DOT: Byte := 46
  const MAX_LABEL := 63
  const MAX_NAME := 255
  const MAX_LABELS := 128
  /** Positions a 14-bit pointer can name. */
  const POINTER_LIMIT := 0x4000

  /** A name read from a packet: its labels and the index after its representation. */
  datatype Name = Name(labels: seq<seq<Byte>>, next: nat)

  function Pointer(hi: Byte, lo: Byte): nat {
    (hi as nat) % 64 * 256 + lo as nat
  }

  /** What name_parse reads at `j` after following `jumps` pointers. */
  function Walk(packet: seq<Byte>, j: nat, jumps: nat): (r: Option<Name>)
    requires jumps <= |packet|
    decreases |packet| - jumps, |packet| - j
  {
    if j >= |packet| then None
    else
      var len := packet[j] as nat;
      if len == 0 then Some(Name([], j + 1))
      else if len >= 64 then
        if j + 1 >= |packet| then None
        else
          var target := Pointer(packet[j], packet[j + 1]);
          if target >= |packet| || jumps + 1 > |packet| then None
          else
            var rest := Walk(packet, target, jumps + 1);
            if rest.None? then None else Some(Name(rest.value.labels, j + 2))
      else if j + 1 + len > |packet| then None
      else
        var rest := Walk(packet, j + 1 + len, jumps);
        if rest.None? then None
        else Some(Name([packet[j + 1..j + 1 + len]] + rest.value.labels, rest.value.next))
  }

  /** Labels with dots between them. */
  function Join(labels: seq<seq<Byte>>): seq<Byte> {
    if labels == [] then []
    else if |labels| == 1 then labels[0]
    else labels[0] + [DOT] + Join(labels[1..])
  }

  lemma {:induction false} JoinSnoc(labels: seq<seq<Byte>>, l: seq<Byte>)
    ensures Join(labels + [l]) == if labels == [] then l else Join(labels) + [DOT] + l
  {
    if |labels| == 1 {
      assert (labels + [l])[1..] == [l];
    } else if |labels| > 1 {
      assert (labels + [l])[1..] == labels[1..] + [l];
      JoinSnoc(labels[1..], l);
    }
  }

  /** Putting the labels read so far in front of what is still to be read. */
  function Prefixed(labels: seq<seq<Byte>>, end: Option<nat>, rest: Option<Name>): Option<Name> {
    if rest.None? then None
    else Some(Name(labels + rest.value.labels, if end.Some? then end.value else rest.value.next))
  }

  lemma {:induction false} JoinLonger(a: seq<seq<Byte>>, b: seq<seq<Byte>>)
    ensures |Join(a)| <= |Join(a + b)|
  {
    if b == [] {
      assert a + b == a;
    } else {
      var n := |b| - 1;
      JoinLonger(a, b[..n]);
      assert a + b == (a + b[..n]) + [b[n]];
      JoinSnoc(a + b[..n], b[n]);
    }
  }

  /** Nothing can be read at `j`. */
  lemma {:induction false} WalkFails(packet: seq<Byte>, j: nat, jumps: nat, labels: seq<seq<Byte>>, end: Option<nat>)
    requires jumps <= |packet|
    requires || j >= |packet|
             || (packet[j] >= 64 && (j + 1 >= |packet| || Pointer(packet[j], packet[j + 1]) >= |packet| || jumps == |packet|))
             || (0 < packet[j] < 64 && j + 1 + packet[j] as nat > |packet|)
    ensures Prefixed(labels, end, Walk(packet, j, jumps)).None?
  {
  }

  lemma {:induction false} WalkEnds(packet: seq<Byte>, j: nat, jumps: nat, labels: seq<seq<Byte>>, end: Option<nat>)
    requires jumps <= |packet| && j < |packet| && packet[j] == 0
    ensures Prefixed(labels, end, Walk(packet, j, jumps)) == Some(Name(labels, if end.Some? then end.value else j + 1))
  {
    assert labels + [] == labels;
  }

  lemma {:induction false} WalkJumps(packet: seq<Byte>, j: nat, jumps: nat, labels: seq<seq<Byte>>, end: Option<nat>)
    requires jumps < |packet| && j + 1 < |packet| && packet[j] >= 64 && Pointer(packet[j], packet[j + 1]) < |packet|
    ensures Prefixed(labels, end, Walk(packet, j, jumps)) ==
            Prefixed(labels, if end.Some? then end else Some(j + 2), Walk(packet, Pointer(packet[j], packet[j + 1]), jumps + 1))
  {
  }

  lemma {:induction false} WalkReads(packet: seq<Byte>, j: nat, jumps: nat, labels: seq<seq<Byte>>, end: Option<nat>)
    requires jumps <= |packet| && j < |packet| && 0 < packet[j] < 64 && j + 1 + packet[j] as nat <= |packet|
    ensures var k := j + 1 + packet[j] as nat;
            Prefixed(labels, end, Walk(packet, j, jumps)) == Prefixed(labels + [packet[j + 1..k]], end, Walk(packet, k, jumps))
  {
    var k := j + 1 + packet[j] as nat;
    var rest := Walk(packet, k, jumps);
    if rest.Some? {
      assert labels + ([packet[j + 1..k]] + rest.value.labels) == labels + [packet[j + 1..k]] + rest.value.labels;
    }
  }

  /** A name that already overflows the output cannot fit. */
  lemma {:induction false} TooLong(labels: seq<seq<Byte>>, end: Option<nat>, rest: Option<Name>, outLen: nat)
    requires |Join(labels)| >= outLen
    ensures var w := Prefixed(labels, end, rest); w.Some? ==> |Join(w.value.labels)| >= outLen
  {
    if rest.Some? {
      JoinLonger(labels, rest.value.labels);
    }
  }

  /** name_parse. It terminates on every packet, cyclic pointers included, reads only inside the
      packet, and succeeds exactly when the walk does and the dotted name fits with its NUL. */
  method NameParse(packet: seq<Byte>, idx: nat, outLen: nat) returns (r: Option<(seq<Byte>, nat)>)
    ensures var w := Walk(packet, idx, 0);
            && (r.Some? <==> w.Some? && |Join(w.value.labels)| < outLen)
            && (r.Some? ==> r.value == (Join(w.value.labels), w.value.next))
    ensures r.Some? ==> idx < r.value.1 <= |packet|
  {
    hide Walk, Prefixed, Join, Pointer;
    var end: Option<nat>, j: nat, jumps: nat, out: seq<Byte> := None, idx, 0, [];
    ghost var labels: seq<seq<Byte>> := [];
    ghost var w := Walk(packet, idx, 0);
    PrefixedNone(w);
    while true
      invariant jumps <= |packet| && out == Join(labels) && (out == [] <==> labels == [])
      invariant w == Prefixed(labels, end, Walk(packet, j, jumps))
      invariant if end.Some? then idx < end.value <= |packet| else idx <= j
      decreases |packet| - jumps, |packet| - j
    {
      if j >= |packet| {
        WalkFails(packet, j, jumps, labels, end);
        return None;
      }
      var len := packet[j] as nat;
      if len == 0 {
        WalkEnds(packet, j, jumps, labels, end);
        j := j + 1;
        break;
      }
      if len >= 64 {
        if j + 1 >= |packet| || Pointer(packet[j], packet[j + 1]) >= |packet| || jumps + 1 > |packet| {
          WalkFails(packet, j, jumps, labels, end);
          return None;
        }
        WalkJumps(packet, j, jumps, labels, end);
        if end.None? {
          end := Some(j + 2);
        }
        j := Pointer(packet[j], packet[j + 1]);
        jumps := jumps + 1;
        continue;
      }
      if j + 1 + len > |packet| {
        WalkFails(packet, j, jumps, labels, end);
        return None;
      }
      WalkReads(packet, j, jumps, labels, end);
      var word := packet[j + 1..j + 1 + len];
      JoinSnoc(labels, word);
      labels := labels + [word];
      if (out != [] && |out| + 1 >= outLen) || |out| + (if out != [] then 1 else 0) + len >= outLen {
        TooLong(labels, end, Walk(packet, j + 1 + len, jumps), outLen);
        return None;
      }
      out := if out != [] then out + [DOT] + word else word;
      j := j + 1 + len;
    }
    if |out| >= outLen {
      return None;
    }
    r := Some((out, if end.Some? then end.value else j));
  }

  lemma {:induction false} PrefixedNone(w: Option<Name>)
    ensures Prefixed([], None, w) == w && Join([]) == []
  {
    if w.Some? {
      assert [] + w.value.labels == w.value.labels;
    }
  }

  // ---------- encoding ----------

  /** Position of the first dot, or the length when there is none (strchr). */
  function FirstDot(name: seq<Byte>): (i: nat)
    ensures i <= |name| && (i < |name| ==> name[i] == DOT)
    ensures forall k :: 0 <= k < i ==> name[k] != DOT
  {
    if name == [] || name[0] == DOT then 0 else 1 + FirstDot(name[1..])
  }

  /** The labels a reader sees: those before the first empty label. */
  function Visible(name: seq<Byte>): seq<seq<Byte>>
    decreases |name|
  {
    var i := FirstDot(name);
    if i == 0 then []
    else if i == |name| then [name]
    else [name[..i]] + Visible(name[i + 1..])
  }

  /** No label is empty; in particular there is no trailing dot. */
  predicate NoEmptyLabel(name: seq<Byte>)
    decreases |name|
  {
    var i := FirstDot(name);
    i > 0 && (i < |name| ==> NoEmptyLabel(name[i + 1..]))
  }

  /** At most the last label is empty. */
  predicate EmptyOnlyLast(name: seq<Byte>)
    decreases |name|
  {
    var i := FirstDot(name);
    i < |name| ==> i > 0 && EmptyOnlyLast(name[i + 1..])
  }

  lemma {:induction false} VisibleShorter(name: seq<Byte>)
    ensures |Join(Visible(name))| <= |name|
  {
    var i := FirstDot(name);
    if 0 < i < |name| {
      VisibleShorter(name[i + 1..]);
    }
  }

  /** The dotted form of what a reader sees is the name itself exactly when no label is empty. */
  lemma {:induction false} VisibleIsName(name: seq<Byte>)
    ensures Join(Visible(name)) == name <==> name == [] || NoEmptyLabel(name)
    ensures NoEmptyLabel(name) ==> Visible(name) != []
    decreases |name|
  {
    var i := FirstDot(name);
    if 0 < i < |name| {
      var rest := name[i + 1..];
      VisibleIsName(rest);
      VisibleShorter(rest);
      var v := Visible(rest);
      assert name == name[..i] + [DOT] + rest;
      assert Visible(name)[1..] == v;
      if v != [] {
        assert Join(Visible(name)) == name[..i] + [DOT] + Join(v);
        if Join(Visible(name)) == name {
          assert Join(v) == (name[..i] + [DOT] + Join(v))[i + 1..] == rest;
        }
      }
    }
  }

  lemma {:induction false} LostAfter(name: seq<Byte>, rest: seq<Byte>)
    requires |name| > 1 && name[0] != DOT && name[1] == DOT && rest == name[2..] && FirstDot(rest) == 0
    ensures Join(Visible(name)) == [name[0]]
  {
    assert FirstDot(name[1..]) == 0;
    assert FirstDot(name) == 1;
    assert Visible(rest) == [] && name[..1] == [name[0]];
    assert Visible(name) == [[name[0]]];
  }

  /** A trailing or doubled dot: the name is not read back, nor is what follows the empty label. */
  lemma {:induction false} EmptyLabelLost()
    ensures var a: Byte, b: Byte := 97, 98; Join(Visible([a, DOT])) == [a] && Join(Visible([a, DOT, DOT, b])) == [a]
  {
    var a: Byte, b: Byte := 97, 98;
    LostAfter([a, DOT], []);
    LostAfter([a, DOT, DOT, b], [DOT, b]);
  }

  /** `struct dnslabel_entry` */
  datatype Entry = Entry(v: seq<Byte>, pos: nat)

  /** dnslabel_table_get_pos */
  function GetPos(table: seq<Entry>, name: seq<Byte>): (i: Option<nat>)
    ensures i.Some? ==> i.value < |table| && table[i.value].v == name
    ensures i.None? ==> forall k :: 0 <= k < |table| ==> table[k].v != name
  {
    if table == [] then None
    else if table[0].v == name then Some(0)
    else
      var i := GetPos(table[1..], name);
      if i.None? then (assert forall k :: 1 <= k < |table| ==> table[k] == table[1..][k - 1]; None)
      else Some(i.value + 1)
  }

  /** dnslabel_table_add: silently refused when the table is full. */
  function AddLabel(table: seq<Entry>, name: seq<Byte>, pos: nat): seq<Entry> {
    if |table| == MAX_LABELS then table else table + [Entry(name, pos)]
  }

  /** Outcome of dnsname_to_labels: the message so far, or one of its error codes. */
  datatype Encoded = Bad(code: int) | Done(bytes: seq<Byte>, table: seq<Entry>)

  /** APPEND16(ref | 0xc000) */
  function PointerBytes(ref: nat): (p: seq<Byte>)
    ensures |p| == 2
  {
    [(192 + ref / 256 % 64) as Byte, (ref % 256) as Byte]
  }

  /** What dnsname_to_labels appends to the message `b`; `tabled` says whether it got a table. */
  function Encode(b: seq<Byte>, limit: nat, name: seq<Byte>, table: seq<Entry>, tabled: bool): Encoded
    decreases |name|
  {
    var ref := GetPos(table, name);
    if tabled && ref.Some? then
      if |b| + 2 > limit then Bad(-2) else Done(b + PointerBytes(table[ref.value].pos), table)
    else
      var i := FirstDot(name);
      if i > MAX_LABEL then Bad(-1)
      else if |b| + i + 1 > limit then Bad(-2)
      else
        var table' := if tabled then AddLabel(table, name, |b|) else table;
        var b' := b + [i as Byte] + name[..i];
        if i == |name| then Done(if b'[|b'| - 1] != 0 then b' + [0] else b', table')
        else Encode(b', limit, name[i + 1..], table', tabled)
  }

  /** The label table of one message. */
  class LabelTable {
    var labels: seq<Entry>
    constructor ()
      ensures labels == []
    {
      labels := [];
    }
  }

  ghost function Labels(table: LabelTable?): seq<Entry>
    reads table
  {
    if table == null then [] else table.labels
  }

  /** memcpy to the end of the message. */
  method PutBytes(buf: array<Byte>, j: nat, bytes: seq<Byte>)
    requires j + |bytes| <= buf.Length
    modifies buf
    ensures buf[..j + |bytes|] == old(buf[..j]) + bytes
  {
    forall k | 0 <= k < |bytes| {
      buf[j + k] := bytes[k];
    }
    assert buf[j..j + |bytes|] == bytes;
    assert buf[..j + |bytes|] == buf[..j] + buf[j..j + |bytes|];
  }

  /** dnsname_to_labels, writing into `buf` from `j0` on. `buf` has a byte to spare beyond `limit`,
      because the final NUL is written without a check. */
  method ToLabels(buf: array<Byte>, limit: nat, j0: nat, name: seq<Byte>, table: LabelTable?) returns (r: int)
    requires limit < buf.Length && j0 <= limit
    modifies buf, table
    ensures var e := if |name| > MAX_NAME then Bad(-2)
                     else Encode(old(buf[..j0]), limit, name, old(Labels(table)), table != null);
            if e.Bad? then r == e.code
            else r == |e.bytes| <= limit + 1 && buf[..r] == e.bytes && (table != null ==> table.labels == e.table)
  {
    hide Encode, GetPos, FirstDot, AddLabel, PointerBytes;
    if |name| > MAX_NAME {
      return -2;
    }
    var j, rest := j0, name;
    ghost var b := buf[..j];
    ghost var e := Encode(b, limit, name, Labels(table), table != null);
    while true
      invariant j0 <= j <= limit && b == buf[..j]
      invariant e == Encode(b, limit, rest, Labels(table), table != null)
      decreases |rest|
    {
      EncodeUnfold(b, limit, rest, Labels(table), table != null);
      if table != null {
        var ref := GetPos(table.labels, rest);
        if ref.Some? {
          if j + 2 > limit {
            return -2;
          }
          PutBytes(buf, j, PointerBytes(table.labels[ref.value].pos));
          return j + 2;
        }
      }
      var i := FirstDot(rest);
      if i > MAX_LABEL {
        return -1;
      }
      if j + i + 1 > limit {
        return -2;
      }
      if table != null {
        table.labels := AddLabel(table.labels, rest, j);
      }
      PutBytes(buf, j, [i as Byte] + rest[..i]);
      assert b + [i as Byte] + rest[..i] == b + ([i as Byte] + rest[..i]);
      b := b + [i as Byte] + rest[..i];
      j := j + 1 + i;
      if i == |rest| {
        break;
      }
      rest := rest[i + 1..];
    }
    if buf[j - 1] != 0 {
      PutBytes(buf, j, [0]);
      j := j + 1;
    }
    r := j;
  }

  lemma {:induction false} EncodeUnfold(b: seq<Byte>, limit: nat, name: seq<Byte>, table: seq<Entry>, tabled: bool)
    ensures Encode(b, limit, name, table, tabled) ==
      var ref := GetPos(table, name);
      if tabled && ref.Some? then
        if |b| + 2 > limit then Bad(-2) else Done(b + PointerBytes(table[ref.value].pos), table)
      else
        var i := FirstDot(name);
        if i > MAX_LABEL then Bad(-1)
        else if |b| + i + 1 > limit then Bad(-2)
        else
          var table' := if tabled then AddLabel(table, name, |b|) else table;
          var b' := b + [i as Byte] + name[..i];
          if i == |name| then Done(if b'[|b'| - 1] != 0 then b' + [0] else b', table')
          else Encode(b', limit, name[i + 1..], table', tabled)
  {
  }

  // ---------- what was encoded can be read back ----------

  /** Like Walk, for names whose pointers lead to ever smaller positions, the first below `lim`. */
  ghost function Read(b: seq<Byte>, p: nat, lim: nat): Option<Name>
    decreases lim, |b| - p
  {
    if p >= |b| then None
    else
      var len := b[p] as nat;
      if len == 0 then Some(Name([], p + 1))
      else if len >= 64 then
        if p + 1 >= |b| || Pointer(b[p], b[p + 1]) >= lim then None
        else
          var target := Pointer(b[p], b[p + 1]);
          var rest := Read(b, target, target);
          if rest.None? then None else Some(Name(rest.value.labels, p + 2))
      else if p + 1 + len > |b| then None
      else
        var rest := Read(b, p + 1 + len, lim);
        if rest.None? then None
        else Some(Name([b[p + 1..p + 1 + len]] + rest.value.labels, rest.value.next))
  }

  /** Pointers that only lead back cannot exhaust the parser's pointer budget. */
  lemma {:induction false} ReadIsWalk(b: seq<Byte>, p: nat, lim: nat, jumps: nat)
    requires Read(b, p, lim).Some? && jumps + lim <= |b|
    ensures Walk(b, p, jumps) == Read(b, p, lim)
    decreases lim, |b| - p
  {
    var len := b[p] as nat;
    if len >= 64 {
      var target := Pointer(b[p], b[p + 1]);
      ReadIsWalk(b, target, target, jumps + 1);
    } else if len > 0 {
      ReadIsWalk(b, p + 1 + len, lim, jumps);
    }
  }

  /** Appending to the message does not change what is stored in it. */
  lemma {:induction false} ReadExtends(b: seq<Byte>, b': seq<Byte>, p: nat, lim: nat, lim': nat)
    requires Read(b, p, lim).Some? && b <= b' && lim <= lim'
    ensures Read(b', p, lim') == Read(b, p, lim)
    decreases lim, |b| - p
  {
    var len := b[p] as nat;
    assert b'[p] == b[p];
    if len >= 64 {
      var target := Pointer(b[p], b[p + 1]);
      assert b'[p + 1] == b[p + 1];
      ReadExtends(b, b', target, target, target);
    } else if len > 0 {
      ReadExtends(b, b', p + 1 + len, lim, lim');
      assert b'[p + 1..p + 1 + len] == b[p + 1..p + 1 + len];
    }
  }

  /** A table entry: its position holds what a reader sees of its string. */
  ghost predicate EntryOk(b: seq<Byte>, e: Entry, lim: nat) {
    e.pos < |b| && e.pos < POINTER_LIMIT &&
    var r := Read(b, e.pos, lim);
    r.Some? && r.value.labels == Visible(e.v)
  }

  /** All entries were completed before position `lim`. */
  ghost predicate TableOk(b: seq<Byte>, table: seq<Entry>, lim: nat) {
    forall i :: 0 <= i < |table| ==> table[i].pos < lim && EntryOk(b, table[i], table[i].pos)
  }

  lemma {:induction false} PointerRoundTrip(ref: nat)
    ensures var p := PointerBytes(ref); p[0] >= 64 && (Pointer(p[0], p[1]) == ref <==> ref < POINTER_LIMIT)
  {
    assert ref < POINTER_LIMIT ==> ref / 256 < 64;
  }

  ghost predicate NoNul(name: seq<Byte>) {
    forall i :: 0 <= i < |name| ==> name[i] != 0
  }

  /** Entries of the name being written; their strings are longer than what is left of it. */
  ghost predicate InProgress(table: seq<Entry>, old_: nat, name: seq<Byte>) {
    old_ <= |table| && forall i :: old_ <= i < |table| ==> |table[i].v| > |name|
  }

  /** What a successful encoding of `name` at the end of `b` promises. */
  ghost predicate Stored(b: seq<Byte>, lim: nat, name: seq<Byte>, table: seq<Entry>, bytes: seq<Byte>, table': seq<Entry>) {
    && b <= bytes && table <= table'
    && Read(bytes, |b|, lim).Some?
    && Read(bytes, |b|, lim).value.labels == Visible(name)
    && (EmptyOnlyLast(name) ==> Read(bytes, |b|, lim).value.next == |bytes|)
    && (forall i :: |table| <= i < |table'| ==> table'[i].pos >= |b| && EntryOk(bytes, table'[i], lim))
  }

  /** One label in front of a stored name. */
  lemma {:induction false} ReadLabel(bytes: seq<Byte>, p: nat, lim: nat, word: seq<Byte>)
    requires 0 < |word| <= MAX_LABEL && p + 1 + |word| <= |bytes|
    requires bytes[p] == |word| as Byte && bytes[p + 1..p + 1 + |word|] == word
    requires Read(bytes, p + 1 + |word|, lim).Some?
    ensures var rest := Read(bytes, p + 1 + |word|, lim).value;
            Read(bytes, p, lim) == Some(Name([word] + rest.labels, rest.next))
  {
  }

  lemma {:induction false} TableExtends(b: seq<Byte>, b': seq<Byte>, table: seq<Entry>, lim: nat)
    requires TableOk(b, table, lim) && b <= b'
    ensures TableOk(b', table, lim)
  {
    hide Read, Visible;
    forall i | 0 <= i < |table| ensures table[i].pos < lim && EntryOk(b', table[i], table[i].pos) {
      assert EntryOk(b, table[i], table[i].pos);
      ReadExtends(b, b', table[i].pos, table[i].pos, table[i].pos);
    }
  }

  /** The suffix was written before: a pointer to it reads the same. */
  lemma {:induction false} StoredPointer(b: seq<Byte>, lim: nat, name: seq<Byte>, table: seq<Entry>, old_: nat, k: nat)
    requires lim <= |b| && InProgress(table, old_, name) && TableOk(b, table[..old_], lim)
    requires k < |table| && table[k].v == name
    ensures Stored(b, lim, name, table, b + PointerBytes(table[k].pos), table)
  {
    hide Visible, PointerBytes, Pointer;
    var pos := table[k].pos;
    var bytes := b + PointerBytes(pos);
    assert k < old_ && table[..old_][k] == table[k];
    assert EntryOk(b, table[k], pos);
    PointerRoundTrip(pos);
    ReadExtends(b, bytes, pos, pos, pos);
    assert bytes[|b|] == PointerBytes(pos)[0] && bytes[|b| + 1] == PointerBytes(pos)[1];
  }

  /** The last label and its terminator. */
  lemma {:induction false} StoredLast(b: seq<Byte>, lim: nat, name: seq<Byte>, table: seq<Entry>, tabled: bool)
    requires lim <= |b| && FirstDot(name) == |name| <= MAX_LABEL && NoNul(name) && |b| < POINTER_LIMIT
    ensures var b' := b + [|name| as Byte] + name;
            var bytes := if b'[|b'| - 1] != 0 then b' + [0] else b';
            Stored(b, lim, name, table, bytes, if tabled then AddLabel(table, name, |b|) else table)
  {
    var b' := b + [|name| as Byte] + name;
    if name == [] {
      assert b'[|b|] == 0;
    } else {
      var bytes := b' + [0];
      assert b'[|b'| - 1] == name[|name| - 1];
      assert bytes[|b'|] == 0 && bytes[|b|] == |name| as Byte;
      assert Read(bytes, |b'|, lim) == Some(Name([], |b'| + 1));
      assert bytes[|b| + 1..|b| + 1 + |name|] == name;
      ReadLabel(bytes, |b|, lim, name);
    }
  }

  /** A label, a dot and a stored rest. */
  lemma {:induction false} StoredDot(b: seq<Byte>, lim: nat, name: seq<Byte>, table: seq<Entry>, tabled: bool, bytes: seq<Byte>, table'': seq<Entry>)
    requires lim <= |b| < POINTER_LIMIT && FirstDot(name) < |name| && FirstDot(name) <= MAX_LABEL
    requires var i := FirstDot(name);
             var table' := if tabled then AddLabel(table, name, |b|) else table;
             Stored(b + [i as Byte] + name[..i], lim, name[i + 1..], table', bytes, table'')
    ensures Stored(b, lim, name, table, bytes, table'')
  {
    hide Read, Visible, EmptyOnlyLast, FirstDot;
    var i := FirstDot(name);
    var b' := b + [i as Byte] + name[..i];
    var table' := if tabled then AddLabel(table, name, |b|) else table;
    DotRead(b, lim, name, bytes);
    forall k | |table| <= k < |table''| ensures table''[k].pos >= |b| && EntryOk(bytes, table''[k], lim) {
      if k < |table'| {
        assert table''[k] == table'[k] == Entry(name, |b|);
      }
    }
  }

  lemma {:induction false} DotRead(b: seq<Byte>, lim: nat, name: seq<Byte>, bytes: seq<Byte>)
    requires FirstDot(name) < |name| && FirstDot(name) <= MAX_LABEL
    requires var i := FirstDot(name);
             && b + [i as Byte] + name[..i] <= bytes
             && Read(bytes, |b| + 1 + i, lim).Some?
             && Read(bytes, |b| + 1 + i, lim).value.labels == Visible(name[i + 1..])
             && (EmptyOnlyLast(name[i + 1..]) ==> Read(bytes, |b| + 1 + i, lim).value.next == |bytes|)
    ensures b <= bytes
    ensures Read(bytes, |b|, lim).Some? && Read(bytes, |b|, lim).value.labels == Visible(name)
    ensures EmptyOnlyLast(name) ==> Read(bytes, |b|, lim).value.next == |bytes|
  {
    hide Read, Visible, EmptyOnlyLast, FirstDot;
    var i := FirstDot(name);
    LabelBytes(b, i as Byte, name[..i], bytes);
    DotUnfold(name);
    if i > 0 {
      ReadLabel(bytes, |b|, lim, name[..i]);
    } else {
      ReadZero(bytes, |b|, lim);
    }
  }

  lemma {:induction false} DotUnfold(name: seq<Byte>)
    requires FirstDot(name) < |name|
    ensures var i := FirstDot(name);
            && Visible(name) == (if i == 0 then [] else [name[..i]] + Visible(name[i + 1..]))
            && (EmptyOnlyLast(name) <==> i > 0 && EmptyOnlyLast(name[i + 1..]))
  {
  }

  lemma {:induction false} LabelBytes(b: seq<Byte>, n: Byte, word: seq<Byte>, bytes: seq<Byte>)
    requires b + [n] + word <= bytes
    ensures b <= bytes && bytes[|b|] == n && bytes[|b| + 1..|b| + 1 + |word|] == word
  {
    var b' := b + [n] + word;
    assert bytes[..|b'|] == b';
    assert b'[|b|] == n;
    assert b'[|b| + 1..] == word;
    forall k | 0 <= k < |word| ensures bytes[|b| + 1 + k] == word[k] {
      assert b'[|b| + 1 + k] == word[k];
    }
  }

  lemma {:induction false} ReadZero(bytes: seq<Byte>, p: nat, lim: nat)
    requires p < |bytes| && bytes[p] == 0
    ensures Read(bytes, p, lim) == Some(Name([], p + 1))
  {
  }

  /** Whatever dnsname_to_labels writes, with whatever table of finished names, reads back as the
      visible labels of the name, and every new table entry reads back as its suffix. */
  lemma {:induction false} EncodeStores(b: seq<Byte>, lim: nat, limit: nat, name: seq<Byte>, table: seq<Entry>, old_: nat, tabled: bool)
    requires lim <= |b| && limit <= POINTER_LIMIT && NoNul(name)
    requires InProgress(table, old_, name) && TableOk(b, table[..old_], lim)
    ensures var e := Encode(b, limit, name, table, tabled);
            e.Done? ==> Stored(b, lim, name, table, e.bytes, e.table)
    decreases |name|
  {
    hide Read, Visible, Stored, EntryOk, PointerBytes, TableOk;
    EncodeUnfold(b, limit, name, table, tabled);
    var ref := GetPos(table, name);
    if tabled && ref.Some? {
      StoredPointer(b, lim, name, table, old_, ref.value);
    } else {
      var i := FirstDot(name);
      if i <= MAX_LABEL && |b| + i + 1 <= limit {
        if i == |name| {
          assert name[..i] == name;
          StoredLast(b, lim, name, table, tabled);
        } else {
          var table' := if tabled then AddLabel(table, name, |b|) else table;
          var b' := b + [i as Byte] + name[..i];
          TableExtends(b, b', table[..old_], lim);
          assert table'[..old_] == table[..old_];
          EncodeStores(b', lim, limit, name[i + 1..], table', old_, tabled);
          var e := Encode(b', limit, name[i + 1..], table', tabled);
          if e.Done? {
            StoredDot(b, lim, name, table, tabled, e.bytes, e.table);
          }
        }
      }
    }
  }

  /** After a whole name, every entry of the table is finished. */
  lemma {:induction false} FinishedTable(b: seq<Byte>, limit: nat, name: seq<Byte>, table: seq<Entry>, tabled: bool)
    requires limit <= POINTER_LIMIT && NoNul(name) && TableOk(b, table, |b|)
    ensures var e := Encode(b, limit, name, table, tabled);
            e.Done? ==> Stored(b, |b|, name, table, e.bytes, e.table) && TableOk(e.bytes, e.table, |e.bytes|)
  {
    hide Read, Visible, Encode;
    assert table[..|table|] == table;
    EncodeStores(b, |b|, limit, name, table, |table|, tabled);
    var e := Encode(b, limit, name, table, tabled);
    if e.Done? {
      TableExtends(b, e.bytes, table, |b|);
      forall i | 0 <= i < |e.table| ensures e.table[i].pos < |e.bytes| && EntryOk(e.bytes, e.table[i], e.table[i].pos) {
        if i < |table| {
          assert e.table[i] == table[i];
          assert EntryOk(e.bytes, table[i], table[i].pos);
        } else {
          ReadExtends(e.bytes, e.bytes, e.table[i].pos, |b|, e.table[i].pos);
        }
      }
    }
  }

  /** A piece of a message: other fields, then a name. */
  datatype Item = Item(fields: seq<Byte>, name: seq<Byte>)

  datatype Message = Failed | Written(bytes: seq<Byte>, table: seq<Entry>, starts: seq<nat>, ends: seq<nat>)

  /** A message written field by field and name by name with one shared label table. */
  function WriteAll(b: seq<Byte>, limit: nat, items: seq<Item>, table: seq<Entry>): Message
    decreases |items|
  {
    if items == [] then Written(b, table, [], [])
    else
      var b1 := b + items[0].fields;
      var name := items[0].name;
      if |b1| > limit || |name| > MAX_NAME then Failed
      else
        var e := Encode(b1, limit, name, table, true);
        if e.Bad? then Failed
        else
          var m := WriteAll(e.bytes, limit, items[1..], e.table);
          if m.Failed? then Failed
          else Written(m.bytes, m.table, [|b1|] + m.starts, [|e.bytes|] + m.ends)
  }

  ghost predicate ReadsBack(m: Message, i: nat, name: seq<Byte>)
    requires m.Written? && i < |m.starts| == |m.ends|
  {
    var w := Walk(m.bytes, m.starts[i], 0);
    w.Some? && w.value.labels == Visible(name) && (EmptyOnlyLast(name) ==> w.value.next == m.ends[i])
  }

  /** In a message of names sharing one label table, every name is read back at the place where it
      was written, the reader stops where the writer did, and every table entry leads to its suffix. */
  lemma {:induction false} MessageReadsBack(b: seq<Byte>, limit: nat, items: seq<Item>, table: seq<Entry>)
    requires limit <= POINTER_LIMIT && TableOk(b, table, |b|)
    requires forall i :: 0 <= i < |items| ==> NoNul(items[i].name)
    ensures var m := WriteAll(b, limit, items, table);
            m.Written? ==>
              && b <= m.bytes && |m.starts| == |m.ends| == |items|
              && TableOk(m.bytes, m.table, |m.bytes|)
              && (forall i :: 0 <= i < |items| ==> ReadsBack(m, i, items[i].name))
    decreases |items|
  {
    hide Encode, Walk, TableOk, Stored, Visible, EmptyOnlyLast;
    var m := WriteAll(b, limit, items, table);
    if items != [] && m.Written? {
      var b1, name := b + items[0].fields, items[0].name;
      var e := Encode(b1, limit, name, table, true);
      GrowTable(b, b1, table);
      FinishedTable(b1, limit, name, table, true);
      MessageReadsBack(e.bytes, limit, items[1..], e.table);
      var m1 := WriteAll(e.bytes, limit, items[1..], e.table);
      StoredReads(b1, name, table, e.bytes, e.table, m1.bytes);
      forall i | 0 <= i < |items| ensures ReadsBack(m, i, items[i].name) {
        if i > 0 {
          assert ReadsBack(m1, i - 1, items[1..][i - 1].name);
        }
      }
    }
  }

  lemma {:induction false} GrowTable(b: seq<Byte>, b': seq<Byte>, table: seq<Entry>)
    requires TableOk(b, table, |b|) && b <= b'
    ensures TableOk(b', table, |b'|)
  {
    hide EntryOk;
    TableExtends(b, b', table, |b|);
  }

  lemma {:induction false} StoredReads(b: seq<Byte>, name: seq<Byte>, table: seq<Entry>, bytes: seq<Byte>, table': seq<Entry>, final: seq<Byte>)
    requires Stored(b, |b|, name, table, bytes, table') && bytes <= final
    ensures b <= final
    ensures var w := Walk(final, |b|, 0);
            w.Some? && w.value.labels == Visible(name) && (EmptyOnlyLast(name) ==> w.value.next == |bytes|)
  {
    hide Read, Walk, Visible, EmptyOnlyLast;
    ReadExtends(bytes, final, |b|, |b|, |b|);
    ReadIsWalk(final, |b|, |b|, 0);
  }

  /** name_parse on a name of such a message, with the 256-byte output of the reply parser: it
      succeeds, and gives back the name exactly when the name has no empty label. */
  lemma {:induction false} ParsedNameIsName(m: Message, i: nat, name: seq<Byte>)
    requires m.Written? && i < |m.starts| == |m.ends| && ReadsBack(m, i, name) && |name| <= MAX_NAME
    ensures var w := Walk(m.bytes, m.starts[i], 0);
            && w.Some? && |Join(w.value.labels)| < 256
            && (Join(w.value.labels) == name <==> name == [] || NoEmptyLabel(name))
            && (name == [] || NoEmptyLabel(name) ==> w.value.next == m.ends[i])
  {
    VisibleShorter(name);
    VisibleIsName(name);
    if name == [] || NoEmptyLabel(name) {
      NoEmptyIsClean(name);
    }
  }

  lemma {:induction false} NoEmptyIsClean(name: seq<Byte>)
    requires name == [] || NoEmptyLabel(name)
    ensures EmptyOnlyLast(name)
    decreases |name|
  {
    var i := FirstDot(name);
    if i < |name| {
      NoEmptyIsClean(name[i + 1..]);
    }
  }
}
