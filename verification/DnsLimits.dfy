/** evdns.c: exactly when a DNS name can be encoded, and what the encoding looks like as a whole. */
module DnsLimits {
  import opened Basics
  import opened DnsNames

  /** All labels of a name, empty ones included. */
  function Split(name: seq<Byte>): (labels: seq<seq<Byte>>)
    ensures labels != []
    decreases |name|
  {
    var i := FirstDot(name);
    [name[..i]] + if i == |name| then [] else Split(name[i + 1..])
  }

  /** The labels that are written out: those before the first suffix the table knows. */
  function WrittenOut(name: seq<Byte>, table: seq<Entry>, tabled: bool): seq<seq<Byte>>
    decreases |name|
  {
    if tabled && GetPos(table, name).Some? then []
    else
      var i := FirstDot(name);
      [name[..i]] + if i == |name| then [] else WrittenOut(name[i + 1..], table, tabled)
  }

  /** Where that suffix is, if there is one. */
  function KnownAt(name: seq<Byte>, table: seq<Entry>, tabled: bool): Option<nat>
    decreases |name|
  {
    var ref, i := GetPos(table, name), FirstDot(name);
    if tabled && ref.Some? then Some(table[ref.value].pos)
    else if i == |name| then None
    else KnownAt(name[i + 1..], table, tabled)
  }

  /** Bytes the labels take on the wire, each with its length in front. */
  function Size(labels: seq<seq<Byte>>): nat {
    if labels == [] then 0 else |labels[0]| + 1 + Size(labels[1..])
  }

  predicate Short(labels: seq<seq<Byte>>) {
    forall i :: 0 <= i < |labels| ==> |labels[i]| <= 63
  }

  function Wire(labels: seq<seq<Byte>>): (bytes: seq<Byte>)
    requires Short(labels)
    ensures |bytes| == Size(labels)
  {
    if labels == [] then [] else [|labels[0]| as Byte] + labels[0] + Wire(labels[1..])
  }

  /** A label above 63 bytes comes while those before it are shorter and there still is room. */
  predicate TooLongAt(at: nat, limit: nat, labels: seq<seq<Byte>>, k: nat) {
    && k < |labels| && |labels[k]| > 63 && Short(labels[..k]) && at + Size(labels[..k]) <= limit
  }

  ghost predicate SomeTooLong(at: nat, limit: nat, labels: seq<seq<Byte>>) {
    exists k: nat :: TooLongAt(at, limit, labels, k)
  }

  /** What dnsname_to_labels makes of these labels from `at` on: whether they fit, and what ends the name. */
  predicate FitsIn(at: nat, limit: nat, labels: seq<seq<Byte>>, known: Option<nat>) {
    Short(labels) && at + Size(labels) + (if known.Some? then 2 else 0) <= limit
  }

  /** The end of a name without NUL bytes: a pointer, or a zero unless an empty last label is one. */
  function Ending(labels: seq<seq<Byte>>, known: Option<nat>): seq<Byte> {
    if known.Some? then PointerBytes(known.value)
    else if labels != [] && labels[|labels| - 1] == [] then []
    else [0]
  }

  lemma {:induction false} Unfold(name: seq<Byte>, table: seq<Entry>, tabled: bool)
    ensures var i, ref := FirstDot(name), GetPos(table, name);
            && (tabled && ref.Some? ==> WrittenOut(name, table, tabled) == [] && KnownAt(name, table, tabled) == Some(table[ref.value].pos))
            && (!(tabled && ref.Some?) && i == |name| ==> WrittenOut(name, table, tabled) == [name] && KnownAt(name, table, tabled) == None)
            && (!(tabled && ref.Some?) && i < |name| ==>
                  && WrittenOut(name, table, tabled) == [name[..i]] + WrittenOut(name[i + 1..], table, tabled)
                  && KnownAt(name, table, tabled) == KnownAt(name[i + 1..], table, tabled))
            && Split(name) == if i == |name| then [name] else [name[..i]] + Split(name[i + 1..])
  {
    hide GetPos;
    assert FirstDot(name) == |name| ==> name[..FirstDot(name)] == name;
  }

  /** Names entered while a name is written do not change how the rest of it is written. */
  lemma {:induction false} OwnEntries(name: seq<Byte>, table: seq<Entry>, longer: seq<Byte>, pos: nat, tabled: bool)
    requires |longer| > |name|
    ensures WrittenOut(name, AddLabel(table, longer, pos), tabled) == WrittenOut(name, table, tabled)
    ensures KnownAt(name, AddLabel(table, longer, pos), tabled) == KnownAt(name, table, tabled)
    decreases |name|
  {
    hide GetPos, WrittenOut, KnownAt, FirstDot, AddLabel;
    SamePos(name, table, longer, pos);
    Unfold(name, table, tabled);
    Unfold(name, AddLabel(table, longer, pos), tabled);
    var i := FirstDot(name);
    if i < |name| {
      OwnEntries(name[i + 1..], table, longer, pos, tabled);
    }
  }

  lemma {:induction false} SamePos(name: seq<Byte>, table: seq<Entry>, longer: seq<Byte>, pos: nat)
    requires longer != name
    ensures GetPos(AddLabel(table, longer, pos), name) == GetPos(table, name)
    ensures var i := GetPos(table, name); i.Some? ==> AddLabel(table, longer, pos)[i.value] == table[i.value]
  {
    AppendPos(table, Entry(longer, pos), name);
  }

  lemma {:induction false} AppendPos(table: seq<Entry>, e: Entry, name: seq<Byte>)
    requires e.v != name
    ensures GetPos(table + [e], name) == GetPos(table, name)
  {
    if table == [] {
      assert (table + [e])[1..] == [];
    } else {
      assert (table + [e])[1..] == table[1..] + [e];
      AppendPos(table[1..], e, name);
    }
  }

  /** The outcome for these labels and what ends the name: it succeeds exactly if no label has more than 63 bytes and
      labels and pointer fit, -1 says exactly that a label that was reached is longer, and the bytes are the labels
      one after the other and their ending. */
  ghost predicate Outcome(b: seq<Byte>, limit: nat, labels: seq<seq<Byte>>, known: Option<nat>, e: Encoded, noNul: bool) {
    && (e.Done? <==> FitsIn(|b|, limit, labels, known))
    && (e == Bad(-1) <==> SomeTooLong(|b|, limit, labels))
    && (e.Bad? ==> e.code == -1 || e.code == -2)
    && (e.Done? && noNul ==> e.bytes == b + Wire(labels) + Ending(labels, known))
  }

  lemma {:induction false} EncodeIs(b: seq<Byte>, limit: nat, name: seq<Byte>, table: seq<Entry>, tabled: bool)
    requires |b| <= limit
    ensures Outcome(b, limit, WrittenOut(name, table, tabled), KnownAt(name, table, tabled), Encode(b, limit, name, table, tabled), NoNul(name))
    decreases |name|
  {
    hide GetPos, PointerBytes, AddLabel, Outcome, Encode, WrittenOut, KnownAt, FirstDot;
    EncodeUnfold(b, limit, name, table, tabled);
    Unfold(name, table, tabled);
    if tabled && GetPos(table, name).Some? {
      PointerOutcome(b, limit, table[GetPos(table, name).value].pos, table, NoNul(name));
    } else {
      var i := FirstDot(name);
      if i == |name| {
        assert name[..i] == name && [name] + [] == [name];
        LastOutcome(b, limit, name, if tabled then AddLabel(table, name, |b|) else table);
      } else {
        var rest, known := WrittenOut(name[i + 1..], table, tabled), KnownAt(name[i + 1..], table, tabled);
        if i <= 63 && |b| + i + 1 <= limit {
          var table' := if tabled then AddLabel(table, name, |b|) else table;
          if tabled {
            OwnEntries(name[i + 1..], table, name, |b|, tabled);
          }
          EncodeIs(b + [i as Byte] + name[..i], limit, name[i + 1..], table', tabled);
          NotEmpty(name[i + 1..], table, tabled);
          WeakerOutcome(b + [i as Byte] + name[..i], limit, rest, known,
                        Encode(b + [i as Byte] + name[..i], limit, name[i + 1..], table', tabled), NoNul(name[i + 1..]), NoNul(name));
          MoreOutcome(b, limit, name[..i], rest, known,
                      Encode(b + [i as Byte] + name[..i], limit, name[i + 1..], table', tabled), NoNul(name));
        } else {
          BadOutcome(b, limit, name[..i], rest, known, NoNul(name));
        }
      }
    }
  }

  lemma {:induction false} NotEmpty(name: seq<Byte>, table: seq<Entry>, tabled: bool)
    ensures WrittenOut(name, table, tabled) != [] || KnownAt(name, table, tabled).Some?
  {
  }

  lemma {:induction false} WeakerOutcome(b: seq<Byte>, limit: nat, labels: seq<seq<Byte>>, known: Option<nat>, e: Encoded, noNul: bool, less: bool)
    requires Outcome(b, limit, labels, known, e, noNul) && (less ==> noNul)
    ensures Outcome(b, limit, labels, known, e, less)
  {
    hide FitsIn, SomeTooLong;
  }

  lemma {:induction false} PointerOutcome(b: seq<Byte>, limit: nat, pos: nat, table: seq<Entry>, noNul: bool)
    ensures Outcome(b, limit, [], Some(pos), if |b| + 2 > limit then Bad(-2) else Done(b + PointerBytes(pos), table), noNul)
  {
    hide PointerBytes;
  }

  lemma {:induction false} LastOutcome(b: seq<Byte>, limit: nat, name: seq<Byte>, table: seq<Entry>)
    requires |b| <= limit
    ensures var e := if |name| > 63 then Bad(-1)
                     else if |b| + |name| + 1 > limit then Bad(-2)
                     else
                       var b' := b + [|name| as Byte] + name;
                       Done(if b'[|b'| - 1] != 0 then b' + [0] else b', table);
            Outcome(b, limit, [name], None, e, NoNul(name))
  {
    var labels := [name];
    assert labels[1..] == [] && labels[..0] == [];
    assert forall k: nat :: TooLongAt(|b|, limit, labels, k) ==> k == 0;
    assert TooLongAt(|b|, limit, labels, 0) <==> |name| > 63;
    if |name| <= 63 {
      var b' := b + [|name| as Byte] + name;
      assert Wire(labels) == [|name| as Byte] + name;
      assert b' == b + Wire(labels);
      if name != [] {
        assert b'[|b'| - 1] == name[|name| - 1];
      } else {
        assert b'[|b'| - 1] == 0;
      }
    }
  }

  /** One label in front. */
  lemma {:induction false} MoreOutcome(b: seq<Byte>, limit: nat, word: seq<Byte>, rest: seq<seq<Byte>>, known: Option<nat>, e: Encoded, noNul: bool)
    requires |word| <= 63 && |b| + |word| + 1 <= limit && (rest != [] || known.Some?)
    requires Outcome(b + [|word| as Byte] + word, limit, rest, known, e, noNul)
    ensures Outcome(b, limit, [word] + rest, known, e, noNul)
  {
    hide Wire, Ending, SomeTooLong, PointerBytes;
    var labels := [word] + rest;
    assert labels[1..] == rest;
    ShortMore(word, rest);
    TooLongMore(|b|, limit, word, rest);
    if e.Done? && noNul {
      BytesMore(b, word, rest, known);
    }
  }

  lemma {:induction false} ShortMore(word: seq<Byte>, rest: seq<seq<Byte>>)
    ensures Short([word] + rest) <==> |word| <= 63 && Short(rest)
  {
    var labels := [word] + rest;
    assert labels[0] == word;
    assert forall i :: 0 <= i < |rest| ==> rest[i] == labels[i + 1];
  }

  lemma {:induction false} TooLongMore(at: nat, limit: nat, word: seq<Byte>, rest: seq<seq<Byte>>)
    requires |word| <= 63
    ensures SomeTooLong(at, limit, [word] + rest) <==> SomeTooLong(at + |word| + 1, limit, rest)
  {
    hide TooLongAt;
    var labels := [word] + rest;
    if SomeTooLong(at, limit, labels) {
      var k: nat :| TooLongAt(at, limit, labels, k);
      TooLongNext(at, limit, word, rest, k);
    }
    if SomeTooLong(at + |word| + 1, limit, rest) {
      var k: nat :| TooLongAt(at + |word| + 1, limit, rest, k);
      TooLongNext(at, limit, word, rest, k + 1);
    }
  }

  lemma {:induction false} TooLongNext(at: nat, limit: nat, word: seq<Byte>, rest: seq<seq<Byte>>, k: nat)
    requires |word| <= 63
    ensures TooLongAt(at, limit, [word] + rest, k) <==> k > 0 && TooLongAt(at + |word| + 1, limit, rest, k - 1)
  {
    var labels := [word] + rest;
    if 0 < k <= |rest| {
      assert labels[..k] == [word] + rest[..k - 1];
      assert labels[..k][1..] == rest[..k - 1];
      ShortMore(word, rest[..k - 1]);
    }
  }

  lemma {:induction false} BytesMore(b: seq<Byte>, word: seq<Byte>, rest: seq<seq<Byte>>, known: Option<nat>)
    requires |word| <= 63 && (rest != [] || known.Some?) && Short(rest)
    ensures var labels := [word] + rest;
            && Short(labels) && Ending(labels, known) == Ending(rest, known)
            && b + Wire(labels) + Ending(labels, known) == b + [|word| as Byte] + word + Wire(rest) + Ending(rest, known)
  {
    hide PointerBytes;
    var labels := [word] + rest;
    assert labels[1..] == rest;
    ShortMore(word, rest);
    var w := Wire(rest);
    assert Wire(labels) == [|word| as Byte] + word + w;
    assert b + ([|word| as Byte] + word + w) == b + [|word| as Byte] + word + w;
  }

  lemma {:induction false} BadOutcome(b: seq<Byte>, limit: nat, word: seq<Byte>, rest: seq<seq<Byte>>, known: Option<nat>, noNul: bool)
    requires |b| <= limit && (|word| > 63 || |b| + |word| + 1 > limit)
    ensures Outcome(b, limit, [word] + rest, known, if |word| > 63 then Bad(-1) else Bad(-2), noNul)
  {
    var labels := [word] + rest;
    assert labels[0] == word && labels[1..] == rest && labels[..0] == [];
    ShortMore(word, rest);
    if |word| > 63 {
      assert TooLongAt(|b|, limit, labels, 0);
    }
    forall k: nat | 0 < k < |labels|
      ensures !TooLongAt(|b|, limit, labels, k)
    {
      assert labels[..k][0] == word && labels[..k][1..] == rest[..k - 1];
    }
  }

  /** What is written out are labels of the name, and with a pointer it is no longer than without. */
  lemma {:induction false} WrittenOutSize(name: seq<Byte>, table: seq<Entry>, tabled: bool)
    ensures WrittenOut(name, table, tabled) <= Split(name)
    ensures Size(WrittenOut(name, table, tabled)) + (if KnownAt(name, table, tabled).Some? then 1 else 0) <= |name| + 1
    decreases |name|
  {
    hide GetPos, Size, WrittenOut, KnownAt, FirstDot, Split;
    SizeNone();
    Unfold(name, table, tabled);
    var i := FirstDot(name);
    if i < |name| {
      WrittenOutSize(name[i + 1..], table, tabled);
      SizeMore(name[..i], WrittenOut(name[i + 1..], table, tabled));
    } else {
      SizeMore(name, []);
      assert [name] + [] == [name];
    }
  }

  lemma {:induction false} SizeNone()
    ensures Size([]) == 0
  {
  }

  lemma {:induction false} SizeMore(word: seq<Byte>, rest: seq<seq<Byte>>)
    ensures Size([word] + rest) == |word| + 1 + Size(rest)
  {
    assert ([word] + rest)[1..] == rest;
  }

  /** Every name of labels of at most 63 bytes is encoded where there is room for it and two bytes more, whatever
      the table holds, and takes no more than that. */
  lemma {:induction false} GoodNamesAreEncoded(b: seq<Byte>, limit: nat, name: seq<Byte>, table: seq<Entry>, tabled: bool)
    requires Short(Split(name)) && |b| + |name| + 2 <= limit
    ensures var e := Encode(b, limit, name, table, tabled); e.Done? && |b| < |e.bytes| <= |b| + |name| + 2
  {
    hide Encode, WrittenOut, KnownAt, Split, Size, Wire, Ending, SomeTooLong;
    EncodeIs(b, limit, name, table, tabled);
    WrittenOutSize(name, table, tabled);
    ShortPrefix(Split(name), WrittenOut(name, table, tabled));
    EncodedSize(b, limit, name, table, tabled);
  }

  lemma {:induction false} ShortPrefix(all: seq<seq<Byte>>, labels: seq<seq<Byte>>)
    requires Short(all) && labels <= all
    ensures Short(labels)
  {
  }

  lemma {:induction false} EncodedSize(b: seq<Byte>, limit: nat, name: seq<Byte>, table: seq<Entry>, tabled: bool)
    ensures var e := Encode(b, limit, name, table, tabled); e.Done? ==> |b| < |e.bytes| <= |b| + |name| + 2
    decreases |name|
  {
    hide GetPos;
    var i := FirstDot(name);
    if i < |name| && i <= 63 {
      var table' := if tabled then AddLabel(table, name, |b|) else table;
      EncodedSize(b + [i as Byte] + name[..i], limit, name[i + 1..], table', tabled);
    }
  }

  /** Room for all fields and names of a message. */
  function Room(items: seq<Item>): nat {
    if items == [] then 0 else |items[0].fields| + |items[0].name| + 2 + Room(items[1..])
  }

  /** A message whose names have at most 255 bytes and labels of at most 63 is written if it has room, so it reads
      back by MessageReadsBack. */
  lemma {:induction false} GoodMessagesAreWritten(b: seq<Byte>, limit: nat, items: seq<Item>, table: seq<Entry>)
    requires |b| + Room(items) <= limit
    requires forall i :: 0 <= i < |items| ==> |items[i].name| <= 255 && Short(Split(items[i].name))
    ensures WriteAll(b, limit, items, table).Written?
    decreases |items|
  {
    hide Encode, Split;
    if items != [] {
      var b1 := b + items[0].fields;
      GoodNamesAreEncoded(b1, limit, items[0].name, table, true);
      var e := Encode(b1, limit, items[0].name, table, true);
      GoodMessagesAreWritten(e.bytes, limit, items[1..], e.table);
    }
  }

  /** dnsname_to_labels on a name of at most 255 bytes: what EncodeIs says holds of the buffer. */
  method EncodeName(buf: array<Byte>, limit: nat, j: nat, name: seq<Byte>, table: LabelTable?) returns (r: int)
    requires limit < buf.Length && j <= limit
    modifies buf, table
    ensures var labels, known := WrittenOut(name, old(Labels(table)), table != null), KnownAt(name, old(Labels(table)), table != null);
            && (r >= 0 <==> |name| <= 255 && FitsIn(j, limit, labels, known))
            && (r == -1 <==> |name| <= 255 && SomeTooLong(j, limit, labels))
            && (r < 0 ==> r == -1 || r == -2) && r <= limit + 1
            && (r >= 0 && NoNul(name) ==> buf[..r] == old(buf[..j]) + Wire(labels) + Ending(labels, known))
    ensures |name| <= 255 && Short(Split(name)) && j + |name| + 2 <= limit ==> r > j
  {
    hide Encode, WrittenOut, KnownAt, FitsIn, Wire, Ending, Split, SomeTooLong, Short, NoNul;
    EncodeIs(buf[..j], limit, name, Labels(table), table != null);
    if Short(Split(name)) && j + |name| + 2 <= limit {
      GoodNamesAreEncoded(buf[..j], limit, name, Labels(table), table != null);
    }
    r := ToLabels(buf, limit, j, name, table);
  }

  /** The wire format byte by byte: a label behind its length, a zero at the end, a dot between labels in the text. */
  lemma {:induction false} WireFormat()
    ensures Encode([], 512, [97, 46, 98, 99], [], false) == Done([1, 97, 2, 98, 99, 0], [])
  {
    var name: seq<Byte> := [97, 46, 98, 99];
    assert name[1..] == [46, 98, 99] && name[2..] == [98, 99] && [98, 99][1..] == [99] && [99][1..] == [];
    assert FirstDot(name[1..]) == 0 && FirstDot(name) == 1;
    assert FirstDot([99 as Byte]) == 1 && FirstDot([98, 99]) == 2;
    assert name[..1] == [97] && [98, 99][..2] == [98, 99];
    EncodeUnfold([], 512, name, [], false);
    assert [] + [1 as Byte] + [97] == [1, 97];
    EncodeUnfold([1, 97], 512, [98, 99], [], false);
    assert [1, 97] + [2 as Byte] + [98, 99] == [1, 97, 2, 98, 99];
    assert [1, 97, 2, 98, 99] + [0 as Byte] == [1, 97, 2, 98, 99, 0];
  }

  /** A pointer is the two highest bits and a 14-bit position, high byte first. */
  lemma {:induction false} PointerFormat(pos: nat)
    requires pos < 16384
    ensures PointerBytes(pos) == [(192 + pos / 256) as Byte, (pos % 256) as Byte]
    ensures forall hi: Byte, lo: Byte :: hi >= 192 ==> Pointer(hi, lo) == (hi as nat - 192) * 256 + lo as nat
  {
    assert pos / 256 < 64;
  }

  predicate Known(table: seq<Entry>, name: seq<Byte>) {
    GetPos(table, name).Some?
  }

  /** A label of the name starts at `k`. */
  predicate StartsAt(name: seq<Byte>, k: nat) {
    k == 0 || (k <= |name| && name[k - 1] == DOT)
  }

  /** With a name the table knows its suffixes. */
  ghost predicate ClosedFor(table: seq<Entry>, name: seq<Byte>) {
    forall k: nat :: StartsAt(name, k) && Known(table, name) ==> k <= |name| && Known(table, name[k..])
  }

  ghost predicate Closed(table: seq<Entry>) {
    forall i :: 0 <= i < |table| ==> ClosedFor(table, table[i].v)
  }

  lemma {:induction false} ClosedForAll(table: seq<Entry>, name: seq<Byte>)
    requires Closed(table)
    ensures ClosedFor(table, name)
  {
    hide GetPos;
    if Known(table, name) {
      assert ClosedFor(table, table[GetPos(table, name).value].v);
    }
  }

  /** A name written with room in the table, which holds 128 entries, is known afterwards with all its suffixes. */
  lemma {:induction false} KnownAfterwards(b: seq<Byte>, limit: nat, name: seq<Byte>, before: seq<Entry>, table: seq<Entry>, k: nat)
    requires Encode(b, limit, name, table, true).Done? && |table| + |Split(name)| <= 128 && StartsAt(name, k)
    requires Closed(before) && before <= table && forall i :: |before| <= i < |table| ==> |table[i].v| > |name|
    ensures Known(Encode(b, limit, name, table, true).table, name[k..])
    decreases |name|
  {
    hide GetPos, Known, Encode, Split, FirstDot, Closed, PointerBytes;
    EncodeUnfold(b, limit, name, table, true);
    if GetPos(table, name).Some? {
      SuffixKnown(before, table, name, k);
    } else {
      SplitUnfold(name);
      var i := FirstDot(name);
      var table' := AddLabel(table, name, |b|);
      assert table' == table + [Entry(name, |b|)];
      LastPos(table, Entry(name, |b|));
      assert name[0..] == name;
      if i < |name| {
        var b', rest := b + [i as Byte] + name[..i], name[i + 1..];
        TableGrows(b', limit, rest, table');
        if k == 0 {
          PrefixPos(table', Encode(b', limit, rest, table', true).table, name);
        } else {
          assert i < k && StartsAt(rest, k - i - 1) && rest[k - i - 1..] == name[k..];
          KnownAfterwards(b', limit, rest, before, table', k - i - 1);
        }
      }
    }
  }

  lemma {:induction false} SuffixKnown(before: seq<Entry>, table: seq<Entry>, name: seq<Byte>, k: nat)
    requires Closed(before) && before <= table && forall i :: |before| <= i < |table| ==> |table[i].v| > |name|
    requires GetPos(table, name).Some? && StartsAt(name, k)
    ensures Known(table, name[k..])
  {
    hide GetPos, Known, Closed;
    KnownBefore(before, table, name);
    ClosedForAll(before, name);
    PrefixPos(before, table, name[k..]);
  }

  lemma {:induction false} SplitUnfold(name: seq<Byte>)
    ensures |Split(name)| == 1 + if FirstDot(name) == |name| then 0 else |Split(name[FirstDot(name) + 1..])|
    ensures FirstDot(name) < |name| ==> |Split(name[FirstDot(name) + 1..])| >= 1
  {
  }

  lemma {:induction false} KnownBefore(before: seq<Entry>, table: seq<Entry>, name: seq<Byte>)
    requires before <= table && GetPos(table, name).Some? && forall i :: |before| <= i < |table| ==> |table[i].v| > |name|
    ensures Known(before, name)
  {
    hide GetPos;
    var i := GetPos(table, name).value;
    assert i < |before| && before[i] == table[i];
  }

  lemma {:induction false} LastPos(table: seq<Entry>, e: Entry)
    ensures Known(table + [e], e.v)
  {
    hide GetPos;
    assert (table + [e])[|table|].v == e.v;
  }

  lemma {:induction false} TableGrows(b: seq<Byte>, limit: nat, name: seq<Byte>, table: seq<Entry>)
    ensures var e := Encode(b, limit, name, table, true); e.Done? ==> table <= e.table
    decreases |name|
  {
    hide GetPos;
    var i := FirstDot(name);
    if i < |name| && i <= 63 {
      TableGrows(b + [i as Byte] + name[..i], limit, name[i + 1..], AddLabel(table, name, |b|));
    }
  }

  lemma {:induction false} PrefixPos(table: seq<Entry>, more: seq<Entry>, name: seq<Byte>)
    requires table <= more && Known(table, name)
    ensures Known(more, name)
  {
    hide GetPos;
    var i := GetPos(table, name).value;
    assert more[i] == table[i];
  }

  /** New entries are suffixes of the name. */
  lemma {:induction false} EntriesAreSuffixes(b: seq<Byte>, limit: nat, name: seq<Byte>, table: seq<Entry>, i: nat)
    returns (k: nat)
    requires Encode(b, limit, name, table, true).Done? && |table| <= i < |Encode(b, limit, name, table, true).table|
    ensures StartsAt(name, k) && Encode(b, limit, name, table, true).table[i].v == name[k..]
    decreases |name|
  {
    hide GetPos, Encode, FirstDot;
    EncodeUnfold(b, limit, name, table, true);
    var d := FirstDot(name);
    k := 0;
    var table' := AddLabel(table, name, |b|);
    if d < |name| {
      var b', rest := b + [d as Byte] + name[..d], name[d + 1..];
      TableGrows(b', limit, rest, table');
      if i >= |table'| {
        var m := EntriesAreSuffixes(b', limit, rest, table', i);
        k := m + d + 1;
        assert rest[m..] == name[k..];
      }
    }
  }

  /** Compression: from a table that is closed, as an empty one is, every name leaves a closed one; and a name
      written before, or a suffix of one, takes the two bytes of a pointer from then on. */
  lemma {:induction false} NamesAreRemembered(b: seq<Byte>, limit: nat, name: seq<Byte>, table: seq<Entry>, k: nat)
    requires Closed(table) && Encode(b, limit, name, table, true).Done? && |table| + |Split(name)| <= 128 && StartsAt(name, k)
    ensures var e := Encode(b, limit, name, table, true);
            && Closed(e.table)
            && forall c: seq<Byte> :: |c| + 2 <= limit ==>
                 var f := Encode(c, limit, name[k..], e.table, true);
                 f.Done? && |f.bytes| == |c| + 2 && f.table == e.table
  {
    hide GetPos, PointerBytes, Known;
    var e := Encode(b, limit, name, table, true);
    KnownAfterwards(b, limit, name, table, table, k);
    TableGrows(b, limit, name, table);
    forall i | 0 <= i < |e.table|
      ensures ClosedFor(e.table, e.table[i].v)
    {
      if i < |table| {
        assert ClosedFor(table, table[i].v);
        OldStays(table, e.table, i);
      } else {
        var m := EntriesAreSuffixes(b, limit, name, table, i);
        SuffixesKnown(b, limit, name, table, m);
      }
    }
    forall c: seq<Byte> | |c| + 2 <= limit
      ensures var f := Encode(c, limit, name[k..], e.table, true); f.Done? && |f.bytes| == |c| + 2 && f.table == e.table
    {
      assert Known(e.table, name[k..]);
      PointerWritten(c, limit, name[k..], e.table);
    }
  }

  lemma {:induction false} PointerWritten(c: seq<Byte>, limit: nat, name: seq<Byte>, table: seq<Entry>)
    requires Known(table, name) && |c| + 2 <= limit
    ensures var f := Encode(c, limit, name, table, true); f.Done? && |f.bytes| == |c| + 2 && f.table == table
  {
    hide GetPos;
    EncodeUnfold(c, limit, name, table, true);
  }

  lemma {:induction false} OldStays(table: seq<Entry>, more: seq<Entry>, i: nat)
    requires table <= more && i < |table| && ClosedFor(table, table[i].v)
    ensures ClosedFor(more, more[i].v)
  {
    hide GetPos, Known;
    assert more[i] == table[i];
    assert Known(table, table[i].v) by { SomePos(table, i); }
    forall k: nat | StartsAt(more[i].v, k)
      ensures Known(more, more[i].v[k..])
    {
      assert Known(table, table[i].v[k..]);
      PrefixPos(table, more, table[i].v[k..]);
    }
  }

  lemma {:induction false} SomePos(table: seq<Entry>, i: nat)
    requires i < |table|
    ensures Known(table, table[i].v)
  {
    hide GetPos;
  }

  lemma {:induction false} SuffixesKnown(b: seq<Byte>, limit: nat, name: seq<Byte>, table: seq<Entry>, m: nat)
    requires Closed(table) && Encode(b, limit, name, table, true).Done? && |table| + |Split(name)| <= 128
    requires StartsAt(name, m) && m <= |name|
    ensures ClosedFor(Encode(b, limit, name, table, true).table, name[m..])
  {
    hide Known, Encode, Closed;
    forall k: nat | StartsAt(name[m..], k)
      ensures Known(Encode(b, limit, name, table, true).table, name[m..][k..])
    {
      assert name[m..][k..] == name[m + k..];
      assert StartsAt(name, m + k);
      KnownAfterwards(b, limit, name, table, table, m + k);
    }
  }
}
