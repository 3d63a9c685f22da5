/**
 * The record layer of the Protocol Buffers wire format ("Encoding" reference, sections
 * "Base 128 Varints", "Message Structure", "Length-Delimited Records" and "Groups"):
 * bytes on one side, a list of records (field number, wire type, raw value) on the other.
 */
module Wire {
  import opened Options

  type Byte = b: nat | b < 256

  const VARINT: nat := 0
  const LEN: nat := 2
  const SGROUP: nat := 3
  const EGROUP: nat := 4

  const MAX_FIELD: nat := 0x1FFF_FFFF
  const TWO31: int := 0x8000_0000
  const TWO32: int := 0x1_0000_0000
  const TWO64: int := 0x1_0000_0000_0000_0000
  // the largest length of a Go slice
  const MAX_SLICE: nat := 0x7FFF_FFFF_FFFF_FFFF

  /* ---- Varints ---- */

  function EncodeVarint(v: nat): (bs: seq<Byte>)
    ensures bs != []
  {
    if v < 128 then [v] else [128 + v % 128] + EncodeVarint(v / 128)
  }

  datatype Varint = Varint(value: nat, len: nat)

  function ReadVarint(bs: seq<Byte>): (r: Option<Varint>)
    ensures r.Some? ==> 1 <= r.value.len <= |bs|
  {
    if bs == [] then None
    else if bs[0] < 128 then Some(Varint(bs[0], 1))
    else
      var rest :- ReadVarint(bs[1..]);
      Some(Varint(bs[0] - 128 + 128 * rest.value, rest.len + 1))
  }

  /** A varint has at most ten bytes and holds at most 64 bits; bytes that repeat zeros are accepted. */
  function DecodeVarint(bs: seq<Byte>): (r: Option<Varint>)
    ensures r.Some? ==> 1 <= r.value.len <= |bs| && r.value.len <= 10 && r.value.value < TWO64
  {
    var v :- ReadVarint(bs);
    if v.len <= 10 && v.value < TWO64 then Some(v) else None
  }

  lemma {:induction false} ReadEncoded(v: nat, rest: seq<Byte>)
    ensures ReadVarint(EncodeVarint(v) + rest) == Some(Varint(v, |EncodeVarint(v)|))
  {
    if v >= 128 {
      assert (EncodeVarint(v) + rest)[1..] == EncodeVarint(v / 128) + rest;
      ReadEncoded(v / 128, rest);
    }
  }

  lemma VarintRoundTrip(v: nat, rest: seq<Byte>)
    requires v < TWO64
    ensures DecodeVarint(EncodeVarint(v) + rest) == Some(Varint(v, |EncodeVarint(v)|))
  {
    ReadEncoded(v, rest);
    LengthAtMost(v, 10);
  }

  /** A uint32 takes at most five bytes; a negative int32, sign-extended to 64 bits, always ten. */
  lemma VarintLength(v: nat)
    ensures v < TWO32 ==> |EncodeVarint(v)| <= 5
    ensures TWO64 - TWO31 <= v < TWO64 ==> |EncodeVarint(v)| == 10
  {
    if v < TWO32 {
      LengthAtMost(v, 5);
    } else if TWO64 - TWO31 <= v < TWO64 {
      LengthAtMost(v, 10);
      LengthAtLeast(v, 10);
    }
  }

  function Power128(n: nat): (p: nat)
    ensures p >= 1
  {
    if n == 0 then 1 else 128 * Power128(n - 1)
  }

  lemma {:induction false} LengthAtMost(v: nat, n: nat)
    requires 1 <= n && v < Power128(n)
    ensures |EncodeVarint(v)| <= n
  {
    if v >= 128 {
      assert n > 1 by { assert Power128(1) == 128; }
      LengthAtMost(v / 128, n - 1);
    }
  }

  lemma {:induction false} LengthAtLeast(v: nat, n: nat)
    requires 1 <= n && Power128(n - 1) <= v
    ensures |EncodeVarint(v)| >= n
  {
    if n > 1 {
      LengthAtLeast(v / 128, n - 1);
    }
  }

  /** The sequences hold the same bytes from lo up to hi. */
  predicate Agree(a: seq<Byte>, b: seq<Byte>, lo: nat, hi: nat) {
    lo <= hi <= |a| && hi <= |b| && forall i | lo <= i < hi :: a[i] == b[i]
  }

  lemma AgreeDrop(a: seq<Byte>, b: seq<Byte>, drop: nat, hi: nat)
    requires drop <= hi && Agree(a, b, 0, hi)
    ensures Agree(a[drop..], b[drop..], 0, hi - drop)
  {
  }

  /** What a varint reads does not depend on the bytes after it. */
  lemma {:induction false} VarintPrefix(a: seq<Byte>, b: seq<Byte>)
    requires ReadVarint(a).Some? && Agree(a, b, 0, ReadVarint(a).value.len)
    ensures ReadVarint(b) == ReadVarint(a)
  {
    if a[0] >= 128 {
      AgreeDrop(a, b, 1, ReadVarint(a).value.len);
      VarintPrefix(a[1..], b[1..]);
    }
  }

  /* ---- Field values ---- */

  datatype Tag = Tag(num: nat, wire: nat, len: nat)

  predicate ValidTag(num: nat, wire: nat) {
    1 <= num <= MAX_FIELD && wire < 8
  }

  function DecodeTag(bs: seq<Byte>): (t: Option<Tag>)
    ensures t.Some? ==> ValidTag(t.value.num, t.value.wire) && 1 <= t.value.len <= |bs|
  {
    var v :- DecodeVarint(bs);
    if 1 <= v.value / 8 <= MAX_FIELD then Some(Tag(v.value / 8, v.value % 8, v.len)) else None
  }

  lemma TagRoundTrip(num: nat, wire: nat, rest: seq<Byte>)
    requires ValidTag(num, wire)
    ensures var e := EncodeVarint(8 * num + wire); DecodeTag(e + rest) == Some(Tag(num, wire, |e|))
  {
    VarintRoundTrip(8 * num + wire, rest);
  }

  /** The length of a value that is not a group; an end of group is no value. */
  function ScalarLen(wire: nat, bs: seq<Byte>): (n: Option<nat>)
    ensures n.Some? ==> n.value <= |bs|
  {
    if wire == VARINT then
      var v :- DecodeVarint(bs);
      Some(v.len)
    else if wire == LEN then
      var v :- DecodeVarint(bs);
      if |bs| - v.len < v.value then None else Some(v.len + v.value)
    else if wire == 1 then if |bs| < 8 then None else Some(8)
    else if wire == 5 then if |bs| < 4 then None else Some(4)
    else None
  }

  datatype Item = Item(tag: Tag, len: nat)

  /** One tag of the inside of a group, with its value unless it starts or ends a nested group. */
  function GroupItem(bs: seq<Byte>): (item: Option<Item>)
    ensures item.Some? ==> 1 <= item.value.len <= |bs|
  {
    var tag :- DecodeTag(bs);
    if tag.wire == SGROUP || tag.wire == EGROUP then Some(Item(tag, tag.len))
    else
      var k :- ScalarLen(tag.wire, bs[tag.len..]);
      Some(Item(tag, tag.len + k))
  }

  /** The open groups after the tag, innermost first; an end tag closes the innermost group only. */
  function OpenAfter(open: seq<nat>, tag: Tag): Option<seq<nat>>
    requires open != []
  {
    if tag.wire == SGROUP then Some([tag.num] + open)
    else if tag.wire != EGROUP then Some(open)
    else if tag.num == open[0] then Some(open[1..])
    else None
  }

  /** The length of the items up to the end tag of the outermost open group. */
  function GroupLen(open: seq<nat>, bs: seq<Byte>): (n: Option<nat>)
    requires open != []
    ensures n.Some? ==> n.value <= |bs|
    decreases |bs|
  {
    var item :- GroupItem(bs);
    var after :- OpenAfter(open, item.tag);
    if after == [] then Some(item.len)
    else
      var rest :- GroupLen(after, bs[item.len..]);
      Some(item.len + rest)
  }

  /** The length of the value of a field. */
  function ValueLen(num: nat, wire: nat, bs: seq<Byte>): (n: Option<nat>)
    ensures n.Some? ==> n.value <= |bs|
  {
    if wire == SGROUP then GroupLen([num], bs) else ScalarLen(wire, bs)
  }

  lemma TagPrefix(a: seq<Byte>, b: seq<Byte>)
    requires DecodeTag(a).Some? && Agree(a, b, 0, DecodeTag(a).value.len)
    ensures DecodeTag(b) == DecodeTag(a)
  {
    VarintPrefix(a, b);
  }

  lemma ScalarPrefix(wire: nat, a: seq<Byte>, b: seq<Byte>)
    requires ScalarLen(wire, a).Some? && Agree(a, b, 0, ScalarLen(wire, a).value)
    ensures ScalarLen(wire, b) == ScalarLen(wire, a)
  {
    if wire == VARINT || wire == LEN {
      VarintPrefix(a, b);
    }
  }

  lemma ItemPrefix(a: seq<Byte>, b: seq<Byte>)
    requires GroupItem(a).Some? && Agree(a, b, 0, GroupItem(a).value.len)
    ensures GroupItem(b) == GroupItem(a)
  {
    TagPrefix(a, b);
    var tag := DecodeTag(a).value;
    if tag.wire != SGROUP && tag.wire != EGROUP {
      AgreeDrop(a, b, tag.len, GroupItem(a).value.len);
      ScalarPrefix(tag.wire, a[tag.len..], b[tag.len..]);
    }
  }

  lemma {:induction false} GroupPrefix(open: seq<nat>, a: seq<Byte>, b: seq<Byte>)
    requires open != [] && GroupLen(open, a).Some? && Agree(a, b, 0, GroupLen(open, a).value)
    ensures GroupLen(open, b) == GroupLen(open, a)
    decreases |a|
  {
    hide GroupItem;
    ItemPrefix(a, b);
    var item := GroupItem(a).value;
    var after := OpenAfter(open, item.tag).value;
    if after != [] {
      AgreeDrop(a, b, item.len, GroupLen(open, a).value);
      GroupPrefix(after, a[item.len..], b[item.len..]);
    }
  }

  /** What a value reads does not depend on the bytes after it. */
  lemma ValuePrefix(num: nat, wire: nat, a: seq<Byte>, b: seq<Byte>)
    requires ValueLen(num, wire, a).Some? && Agree(a, b, 0, ValueLen(num, wire, a).value)
    ensures ValueLen(num, wire, b) == ValueLen(num, wire, a)
  {
    if wire == SGROUP {
      GroupPrefix([num], a, b);
    } else {
      ScalarPrefix(wire, a, b);
    }
  }

  /* ---- Sequences ---- */

  lemma Assoc<T>(a: seq<T>, b: seq<T>, c: seq<T>)
    ensures a + (b + c) == a + b + c
  {
  }

  lemma DropFirst<T>(a: seq<T>, b: seq<T>)
    ensures (a + b)[|a|..] == b
  {
  }

  lemma DropInFirst<T>(a: seq<T>, b: seq<T>, n: nat)
    requires n <= |a|
    ensures (a + b)[n..] == a[n..] + b
  {
  }

  lemma HeadTail<T>(a: seq<T>)
    requires a != []
    ensures [a[0]] + a[1..] == a
  {
  }

  /* ---- Records ---- */

  /** One field of an encoded message: its number, its wire type and the bytes of its value. */
  datatype Record = Record(num: nat, wire: nat, raw: seq<Byte>)

  predicate ValidRecord(r: Record) {
    ValidTag(r.num, r.wire) && ValueLen(r.num, r.wire, r.raw) == Some(|r.raw|)
  }

  predicate ValidRecords(rs: seq<Record>) {
    forall r | r in rs :: ValidRecord(r)
  }

  function EmitRecord(r: Record): seq<Byte> {
    EncodeVarint(8 * r.num + r.wire) + r.raw
  }

  function Emit(rs: seq<Record>): seq<Byte> {
    if rs == [] then [] else EmitRecord(rs[0]) + Emit(rs[1..])
  }

  function Size(rs: seq<Record>): nat {
    if rs == [] then 0 else 1 + |rs[0].raw| + Size(rs[1..])
  }

  datatype First = First(record: Record, len: nat)

  /** The record the bytes start with. */
  function FirstRecord(bs: seq<Byte>): (f: Option<First>)
    ensures f.Some? ==> |f.value.record.raw| < f.value.len <= |bs|
  {
    var tag :- DecodeTag(bs);
    var n :- ValueLen(tag.num, tag.wire, bs[tag.len..]);
    Some(First(Record(tag.num, tag.wire, bs[tag.len..][..n]), tag.len + n))
  }

  lemma FirstValid(bs: seq<Byte>)
    requires FirstRecord(bs).Some?
    ensures ValidRecord(FirstRecord(bs).value.record)
  {
    hide DecodeTag, ValueLen;
    var tag := DecodeTag(bs).value;
    ValuePrefix(tag.num, tag.wire, bs[tag.len..], FirstRecord(bs).value.record.raw);
  }

  /** The records of a message, or None for bytes that are not a sequence of fields. */
  function Parse(bs: seq<Byte>): (rs: Option<seq<Record>>)
    ensures rs.Some? ==> ValidRecords(rs.value) && Size(rs.value) <= |bs|
    decreases |bs|
  {
    if bs == [] then Some([])
    else
      var f :- FirstRecord(bs);
      var rest :- Parse(bs[f.len..]);
      FirstValid(bs);
      Some([f.record] + rest)
  }

  lemma FirstPrefix(a: seq<Byte>, b: seq<Byte>)
    requires FirstRecord(a).Some?
    ensures FirstRecord(a + b) == FirstRecord(a)
  {
    hide DecodeTag, ValueLen, ValidRecord;
    var tag := DecodeTag(a).value;
    var n := ValueLen(tag.num, tag.wire, a[tag.len..]).value;
    TagPrefix(a, a + b);
    assert (a + b)[tag.len..] == a[tag.len..] + b;
    ValuePrefix(tag.num, tag.wire, a[tag.len..], a[tag.len..] + b);
    assert (a[tag.len..] + b)[..n] == a[tag.len..][..n];
  }

  lemma FirstEmitted(r: Record, rest: seq<Byte>)
    requires ValidRecord(r)
    ensures FirstRecord(EmitRecord(r) + rest) == Some(First(r, |EmitRecord(r)|))
  {
    hide DecodeTag, ValueLen, EncodeVarint;
    var e := EncodeVarint(8 * r.num + r.wire);
    var bs := EmitRecord(r) + rest;
    assert bs == e + (r.raw + rest);
    TagRoundTrip(r.num, r.wire, r.raw + rest);
    assert bs[|e|..] == r.raw + rest;
    ValuePrefix(r.num, r.wire, r.raw, r.raw + rest);
    assert bs[|e|..][..|r.raw|] == r.raw;
  }

  lemma {:induction false} ParseEmit(rs: seq<Record>)
    requires ValidRecords(rs)
    ensures Parse(Emit(rs)) == Some(rs)
  {
    if rs != [] {
      hide FirstRecord, EmitRecord, ValidRecord;
      FirstEmitted(rs[0], Emit(rs[1..]));
      ParseEmit(rs[1..]);
      DropFirst(EmitRecord(rs[0]), Emit(rs[1..]));
      HeadTail(rs);
    }
  }

  /** Messages one after the other are the records of one and then of the other. */
  lemma {:induction false} ParseAppend(a: seq<Byte>, b: seq<Byte>)
    requires Parse(a).Some?
    ensures Parse(a + b) == if Parse(b).None? then None else Some(Parse(a).value + Parse(b).value)
    decreases |a|
  {
    hide FirstRecord, ValidRecord;
    if a == [] {
      assert a + b == b;
      assert Parse(b).Some? ==> [] + Parse(b).value == Parse(b).value;
    } else {
      var f := FirstRecord(a).value;
      FirstPrefix(a, b);
      var rest := a[f.len..];
      DropInFirst(a, b, f.len);
      ParseAppend(rest, b);
      if Parse(b).Some? {
        Assoc([f.record], Parse(rest).value, Parse(b).value);
      }
    }
  }

  lemma {:induction false} EmitAppend(a: seq<Record>, b: seq<Record>)
    ensures Emit(a + b) == Emit(a) + Emit(b)
  {
    if a == [] {
      assert a + b == b;
    } else {
      assert (a + b)[1..] == a[1..] + b;
      EmitAppend(a[1..], b);
    }
  }

  /** A record is no longer than the message it is part of. */
  lemma {:induction false} EmitBounds(rs: seq<Record>, i: nat)
    requires i < |rs|
    ensures |rs[i].raw| < |Emit(rs)|
  {
    if i > 0 {
      EmitBounds(rs[1..], i - 1);
    }
  }

  /* ---- Length-delimited records ---- */

  function Delimited(num: nat, payload: seq<Byte>): Record {
    Record(num, LEN, EncodeVarint(|payload|) + payload)
  }

  function Payload(r: Record): (p: seq<Byte>)
    requires ValidRecord(r) && r.wire == LEN
    ensures |p| < |r.raw|
  {
    r.raw[DecodeVarint(r.raw).value.len..]
  }

  lemma DelimitedIs(num: nat, payload: seq<Byte>)
    ensures Delimited(num, payload).num == num && Delimited(num, payload).wire == LEN
  {
  }

  lemma DelimitedPayload(num: nat, payload: seq<Byte>)
    requires 1 <= num <= MAX_FIELD && |payload| <= MAX_SLICE
    ensures ValidRecord(Delimited(num, payload)) && Payload(Delimited(num, payload)) == payload
  {
    VarintRoundTrip(|payload|, payload);
  }
}
