/**
 * The bytes themselves: what the readers and writers of Wire make of them, stated by digits,
 * lengths and end tags, and not by one another.
 */
module WireFormat {
  import opened Options
  import opened Wire

  /* ---- Varints ---- */

  /** The number whose digits to the base 128 are the low seven bits of the first n bytes, lowest first. */
  function Digits(bs: seq<Byte>, n: nat): nat
    requires n <= |bs|
  {
    if n == 0 then 0 else Digits(bs, n - 1) + bs[n - 1] % 128 * Power128(n - 1)
  }

  lemma {:induction false} DigitsShift(bs: seq<Byte>, n: nat)
    requires 1 <= n <= |bs|
    ensures Digits(bs, n) == bs[0] % 128 + 128 * Digits(bs[1..], n - 1)
  {
    if n == 1 {
      assert Digits(bs, 0) == 0 && Digits(bs[1..], 0) == 0 && Power128(0) == 1;
    } else {
      DigitsShift(bs, n - 1);
      assert bs[1..][n - 2] == bs[n - 1];
      MulScale(bs[n - 1] % 128, Power128(n - 2));
    }
  }

  /** The first n bytes are a varint: all but the last have the top bit. */
  predicate Ends(bs: seq<Byte>, n: nat) {
    1 <= n <= |bs| && (forall i | 0 <= i < n - 1 :: bs[i] >= 128) && bs[n - 1] < 128
  }

  lemma EndsShift(bs: seq<Byte>, n: nat)
    requires bs != [] && bs[0] >= 128 && n > 1
    ensures Ends(bs, n) <==> Ends(bs[1..], n - 1)
  {
    if Ends(bs[1..], n - 1) {
      forall i | 0 <= i < n - 1 ensures bs[i] >= 128 {
        assert i > 0 ==> bs[i] == bs[1..][i - 1];
      }
    }
  }

  lemma EndsOnce(bs: seq<Byte>, m: nat, n: nat)
    requires Ends(bs, m) && Ends(bs, n)
    ensures m == n
  {
  }

  lemma {:induction false} ReadEnds(bs: seq<Byte>)
    ensures var r := ReadVarint(bs);
            r.Some? ==> Ends(bs, r.value.len) && r.value.value == Digits(bs, r.value.len)
  {
    var r := ReadVarint(bs);
    if r.Some? {
      DigitsShift(bs, r.value.len);
      if bs[0] >= 128 {
        ReadEnds(bs[1..]);
        EndsShift(bs, r.value.len);
      }
    }
  }

  lemma {:induction false} EndsRead(bs: seq<Byte>, n: nat)
    requires Ends(bs, n)
    ensures ReadVarint(bs).Some?
  {
    if bs[0] >= 128 {
      EndsShift(bs, n);
      EndsRead(bs[1..], n - 1);
    }
  }

  /** A varint is read exactly where its bytes end, as the number its digits make. */
  lemma ReadVarintExact(bs: seq<Byte>, v: nat, n: nat)
    ensures ReadVarint(bs) == Some(Varint(v, n)) <==> Ends(bs, n) && v == Digits(bs, n)
  {
    hide ReadVarint, Ends, Digits;
    ReadEnds(bs);
    if Ends(bs, n) {
      EndsRead(bs, n);
      EndsOnce(bs, n, ReadVarint(bs).value.len);
    }
  }

  /** Of these, ten bytes and 64 bits at most are accepted. */
  lemma DecodeVarintExact(bs: seq<Byte>, v: nat, n: nat)
    ensures DecodeVarint(bs) == Some(Varint(v, n)) <==>
            Ends(bs, n) && v == Digits(bs, n) && n <= 10 && v < 18446744073709551616
  {
    ReadVarintExact(bs, v, n);
  }

  /** The number without its lowest i digits. */
  function Shifted(v: nat, i: nat): nat {
    if i == 0 then v else Shifted(v / 128, i - 1)
  }

  lemma MulMono(a: nat, b: nat, d: nat)
    requires a <= b
    ensures a * d <= b * d
  {
    assert (b - a) * d >= 0;
  }

  lemma DivBounds(v: nat, d: nat)
    requires d >= 1
    ensures v / d * d <= v < (v / d + 1) * d
  {
  }

  lemma Quotient(v: nat, d: nat, q: nat)
    requires d >= 1 && q * d <= v < (q + 1) * d
    ensures v / d == q
  {
    var k := v / d;
    DivBounds(v, d);
    if k < q {
      MulMono(k + 1, q, d);
    } else if q < k {
      MulMono(q + 1, k, d);
    }
  }

  lemma {:induction false} ShiftedBounds(v: nat, i: nat)
    ensures Shifted(v, i) * Power128(i) <= v < (Shifted(v, i) + 1) * Power128(i)
  {
    if i > 0 {
      ShiftedBounds(v / 128, i - 1);
      ScaleBounds(v, Shifted(v, i), Power128(i - 1));
    }
  }

  lemma MulScale(q: nat, p: nat)
    ensures q * (128 * p) == 128 * (q * p)
  {
  }

  lemma ScaleBounds(v: nat, q: nat, p: nat)
    requires q * p <= v / 128 < (q + 1) * p
    ensures q * (128 * p) <= v < (q + 1) * (128 * p)
  {
    MulScale(q, p);
    MulScale(q + 1, p);
  }

  lemma ShiftedQuotient(v: nat, i: nat)
    ensures Shifted(v, i) == v / Power128(i)
  {
    ShiftedBounds(v, i);
    Quotient(v, Power128(i), Shifted(v, i));
  }

  lemma {:induction false} EncodedShifted(v: nat, i: nat)
    requires i < |EncodeVarint(v)|
    ensures EncodeVarint(v)[i] % 128 == Shifted(v, i) % 128
    ensures EncodeVarint(v)[i] >= 128 <==> i < |EncodeVarint(v)| - 1
  {
    if v >= 128 && i > 0 {
      EncodedShifted(v / 128, i - 1);
    }
  }

  /** The bytes of a number are its digits to the base 128, lowest first, and no more than it needs. */
  lemma EncodeVarintExact(v: nat)
    ensures var bs := EncodeVarint(v);
            && Ends(bs, |bs|)
            && (forall i | 0 <= i < |bs| :: bs[i] % 128 == v / Power128(i) % 128)
            && v < Power128(|bs|) && (|bs| > 1 ==> Power128(|bs| - 1) <= v)
  {
    var bs := EncodeVarint(v);
    forall i | 0 <= i < |bs|
      ensures bs[i] % 128 == v / Power128(i) % 128 && (bs[i] >= 128 <==> i < |bs| - 1)
    {
      EncodedShifted(v, i);
      ShiftedQuotient(v, i);
    }
    EncodedBounds(v);
  }

  lemma {:induction false} EncodedBounds(v: nat)
    ensures var n := |EncodeVarint(v)|; v < Power128(n) && (n > 1 ==> Power128(n - 1) <= v)
  {
    assert Power128(1) == 128 * Power128(0);
    if v >= 128 {
      EncodedBounds(v / 128);
    }
  }

  /* ---- Tags and values ---- */

  /** A tag is a varint of eight times the field number and the wire type. */
  lemma TagExact(bs: seq<Byte>, num: nat, wire: nat, n: nat)
    ensures DecodeTag(bs) == Some(Tag(num, wire, n)) <==>
            Ends(bs, n) && n <= 10 && Digits(bs, n) == 8 * num + wire && 1 <= num <= 536870911 && wire < 8
  {
    hide Ends, Digits, DecodeVarint;
    DecodeVarintExact(bs, 8 * num + wire, n);
    var v := DecodeVarint(bs);
    if v.Some? {
      DecodeVarintExact(bs, v.value.value, v.value.len);
    }
  }

  /** The first n bytes are a value of the wire type, other than a group. */
  predicate IsScalar(wire: nat, bs: seq<Byte>, n: nat) {
    && n <= |bs|
    && match wire
       case 0 => IsVarint(bs, n)
       case 1 => n == 8
       case 2 => exists k | 0 <= k <= n :: IsVarint(bs, k) && n - k == Digits(bs, k)
       case 5 => n == 4
       case _ => false
  }

  predicate IsVarint(bs: seq<Byte>, n: nat) {
    Ends(bs, n) && n <= 10 && Digits(bs, n) < 18446744073709551616
  }

  /** A value is a varint, eight bytes, four bytes, or a varint and as many bytes as it says. */
  lemma ScalarExact(wire: nat, bs: seq<Byte>, n: nat)
    ensures ScalarLen(wire, bs) == Some(n) <==> IsScalar(wire, bs, n)
  {
    if wire == 0 || wire == 2 {
      hide Ends, Digits, DecodeVarint;
      var v := DecodeVarint(bs);
      if v.Some? {
        DecodeVarintExact(bs, v.value.value, v.value.len);
      }
      forall k: nat | k <= n && IsVarint(bs, k) ensures v == Some(Varint(Digits(bs, k), k)) {
        DecodeVarintExact(bs, Digits(bs, k), k);
      }
    }
  }

  /* ---- Groups ---- */

  lemma FirstAgree(a: seq<Byte>, b: seq<Byte>)
    requires FirstRecord(a).Some? && Agree(a, b, 0, FirstRecord(a).value.len)
    ensures FirstRecord(b) == FirstRecord(a)
  {
    hide DecodeTag, ValueLen, ValidRecord;
    var tag := DecodeTag(a).value;
    TagPrefix(a, b);
    AgreeDrop(a, b, tag.len, FirstRecord(a).value.len);
    ValuePrefix(tag.num, tag.wire, a[tag.len..], b[tag.len..]);
    var n := ValueLen(tag.num, tag.wire, a[tag.len..]).value;
    assert a[tag.len..][..n] == b[tag.len..][..n];
  }

  /** The first record and the rest of a message are a message. */
  lemma ParseCons(bs: seq<Byte>, k: nat)
    requires FirstRecord(bs).Some? && FirstRecord(bs).value.len <= k <= |bs|
    requires Parse(bs[FirstRecord(bs).value.len..][..k - FirstRecord(bs).value.len]).Some?
    ensures Parse(bs[..k]).Some?
  {
    hide FirstRecord;
    var n := FirstRecord(bs).value.len;
    FirstAgree(bs, bs[..k]);
    assert bs[..k][n..] == bs[n..][..k - n];
  }

  /** A message of k bytes and an end tag of e bytes close the innermost group, the rest of the length the others. */
  predicate Closes(open: seq<nat>, bs: seq<Byte>, n: nat, k: nat, e: nat)
    requires open != []
  {
    && k + e <= n <= |bs|
    && Parse(bs[..k]).Some? && DecodeTag(bs[k..]) == Some(Tag(open[0], EGROUP, e))
    && if |open| == 1 then n == k + e else GroupLen(open[1..], bs[k + e..]) == Some(n - k - e)
  }

  lemma DropDrop(bs: seq<Byte>, a: nat, b: nat)
    requires a + b <= |bs|
    ensures bs[a..][b..] == bs[a + b..]
  {
  }

  /** A value that is not a group, in a group. */
  lemma ItemScalar(bs: seq<Byte>)
    requires GroupItem(bs).Some? && GroupItem(bs).value.tag.wire != SGROUP && GroupItem(bs).value.tag.wire != EGROUP
    ensures FirstRecord(bs).Some? && FirstRecord(bs).value.len == GroupItem(bs).value.len
  {
  }

  /** A nested group is a record of the group it is in. */
  lemma ItemGroup(bs: seq<Byte>, n: nat)
    requires DecodeTag(bs).Some? && DecodeTag(bs).value.wire == SGROUP
    requires GroupLen([DecodeTag(bs).value.num], bs[DecodeTag(bs).value.len..]) == Some(n)
    ensures FirstRecord(bs).Some? && FirstRecord(bs).value.len == DecodeTag(bs).value.len + n
  {
    hide DecodeTag, GroupLen;
  }

  /** One more record in front. */
  lemma ClosesCons(open: seq<nat>, bs: seq<Byte>, n: nat, k: nat, e: nat)
    requires open != [] && FirstRecord(bs).Some?
    requires var f := FirstRecord(bs).value.len; Closes(open, bs[f..], n, k, e)
    ensures var f := FirstRecord(bs).value.len; Closes(open, bs, f + n, f + k, e)
  {
    hide FirstRecord, DecodeTag, GroupLen, Parse;
    var f := FirstRecord(bs).value.len;
    DropDrop(bs, f, k);
    DropDrop(bs, f, k + e);
    ParseCons(bs, f + k);
  }

  function Add(n: nat, m: Option<nat>): Option<nat> {
    if m.None? then None else Some(n + m.value)
  }

  /** One item further into the groups. */
  lemma GroupStep(open: seq<nat>, bs: seq<Byte>)
    requires open != [] && GroupItem(bs).Some?
    ensures var n, item := GroupLen(open, bs), GroupItem(bs).value;
            && DecodeTag(bs) == Some(item.tag)
            && (item.tag.wire == SGROUP || item.tag.wire == EGROUP ==> item.len == item.tag.len)
            && if item.tag.wire == SGROUP then n == Add(item.len, GroupLen([item.tag.num] + open, bs[item.len..]))
               else if item.tag.wire != EGROUP then n == Add(item.len, GroupLen(open, bs[item.len..]))
               else if item.tag.num != open[0] then n == None
               else if |open| == 1 then n == Some(item.len)
               else n == Add(item.len, GroupLen(open[1..], bs[item.len..]))
  {
    GroupUnfold(open, bs);
    hide DecodeTag, ScalarLen, GroupLen;
  }

  lemma GroupUnfold(open: seq<nat>, bs: seq<Byte>)
    requires open != [] && GroupItem(bs).Some?
    ensures var item := GroupItem(bs).value;
            var after := OpenAfter(open, item.tag);
            GroupLen(open, bs) ==
            if after.None? then None
            else if after.value == [] then Some(item.len)
            else Add(item.len, GroupLen(after.value, bs[item.len..]))
  {
    hide GroupItem, OpenAfter;
  }

  lemma GroupHasItem(open: seq<nat>, bs: seq<Byte>)
    requires open != [] && GroupLen(open, bs).Some?
    ensures GroupItem(bs).Some? && GroupLen(open, bs).value <= |bs|
  {
  }

  lemma {:induction false} GroupOpens(open: seq<nat>, bs: seq<Byte>) returns (k: nat, e: nat)
    requires open != [] && GroupLen(open, bs).Some?
    ensures Closes(open, bs, GroupLen(open, bs).value, k, e)
    decreases |bs|
  {
    hide DecodeTag, FirstRecord, GroupItem, GroupLen, Closes;
    GroupHasItem(open, bs);
    GroupStep(open, bs);
    var n := GroupLen(open, bs).value;
    var item := GroupItem(bs).value;
    var tag := item.tag;
    if tag.wire == EGROUP {
      k, e := 0, item.len;
      ClosesEnd(open, bs, n, item.len);
    } else if tag.wire == SGROUP {
      var inner := bs[item.len..];
      var all := [tag.num] + open;
      var k1, e1 := GroupOpens(all, inner);
      NestedOpens(tag.num, open, inner, n - item.len, k1, e1);
      GroupCloses([tag.num], inner, k1 + e1, k1, e1);
      ItemGroup(bs, k1 + e1);
      var f := item.len + k1 + e1;
      DropDrop(bs, item.len, k1 + e1);
      k, e := GroupOpens(open, bs[f..]);
      ClosesCons(open, bs, n - f, k, e);
      k := f + k;
    } else {
      k, e := GroupOpens(open, bs[item.len..]);
      ItemScalar(bs);
      ClosesCons(open, bs, n - item.len, k, e);
      k := item.len + k;
    }
  }

  lemma ClosesEnd(open: seq<nat>, bs: seq<Byte>, n: nat, e: nat)
    requires open != [] && GroupLen(open, bs) == Some(n) && DecodeTag(bs).Some?
    requires DecodeTag(bs).value.wire == EGROUP && DecodeTag(bs).value.len == e
    ensures Closes(open, bs, n, 0, e)
  {
    hide DecodeTag;
    assert bs[..0] == [] && bs[0..] == bs;
  }

  /** What closes a group inside others closes it alone, and then the others are open. */
  lemma NestedOpens(num: nat, open: seq<nat>, bs: seq<Byte>, n: nat, k: nat, e: nat)
    requires open != [] && Closes([num] + open, bs, n, k, e)
    ensures Closes([num], bs, k + e, k, e) && GroupLen(open, bs[k + e..]) == Some(n - k - e)
  {
    hide DecodeTag, GroupLen, Parse;
    assert ([num] + open)[1..] == open;
  }

  lemma NestedCloses(num: nat, open: seq<nat>, bs: seq<Byte>, n: nat, k: nat, e: nat)
    requires open != [] && Closes([num], bs, k + e, k, e)
    requires k + e <= n <= |bs| && GroupLen(open, bs[k + e..]) == Some(n - k - e)
    ensures Closes([num] + open, bs, n, k, e)
  {
    hide DecodeTag, GroupLen, Parse;
    assert ([num] + open)[1..] == open;
  }

  lemma {:induction false} GroupCloses(open: seq<nat>, bs: seq<Byte>, n: nat, k: nat, e: nat)
    requires open != [] && Closes(open, bs, n, k, e)
    ensures GroupLen(open, bs) == Some(n)
    decreases |bs|
  {
    hide DecodeTag, FirstRecord, GroupItem, GroupLen, Closes;
    if k == 0 {
      EndCloses(open, bs, n, e);
    } else {
      var f := ClosesRest(open, bs, n, k, e);
      GroupCloses(open, bs[f..], n - f, k - f, e);
      FirstItem(bs);
      GroupStep(open, bs);
      var tag := DecodeTag(bs).value;
      if tag.wire == SGROUP {
        var inner := bs[tag.len..];
        var k1, e1 := GroupOpens([tag.num], inner);
        ClosesAlone(tag.num, inner, f - tag.len, k1, e1);
        DropDrop(bs, tag.len, f - tag.len);
        NestedCloses(tag.num, open, inner, n - tag.len, k1, e1);
        GroupCloses([tag.num] + open, inner, n - tag.len, k1, e1);
      }
    }
  }

  lemma EndCloses(open: seq<nat>, bs: seq<Byte>, n: nat, e: nat)
    requires open != [] && Closes(open, bs, n, 0, e)
    ensures GroupLen(open, bs) == Some(n)
  {
    hide DecodeTag, GroupLen;
    assert bs[0..] == bs;
    GroupStep(open, bs);
  }

  /** Without the first record. */
  lemma ClosesRest(open: seq<nat>, bs: seq<Byte>, n: nat, k: nat, e: nat) returns (f: nat)
    requires open != [] && k > 0 && Closes(open, bs, n, k, e)
    ensures FirstRecord(bs).Some? && f == FirstRecord(bs).value.len && 1 <= f <= k <= n <= |bs|
    ensures Closes(open, bs[f..], n - f, k - f, e)
  {
    hide DecodeTag, FirstRecord, GroupLen, Parse;
    f := FirstOf(bs, k);
    DropDrop(bs, f, k - f);
    DropDrop(bs, f, k - f + e);
  }

  lemma ClosesAlone(num: nat, bs: seq<Byte>, n: nat, k: nat, e: nat)
    requires Closes([num], bs, n, k, e)
    ensures n == k + e
  {
    hide DecodeTag, GroupLen, Parse;
  }

  /** A message of k bytes starts with a record, and the rest is a message. */
  lemma FirstOf(bs: seq<Byte>, k: nat) returns (f: nat)
    requires 0 < k <= |bs| && Parse(bs[..k]).Some?
    ensures FirstRecord(bs).Some? && f == FirstRecord(bs).value.len && 1 <= f <= k && Parse(bs[f..][..k - f]).Some?
  {
    hide FirstRecord;
    f := FirstRecord(bs[..k]).value.len;
    FirstAgree(bs[..k], bs);
    assert bs[..k][f..] == bs[f..][..k - f];
  }

  /** A record, as an item of a group. */
  lemma FirstItem(bs: seq<Byte>)
    requires FirstRecord(bs).Some?
    ensures DecodeTag(bs).Some? && GroupItem(bs).Some?
    ensures var tag, item, f := DecodeTag(bs).value, GroupItem(bs).value, FirstRecord(bs).value.len;
            && item.tag == tag && tag.wire != EGROUP && tag.len <= f
            && (tag.wire != SGROUP ==> item.len == f)
            && (tag.wire == SGROUP ==> item.len == tag.len && GroupLen([tag.num], bs[tag.len..]) == Some(f - tag.len))
  {
    hide DecodeTag, GroupLen;
  }

  /** A group is a message and an end tag of its own number: nested groups are records of that message. */
  lemma GroupExact(num: nat, bs: seq<Byte>, n: nat)
    ensures ValueLen(num, 3, bs) == Some(n) <==>
            exists k | 0 <= k <= n <= |bs| :: Parse(bs[..k]).Some? && DecodeTag(bs[k..]) == Some(Tag(num, 4, n - k))
  {
    hide DecodeTag, GroupLen, Parse;
    if ValueLen(num, 3, bs) == Some(n) {
      var k, e := GroupOpens([num], bs);
    }
    if k: nat :| k <= n <= |bs| && Parse(bs[..k]).Some? && DecodeTag(bs[k..]) == Some(Tag(num, 4, n - k)) {
      GroupCloses([num], bs, n, k, n - k);
    }
  }

  /** A record is valid exactly if its bytes are one value of its wire type. */
  lemma RecordExact(r: Record)
    ensures ValidRecord(r) <==>
            && 1 <= r.num <= 536870911
            && if r.wire == 3 then
                 exists k | 0 <= k <= |r.raw| ::
                   Parse(r.raw[..k]).Some? && DecodeTag(r.raw[k..]) == Some(Tag(r.num, 4, |r.raw| - k))
               else IsScalar(r.wire, r.raw, |r.raw|)
  {
    hide DecodeTag, GroupLen, Parse, ScalarLen;
    if r.wire == 3 {
      GroupExact(r.num, r.raw, |r.raw|);
    } else {
      ScalarExact(r.wire, r.raw, |r.raw|);
    }
  }

  /** The payload of a length-delimited record is what follows the varint of its length. */
  lemma PayloadExact(r: Record)
    requires ValidRecord(r) && r.wire == LEN
    ensures exists k | 0 <= k <= |r.raw| ::
              IsVarint(r.raw, k) && Digits(r.raw, k) == |r.raw| - k && Payload(r) == r.raw[k..]
  {
    var v := DecodeVarint(r.raw).value;
    DecodeVarintExact(r.raw, v.value, v.len);
    assert IsVarint(r.raw, v.len);
  }
}
