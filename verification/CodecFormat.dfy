/** The bytes of the fields of a message, and what is accepted as a value, stated without the codec. */
module CodecFormat {
  import opened Options
  import opened Wire
  import opened WireFormat
  import opened Utf8
  import opened Codec
  import opened CodecRoundTrip

  /* ---- Strings ---- */

  /** The strings of a value are encodings of characters; bytes need not be. */
  ghost predicate TextKind(k: Kind, v: Value<Ranged>)
    requires FitsKind(k, v)
  {
    match k
    case KString => IsText(v.text)
    case KMessage(sub) => AllText(sub, v.msg)
    case KStrings => forall t | t in v.texts :: IsText(t)
    case KMessages(sub) => forall i | 0 <= i < |v.msgs| :: AllText(sub, v.msgs[i])
    case KStringMap => forall e | e in v.entries :: IsText(e.key) && IsText(e.value)
    case _ => true
  }

  /** All strings of the message, at any depth, are encodings of characters. */
  ghost predicate AllText(s: Schema, m: Message<Ranged>)
    requires Fits(s, m)
  {
    forall i | 0 <= i < |s| && s[i].num in m.fields :: TextKind(s[i].kind, m.fields[s[i].num])
  }

  lemma {:induction false} CleanKindExact(k: Kind, v: Value<Ranged>)
    requires FitsKind(k, v)
    ensures CleanKind(k, v) <==> TextKind(k, v)
    decreases k, 0
  {
    hide ValidUtf8, IsText, Clean, AllText;
    match k
    case KString => Utf8Exact(v.text);
    case KMessage(sub) => CleanExact(sub, v.msg);
    case KStrings =>
      forall t | t in v.texts ensures ValidUtf8(t) <==> IsText(t) {
        Utf8Exact(t);
      }
    case KMessages(sub) =>
      forall i | 0 <= i < |v.msgs| ensures Clean(sub, v.msgs[i]) <==> AllText(sub, v.msgs[i]) {
        CleanExact(sub, v.msgs[i]);
      }
    case KStringMap =>
      forall e | e in v.entries
        ensures (ValidUtf8(e.key) <==> IsText(e.key)) && (ValidUtf8(e.value) <==> IsText(e.value))
      {
        Utf8Exact(e.key);
        Utf8Exact(e.value);
      }
    case _ =>
  }

  /** The encoder takes exactly the messages whose strings are encodings of characters. */
  lemma {:induction false} CleanExact(s: Schema, m: Message<Ranged>)
    requires Fits(s, m)
    ensures Clean(s, m) <==> AllText(s, m)
    decreases s, 1
  {
    hide CleanKind, TextKind, FitsKind;
    forall i | 0 <= i < |s| && s[i].num in m.fields
      ensures CleanKind(s[i].kind, m.fields[s[i].num]) <==> TextKind(s[i].kind, m.fields[s[i].num])
    {
      CleanKindExact(s[i].kind, m.fields[s[i].num]);
    }
  }

  /* ---- Numbers ---- */

  /** A number field keeps the low 32 bits of a varint, an int32 as two's complement; a bool whether any bit is set. */
  lemma NarrowExact(k: Kind, v: nat)
    requires WireOf(k) == VARINT
    ensures var n := Narrow(k, v);
            && (k.KBool? ==> n == if v == 0 then 0 else 1)
            && (k.KUint32? ==> 0 <= n < 4294967296 && (v - n) % 4294967296 == 0)
            && (k.KInt32? ==> -2147483648 <= n < 2147483648 && (v - n) % 4294967296 == 0)
  {
  }

  /** Of the kinds, the numbers are varints and the others length-delimited. */
  lemma WireExact(k: Kind)
    ensures WireOf(k) == if k.KUint32? || k.KInt32? || k.KBool? then 0 else 2
  {
  }

  /* ---- Fields ---- */

  lemma TagByte(num: nat, wire: nat)
    requires 1 <= num < 16 && wire < 8
    ensures EncodeVarint(8 * num + wire) == [8 * num + wire]
  {
  }

  lemma EmitOne(r: Record)
    ensures Emit([r]) == EncodeVarint(8 * r.num + r.wire) + r.raw
  {
    assert Emit([r]) == EmitRecord(r) + Emit([r][1..]);
  }

  /** A field below 16 is one byte of tag, and a number its varint or a string its length and its bytes. */
  lemma FieldBytes(num: nat, k: Kind, v: Value<Ranged>)
    requires 1 <= num < 16 && FitsKind(k, v)
    ensures var bs := Emit(FieldRecords(num, k, v));
            && (k.KString? || k.KBytes? ==> bs == [8 * num + 2] + (EncodeVarint(|v.text|) + v.text))
            && (k.KBool? ==> bs == [8 * num, 1])
            && (k.KUint32? ==> bs == [8 * num] + EncodeVarint(v.n))
            && (k.KInt32? ==> bs == [8 * num] + EncodeVarint(if v.n < 0 then v.n + 18446744073709551616 else v.n))
            && (k.KMessage? ==>
                  var sub := Encode(k.sub, v.msg);
                  bs == [8 * num + 2] + (EncodeVarint(|sub|) + sub))
  {
    hide Encode, Fits, Emit;
    TagByte(num, 0);
    TagByte(num, 2);
    if k.KString? || k.KBytes? {
      EmitOne(Delimited(num, v.text));
    } else if k.KMessage? {
      EmitOne(Delimited(num, Encode(k.sub, v.msg)));
    } else if WireOf(k) == VARINT {
      EmitOne(Record(num, VARINT, EncodeVarint(Widen(v.n))));
    }
  }

  /** An entry of a map is its key in field 1 and its value in field 2. */
  lemma EntryBytesExact(e: Entry)
    ensures EntryBytes(e) == [0x0A] + (EncodeVarint(|e.key|) + e.key) + ([0x12] + (EncodeVarint(|e.value|) + e.value))
  {
    var k, v := Delimited(1, e.key), Delimited(2, e.value);
    TagByte(1, 2);
    TagByte(2, 2);
    EmitOne(v);
    assert [k, v][1..] == [v];
  }

  /* ---- Entries that were written otherwise ---- */

  function EntryPart(num: nat, t: Option<seq<Byte>>): seq<Record> {
    if t.None? then [] else [Delimited(num, t.value)]
  }

  function EntryRecordsOf(key: Option<seq<Byte>>, value: Option<seq<Byte>>, valueFirst: bool): seq<Record> {
    if valueFirst then EntryPart(2, value) + EntryPart(1, key) else EntryPart(1, key) + EntryPart(2, value)
  }

  function OrEmpty(t: Option<seq<Byte>>): seq<Byte> {
    if t.None? then [] else t.value
  }

  ghost predicate ShortText(t: Option<seq<Byte>>) {
    t.Some? ==> |t.value| <= MAX_SLICE && ValidUtf8(t.value)
  }

  lemma PartFold(m: Message<Settled>, num: nat, t: Option<seq<Byte>>)
    requires (num == 1 || num == 2) && ShortText(t) && num !in m.fields
    ensures var rs := EntryPart(num, t);
            && ValidRecords(rs)
            && Fold(ENTRY, m, rs) == Some(SetField(m, num, if OrEmpty(t) == [] then None else Some(Text(OrEmpty(t)))))
  {
    hide ValidRecord, Merge;
    if t.None? {
      assert m.fields - {num} == m.fields;
    } else {
      TextMerge(num, t.value, None);
      DelimitedIs(num, t.value);
      FoldOne(ENTRY, m, Delimited(num, t.value));
    }
  }

  /** A key or a value that is not written is the empty string, and either may come first. */
  lemma EntryParts(num: nat, key: Option<seq<Byte>>, value: Option<seq<Byte>>, valueFirst: bool,
                   was: Option<Value<Settled>>)
    requires 1 <= num <= MAX_FIELD && ShortText(key) && ShortText(value)
    requires |Emit(EntryRecordsOf(key, value, valueFirst))| <= MAX_SLICE
    ensures var r := Delimited(num, Emit(EntryRecordsOf(key, value, valueFirst)));
            var entries := if was.Some? && was.value.Entries? then was.value.entries else map[];
            && ValidRecord(r)
            && Merge(KStringMap, was, r) == Some(Some(Entries(entries[OrEmpty(key) := OrEmpty(value)])))
  {
    hide ValidRecord, Merge, Decode, Emit, EntryPart;
    if valueFirst {
      var e := TwoParts(2, value, 1, key);
      EntryDecoded(num, Emit(EntryPart(2, value) + EntryPart(1, key)), was, e);
    } else {
      var e := TwoParts(1, key, 2, value);
      EntryDecoded(num, Emit(EntryPart(1, key) + EntryPart(2, value)), was, e);
    }
  }

  lemma TwoParts(a: nat, x: Option<seq<Byte>>, b: nat, y: Option<seq<Byte>>) returns (e: Message<Settled>)
    requires (a == 1 && b == 2) || (a == 2 && b == 1)
    requires ShortText(x) && ShortText(y)
    ensures Decode(ENTRY, Empty(), Emit(EntryPart(a, x) + EntryPart(b, y))) == Some(e)
    ensures TextAt(e, a) == OrEmpty(x) && TextAt(e, b) == OrEmpty(y)
  {
    hide ValidRecord, Fold, Parse, Emit, EntryPart, ValidUtf8;
    PartFold(Empty(), a, x);
    var m := SetField(Empty(), a, if OrEmpty(x) == [] then None else Some(Text(OrEmpty(x))));
    PartFold(m, b, y);
    FoldAppend(ENTRY, Empty(), EntryPart(a, x), EntryPart(b, y));
    ParseEmit(EntryPart(a, x) + EntryPart(b, y));
    e := SetField(m, b, if OrEmpty(y) == [] then None else Some(Text(OrEmpty(y))));
  }

  lemma EntryDecoded(num: nat, bs: seq<Byte>, was: Option<Value<Settled>>, e: Message<Settled>)
    requires 1 <= num <= MAX_FIELD && |bs| <= MAX_SLICE && Decode(ENTRY, Empty(), bs) == Some(e)
    ensures var r := Delimited(num, bs);
            var entries := if was.Some? && was.value.Entries? then was.value.entries else map[];
            ValidRecord(r) && Merge(KStringMap, was, r) == Some(Some(Entries(entries[TextAt(e, 1) := TextAt(e, 2)])))
  {
    hide Decode, Payload, ValidRecord, Delimited;
    DelimitedIs(num, bs);
    DelimitedPayload(num, bs);
  }
}
