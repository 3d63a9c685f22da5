/** Decoding undoes encoding, also under a schema that has more fields. */
module CodecRoundTrip {
  import opened Options
  import opened Wire
  import opened Utf8
  import opened Codec

  /** The schema t has every field of s under the same number and of the same kind. */
  ghost predicate Extends(t: Schema, s: Schema) {
    forall num | KindOf(s, num).Some? :: KindOf(t, num) == KindOf(s, num)
  }

  /** No value is too long for its length to be a 64-bit varint. */
  predicate Small(rs: seq<Record>) {
    forall r | r in rs :: |r.raw| <= MAX_SLICE
  }

  lemma SmallRecords(rs: seq<Record>)
    requires |Emit(rs)| <= MAX_SLICE
    ensures Small(rs)
  {
    forall r | r in rs ensures |r.raw| <= MAX_SLICE {
      var i :| 0 <= i < |rs| && rs[i] == r;
      EmitBounds(rs, i);
    }
  }

  /* ---- Schemas ---- */

  lemma {:induction false} Ascending(s: Schema, i: nat, j: nat)
    requires ValidSchema(s) && i < j < |s|
    ensures s[i].num < s[j].num
  {
    if i < j - 1 {
      Ascending(s, i, j - 1);
    }
  }

  lemma {:induction false} KindOfAt(s: Schema, i: nat)
    requires ValidSchema(s) && i < |s|
    ensures KindOf(s, s[i].num) == Some(s[i].kind)
  {
    if i > 0 {
      Ascending(s, 0, i);
      KindOfAt(s[1..], i - 1);
    }
  }

  lemma {:induction false} IndexOfKind(s: Schema, num: nat) returns (i: nat)
    requires KindOf(s, num).Some?
    ensures i < |s| && s[i].num == num && KindOf(s, num) == Some(s[i].kind)
  {
    if s[0].num == num {
      i := 0;
    } else {
      i := IndexOfKind(s[1..], num);
      i := i + 1;
    }
  }

  /* ---- Folding records ---- */

  lemma {:induction false} FoldAppend(s: Schema, m: Message<Settled>, a: seq<Record>, b: seq<Record>)
    requires ValidRecords(a) && ValidRecords(b)
    ensures ValidRecords(a + b)
    ensures Fold(s, m, a + b) == (var m1 := Fold(s, m, a); if m1.None? then None else Fold(s, m1.value, b))
    decreases |a|
  {
    if a == [] {
      assert a + b == b;
    } else {
      assert (a + b)[0] == a[0] && (a + b)[1..] == a[1..] + b;
      var m1 := Apply(s, m, a[0]);
      if m1.Some? {
        FoldAppend(s, m1.value, a[1..], b);
      }
    }
  }

  lemma FoldOne(s: Schema, m: Message<Settled>, r: Record)
    requires ValidRecord(r)
    ensures Fold(s, m, [r]) == Apply(s, m, r)
  {
    var m1 := Apply(s, m, r);
    if m1.Some? {
      assert Fold(s, m1.value, [r][1..]) == m1;
    }
  }

  /** One more record at the end. */
  lemma FoldSnoc(s: Schema, m: Message<Settled>, rs: seq<Record>, r: Record)
    requires ValidRecords(rs) && ValidRecord(r)
    ensures ValidRecords(rs + [r])
    ensures Fold(s, m, rs + [r]) == (var m1 := Fold(s, m, rs); if m1.None? then None else Apply(s, m1.value, r))
  {
    FoldAppend(s, m, rs, [r]);
    var m1 := Fold(s, m, rs);
    if m1.Some? {
      FoldOne(s, m1.value, r);
    }
  }

  /** Records the schema does not know are kept in order. */
  lemma {:induction false} UnknownFold(s: Schema, m: Message<Settled>, rs: seq<Record>)
    requires ValidRecords(rs) && forall r | r in rs :: !Known(s, r)
    ensures Fold(s, m, rs) == Some(m.(unknown := m.unknown + rs))
    decreases |rs|
  {
    if rs == [] {
      assert m.unknown + rs == m.unknown;
    } else {
      UnknownFold(s, m.(unknown := m.unknown + [rs[0]]), rs[1..]);
      assert m.unknown + [rs[0]] + rs[1..] == m.unknown + rs;
    }
  }

  lemma SetTwice(m: Message<Settled>, num: nat, x: Option<Value<Settled>>, y: Value<Settled>)
    ensures FieldAt(SetField(m, num, x), num) == x
    ensures SetField(SetField(m, num, x), num, Some(y)) == SetField(m, num, Some(y))
  {
    assert SetField(SetField(m, num, x), num, Some(y)).fields == SetField(m, num, Some(y)).fields;
  }

  /** One more record of a field that already has the value x. */
  lemma FoldMore(t: Schema, m: Message<Settled>, rs: seq<Record>, r: Record, k: Kind,
                 x: Option<Value<Settled>>, y: Value<Settled>)
    requires ValidRecords(rs) && ValidRecord(r) && KindOf(t, r.num) == Some(k) && WireOf(k) == r.wire
    requires Fold(t, m, rs) == Some(SetField(m, r.num, x))
    requires Merge(k, x, r) == Some(Some(y))
    ensures ValidRecords(rs + [r]) && Fold(t, m, rs + [r]) == Some(SetField(m, r.num, Some(y)))
  {
    FoldSnoc(t, m, rs, r);
    SetTwice(m, r.num, x, y);
  }

  /* ---- One field ---- */

  /**
   * A uint32, bool or int32 is read back from its varint, whatever follows: of at most five bytes,
   * one byte for a bool, and ten for a negative int32.
   */
  lemma NumberRoundTrip(k: Kind, n: int, rest: seq<Byte>)
    requires WireOf(k) == VARINT && FitsKind(k, Number(n))
    ensures var bs := EncodeVarint(Widen(n));
            var v := DecodeVarint(bs + rest);
            && v.Some? && v.value.len == |bs| && Narrow(k, v.value.value) == n
            && (n < 0 ==> |bs| == 10)
            && (n > 0 ==> |bs| <= 5)
            && (k.KBool? ==> |bs| == 1)
  {
    VarintRoundTrip(Widen(n), rest);
    VarintLength(Widen(n));
  }

  lemma NumberFold(t: Schema, m: Message<Settled>, num: nat, k: Kind, v: Value<Ranged>)
    requires WireOf(k) == VARINT && FitsKind(k, v)
    requires 1 <= num <= MAX_FIELD && KindOf(t, num) == Some(k)
    ensures var rs := FieldRecords(num, k, v);
            ValidRecords(rs) && Fold(t, m, rs) == Some(SetField(m, num, Some(SettleValue(v))))
  {
    var r := Record(num, VARINT, EncodeVarint(Widen(v.n)));
    NumberRoundTrip(k, v.n, []);
    assert r.raw + [] == r.raw;
    FoldOne(t, m, r);
  }

  lemma TextsMerge(num: nat, t: seq<Byte>, ts: seq<seq<Byte>>)
    requires 1 <= num <= MAX_FIELD && |t| <= MAX_SLICE && ValidUtf8(t)
    ensures var r := Delimited(num, t);
            var was := if ts == [] then None else Some(Texts(ts));
            ValidRecord(r) && Merge(KStrings, was, r) == Some(Some(Texts(ts + [t])))
  {
    hide Decode, ValidUtf8, Payload, ValidRecord, Delimited;
    DelimitedIs(num, t);
    DelimitedPayload(num, t);
  }

  lemma {:induction false} TextsFold(t: Schema, m: Message<Settled>, num: nat, ts: seq<seq<Byte>>)
    requires 1 <= num <= MAX_FIELD && KindOf(t, num) == Some(KStrings) && num !in m.fields
    requires Small(TextRecords(num, ts)) && forall x | x in ts :: ValidUtf8(x)
    ensures var rs := TextRecords(num, ts);
            ValidRecords(rs) && Fold(t, m, rs) == Some(SetField(m, num, if ts == [] then None else Some(Texts(ts))))
  {
    hide Merge, ValidRecord, Apply;
    if ts == [] {
      assert m.fields - {num} == m.fields;
    } else {
      var n := |ts| - 1;
      var r := Delimited(num, ts[n]);
      var init := TextRecords(num, ts[..n]);
      assert TextRecords(num, ts) == init + [r];
      assert r in TextRecords(num, ts);
      TextsFold(t, m, num, ts[..n]);
      TextsMerge(num, ts[n], ts[..n]);
      assert ts[..n] + [ts[n]] == ts;
      FoldMore(t, m, init, r, KStrings, if ts[..n] == [] then None else Some(Texts(ts[..n])), Texts(ts));
    }
  }

  lemma TextMerge(num: nat, t: seq<Byte>, was: Option<Value<Settled>>)
    requires 1 <= num <= MAX_FIELD && |t| <= MAX_SLICE && ValidUtf8(t)
    ensures var r := Delimited(num, t);
            ValidRecord(r) && Merge(KString, was, r) == Some(if t == [] then None else Some(Text(t)))
  {
    DelimitedPayload(num, t);
  }

  lemma EntryDecode(e: Entry)
    requires ValidUtf8(e.key) && ValidUtf8(e.value) && |EntryBytes(e)| <= MAX_SLICE
    ensures var m := Decode(ENTRY, Empty(), EntryBytes(e));
            m.Some? && TextAt(m.value, 1) == e.key && TextAt(m.value, 2) == e.value
  {
    hide ValidRecord, Merge;
    var k, v := Delimited(1, e.key), Delimited(2, e.value);
    EmitBounds([k, v], 0);
    EmitBounds([k, v], 1);
    TextMerge(1, e.key, None);
    TextMerge(2, e.value, None);
    ParseEmit([k, v]);
    FoldOne(ENTRY, Empty(), k);
    assert [k] + [v] == [k, v];
    FoldSnoc(ENTRY, Empty(), [k], v);
  }

  lemma EntryMerge(num: nat, e: Entry, was: Option<Value<Settled>>)
    requires 1 <= num <= MAX_FIELD && |EntryBytes(e)| <= MAX_SLICE
    requires ValidUtf8(e.key) && ValidUtf8(e.value)
    ensures var r := Delimited(num, EntryBytes(e));
            var entries := if was.Some? && was.value.Entries? then was.value.entries else map[];
            ValidRecord(r) && Merge(KStringMap, was, r) == Some(Some(Entries(entries[e.key := e.value])))
  {
    hide EntryBytes, Decode, ValidUtf8;
    DelimitedPayload(num, EntryBytes(e));
    EntryDecode(e);
  }

  lemma {:induction false} EntriesFold(t: Schema, m: Message<Settled>, num: nat, es: Ranged)
    requires 1 <= num <= MAX_FIELD && KindOf(t, num) == Some(KStringMap) && num !in m.fields
    requires Small(EntryRecords(num, es)) && forall e | e in es :: ValidUtf8(e.key) && ValidUtf8(e.value)
    ensures var rs := EntryRecords(num, es);
            && ValidRecords(rs)
            && Fold(t, m, rs) == Some(SetField(m, num, if es == [] then None else Some(Entries(ToMap(es)))))
  {
    hide Merge, ValidRecord, Apply;
    if es == [] {
      assert m.fields - {num} == m.fields;
    } else {
      var n := |es| - 1;
      var e := es[n];
      var r := Delimited(num, EntryBytes(e));
      var init := EntryRecords(num, es[..n]);
      assert EntryRecords(num, es) == init + [r];
      assert r in EntryRecords(num, es);
      EntriesFold(t, m, num, es[..n]);
      var was := if es[..n] == [] then None else Some(Entries(ToMap(es[..n])));
      EntryMerge(num, e, was);
      assert ToMap(es) == ToMap(es[..n])[e.key := e.value];
      FoldMore(t, m, init, r, KStringMap, was, Entries(ToMap(es)));
    }
  }

  lemma MessageMerge(num: nat, sub: Schema, bs: seq<Byte>, x: Message<Settled>, ms: seq<Message<Settled>>)
    requires 1 <= num <= MAX_FIELD && |bs| <= MAX_SLICE && Decode(sub, Empty(), bs) == Some(x)
    ensures var r := Delimited(num, bs);
            var was := if ms == [] then None else Some(Subs(ms));
            ValidRecord(r) && Merge(KMessages(sub), was, r) == Some(Some(Subs(ms + [x])))
  {
    hide Decode;
    DelimitedPayload(num, bs);
  }

  lemma {:induction false} MessagesFold(t: Schema, m: Message<Settled>, num: nat, sub: Schema, ms: seq<Message<Ranged>>)
    requires 1 <= num <= MAX_FIELD && KindOf(t, num) == Some(KMessages(sub)) && num !in m.fields && ValidSchema(sub)
    requires forall i | 0 <= i < |ms| :: Fits(sub, ms[i]) && Clean(sub, ms[i])
    requires Small(MessageRecords(num, sub, ms))
    ensures var rs := MessageRecords(num, sub, ms);
            && ValidRecords(rs)
            && Fold(t, m, rs) == Some(SetField(m, num, if ms == [] then None else Some(Subs(SettleAll(ms)))))
    decreases sub, 3, |ms|
  {
    if ms == [] {
      assert m.fields - {num} == m.fields;
    } else {
      hide Merge, Decode, Encode;
      var n := |ms| - 1;
      var bs := Encode(sub, ms[n]);
      var r := Delimited(num, bs);
      var init := MessageRecords(num, sub, ms[..n]);
      assert MessageRecords(num, sub, ms) == init + [r];
      assert r in MessageRecords(num, sub, ms);
      MessagesFold(t, m, num, sub, ms[..n]);
      RoundTrip(sub, ms[n]);
      var done := SettleAll(ms[..n]);
      assert done == [] <==> ms[..n] == [];
      MessageMerge(num, sub, bs, Settle(ms[n]), done);
      FoldMore(t, m, init, r, KMessages(sub), if done == [] then None else Some(Subs(done)), Subs(SettleAll(ms)));
    }
  }

  /** The records of a field decode to its value. */
  lemma {:induction false} FieldFold(t: Schema, m: Message<Settled>, num: nat, k: Kind, v: Value<Ranged>)
    requires 1 <= num <= MAX_FIELD && KindOf(t, num) == Some(k) && num !in m.fields && ValidKind(k)
    requires FitsKind(k, v) && CleanKind(k, v) && Small(FieldRecords(num, k, v))
    ensures var rs := FieldRecords(num, k, v);
            ValidRecords(rs) && Fold(t, m, rs) == Some(SetField(m, num, Some(SettleValue(v))))
    decreases k, 0
  {
    hide ValidRecord, Decode, Encode, Fits, Clean;
    match k
    case KString =>
      DelimitedPayload(num, v.text);
      FoldOne(t, m, Delimited(num, v.text));
    case KBytes =>
      DelimitedPayload(num, v.text);
      FoldOne(t, m, Delimited(num, v.text));
    case KMessage(sub) =>
      var r := Delimited(num, Encode(sub, v.msg));
      assert r in FieldRecords(num, k, v);
      DelimitedPayload(num, Encode(sub, v.msg));
      RoundTrip(sub, v.msg);
      FoldOne(t, m, r);
    case KStrings => TextsFold(t, m, num, v.texts);
    case KMessages(sub) => MessagesFold(t, m, num, sub, v.msgs);
    case KStringMap => EntriesFold(t, m, num, v.entries);
    case _ => NumberFold(t, m, num, k, v);
  }

  /* ---- Whole messages ---- */

  /** The fields of the message that are fields of s. */
  function Part(s: Schema, a: Message<Ranged>): map<nat, Value<Settled>> {
    map num | num in a.fields && KindOf(s, num).Some? :: SettleValue(a.fields[num])
  }

  lemma PartStep(s: Schema, m: Message<Settled>, a: Message<Ranged>)
    requires s != []
    ensures var f := s[0];
            var m1 := if f.num in a.fields then SetField(m, f.num, Some(SettleValue(a.fields[f.num]))) else m;
            m.fields + Part(s, a) == m1.fields + Part(s[1..], a)
  {
  }

  lemma {:induction false} KnownFold(t: Schema, s: Schema, m: Message<Settled>, a: Message<Ranged>)
    requires ValidSchema(s)
    requires forall i | 0 <= i < |s| :: KindOf(t, s[i].num) == Some(s[i].kind) && s[i].num !in m.fields
    requires forall i | 0 <= i < |s| && s[i].num in a.fields ::
               FitsKind(s[i].kind, a.fields[s[i].num]) && CleanKind(s[i].kind, a.fields[s[i].num])
    requires Small(KnownRecords(s, a))
    ensures var rs := KnownRecords(s, a);
            ValidRecords(rs) && Fold(t, m, rs) == Some(m.(fields := m.fields + Part(s, a)))
    decreases s, 0
  {
    hide FitsKind, CleanKind, FieldRecords, SettleValue, ValidRecord, Apply;
    if s == [] {
      assert m.fields + Part(s, a) == m.fields;
    } else {
      var f, rest := s[0], s[1..];
      var more := KnownRecords(rest, a);
      assert KnownRecords(s, a) ==
             (if f.num in a.fields then FieldRecords(f.num, f.kind, a.fields[f.num]) else []) + more;
      var m1 := m;
      var first: seq<Record> := [];
      if f.num in a.fields {
        first := FieldRecords(f.num, f.kind, a.fields[f.num]);
        FieldFold(t, m, f.num, f.kind, a.fields[f.num]);
        m1 := SetField(m, f.num, Some(SettleValue(a.fields[f.num])));
      }
      forall i | 0 <= i < |rest| ensures rest[i] == s[i + 1] && rest[i].num !in m1.fields {
        Ascending(s, 0, i + 1);
      }
      KnownFold(t, rest, m1, a);
      FoldAppend(t, m, first, more);
      PartStep(s, m, a);
    }
  }

  /**
   * Decoding under a schema that extends the encoder's: every known field has its value, and the
   * unknown fields are decoded after them.
   */
  lemma {:induction false} DecodeExtended(t: Schema, s: Schema, a: Message<Ranged>)
    requires ValidSchema(s) && Extends(t, s)
    requires Fits(s, a) && Clean(s, a) && |Encode(s, a)| <= MAX_SLICE
    ensures Decode(t, Empty(), Encode(s, a)) == Fold(t, Message(Settle(a).fields, []), a.unknown)
    decreases s, 1
  {
    hide FitsKind, CleanKind, FieldRecords, SettleValue, ValidRecord, Apply;
    var rs := Records(s, a);
    SmallRecords(rs);
    forall i | 0 <= i < |s| ensures KindOf(t, s[i].num) == Some(s[i].kind) {
      KindOfAt(s, i);
    }
    KnownFold(t, s, Empty(), a);
    FoldAppend(t, Empty(), KnownRecords(s, a), a.unknown);
    ParseEmit(rs);
    assert Empty().fields + Part(s, a) == Settle(a).fields;
  }

  /** Decoding an encoded message gives its value, whatever order its maps were ranged in. */
  lemma {:induction false} RoundTrip(s: Schema, a: Message<Ranged>)
    requires ValidSchema(s)
    requires Fits(s, a) && Clean(s, a) && |Encode(s, a)| <= MAX_SLICE
    ensures Decode(s, Empty(), Encode(s, a)) == Some(Settle(a))
    decreases s, 2
  {
    DecodeExtended(s, s, a);
    UnknownFold(s, Message(Settle(a).fields, []), a.unknown);
    assert [] + a.unknown == a.unknown;
  }
}
