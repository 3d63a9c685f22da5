/** Whatever bytes it is given, the decoder returns only messages the encoder takes. */
module CodecSound {
  import opened Options
  import opened Wire
  import opened Utf8
  import opened Codec
  import opened CodecRoundTrip
  import CodecOrder

  /** A decoded value fits its kind, is not the default, and its strings are UTF-8. */
  predicate SoundKind(k: Kind, v: Value<Settled>)
    decreases k, 0
  {
    match k
    case KString => v.Text? && v.text != [] && ValidUtf8(v.text)
    case KBytes => v.Text? && v.text != []
    case KUint32 => v.Number? && 0 < v.n < TWO32
    case KInt32 => v.Number? && v.n != 0 && -TWO31 <= v.n < TWO31
    case KBool => v.Number? && v.n == 1
    case KMessage(sub) => v.Sub? && Sound(sub, v.msg)
    case KStrings => v.Texts? && v.texts != [] && forall t | t in v.texts :: ValidUtf8(t)
    case KMessages(sub) => v.Subs? && v.msgs != [] && forall i | 0 <= i < |v.msgs| :: Sound(sub, v.msgs[i])
    case KStringMap =>
      && v.Entries? && v.entries != map[]
      && forall e | e in v.entries :: ValidUtf8(e) && ValidUtf8(v.entries[e])
  }

  predicate Sound(s: Schema, m: Message<Settled>)
    decreases s, 1
  {
    && (forall num | num in m.fields :: KindOf(s, num).Some?)
    && (forall i | 0 <= i < |s| && s[i].num in m.fields :: SoundKind(s[i].kind, m.fields[s[i].num]))
    && (forall r | r in m.unknown :: ValidRecord(r) && !Known(s, r))
  }

  lemma EmptySound(s: Schema)
    ensures Sound(s, Empty())
  {
  }

  /** The field of the kind in a sound message, if it has one. */
  lemma SoundAt(s: Schema, m: Message<Settled>, num: nat)
    requires Sound(s, m) && num in m.fields
    ensures KindOf(s, num).Some? && SoundKind(KindOf(s, num).value, m.fields[num])
  {
    var i := IndexOfKind(s, num);
  }

  lemma SetSound(s: Schema, m: Message<Settled>, num: nat, v: Option<Value<Settled>>)
    requires ValidSchema(s) && Sound(s, m) && KindOf(s, num).Some?
    requires v.Some? ==> SoundKind(KindOf(s, num).value, v.value)
    ensures Sound(s, SetField(m, num, v))
  {
    hide SoundKind;
    forall i | 0 <= i < |s| && s[i].num == num ensures KindOf(s, num) == Some(s[i].kind) {
      KindOfAt(s, i);
    }
  }

  lemma ValidAt(s: Schema, num: nat)
    requires ValidSchema(s) && KindOf(s, num).Some?
    ensures ValidKind(KindOf(s, num).value)
  {
    var i := IndexOfKind(s, num);
    assert KindsValid(s);
  }

  lemma NarrowSound(k: Kind, v: nat)
    requires WireOf(k) == VARINT
    ensures Narrow(k, v) != 0 ==> SoundKind(k, Number(Narrow(k, v)))
  {
  }

  lemma EntrySound(e: Message<Settled>)
    requires Sound(ENTRY, e)
    ensures ValidUtf8(TextAt(e, 1)) && ValidUtf8(TextAt(e, 2))
  {
    assert ENTRY[0].num == 1 && ENTRY[1].num == 2;
  }

  lemma EntryValid()
    ensures ValidSchema(ENTRY)
  {
    assert KindsValid(ENTRY);
  }

  lemma MapMergeSound(was: Option<Value<Settled>>, key: seq<Byte>, value: seq<Byte>)
    requires was.Some? ==> SoundKind(KStringMap, was.value)
    requires ValidUtf8(key) && ValidUtf8(value)
    ensures var entries := if was.Some? && was.value.Entries? then was.value.entries else map[];
            SoundKind(KStringMap, Entries(entries[key := value]))
  {
    var entries := if was.Some? && was.value.Entries? then was.value.entries else map[];
    assert key in entries[key := value];
  }

  lemma {:induction false} MergeSound(k: Kind, was: Option<Value<Settled>>, r: Record)
    requires ValidKind(k) && ValidRecord(r) && WireOf(k) == r.wire && (was.Some? ==> SoundKind(k, was.value))
    ensures var v := Merge(k, was, r); v.Some? && v.value.Some? ==> SoundKind(k, v.value.value)
    decreases |r.raw|, 3
  {
    hide Decode, Sound, DecodeVarint, ValidUtf8;
    match k
    case KMessage(sub) =>
      EmptySound(sub);
      DecodeSound(sub, if was.Some? && was.value.Sub? then was.value.msg else Empty(), Payload(r));
    case KMessages(sub) =>
      EmptySound(sub);
      DecodeSound(sub, Empty(), Payload(r));
    case KStringMap =>
      EntryValid();
      EmptySound(ENTRY);
      DecodeSound(ENTRY, Empty(), Payload(r));
      var e := Decode(ENTRY, Empty(), Payload(r));
      if e.Some? {
        EntrySound(e.value);
        MapMergeSound(was, TextAt(e.value, 1), TextAt(e.value, 2));
      }
    case KString =>
    case KBytes =>
    case KStrings =>
    case _ => NarrowSound(k, DecodeVarint(r.raw).value.value);
  }

  lemma {:induction false} ApplySound(s: Schema, m: Message<Settled>, r: Record)
    requires ValidSchema(s) && Sound(s, m) && ValidRecord(r)
    ensures var m' := Apply(s, m, r); m'.Some? ==> Sound(s, m'.value)
    decreases 1 + |r.raw|, 0
  {
    if Known(s, r) {
      hide SoundKind, ValidRecord;
      var k := KindOf(s, r.num).value;
      ValidAt(s, r.num);
      if r.num in m.fields {
        SoundAt(s, m, r.num);
      }
      MergeSound(k, FieldAt(m, r.num), r);
      var v := Merge(k, FieldAt(m, r.num), r);
      if v.Some? {
        SetSound(s, m, r.num, v.value);
      }
    }
  }

  lemma {:induction false} FoldSound(s: Schema, m: Message<Settled>, rs: seq<Record>)
    requires ValidSchema(s) && Sound(s, m) && ValidRecords(rs)
    ensures var m' := Fold(s, m, rs); m'.Some? ==> Sound(s, m'.value)
    decreases Size(rs), 1
  {
    if rs != [] {
      ApplySound(s, m, rs[0]);
      var m1 := Apply(s, m, rs[0]);
      if m1.Some? {
        FoldSound(s, m1.value, rs[1..]);
      }
    }
  }

  /** Every message that is decoded, from any bytes, is sound. */
  lemma {:induction false} DecodeSound(s: Schema, m: Message<Settled>, bs: seq<Byte>)
    requires ValidSchema(s) && Sound(s, m)
    ensures var m' := Decode(s, m, bs); m'.Some? ==> Sound(s, m'.value)
    decreases |bs|, 2
  {
    if Parse(bs).Some? {
      FoldSound(s, m, Parse(bs).value);
    }
  }

  /* ---- Ranging over a decoded message ---- */

  /** No map of the message, at any depth, has a key twice. */
  predicate RangesOnce(m: Message<Ranged>) {
    forall num | num in m.fields :: ValueRangesOnce(m.fields[num])
  }

  predicate ValueRangesOnce(v: Value<Ranged>) {
    match v
    case Sub(m) => RangesOnce(m)
    case Subs(ms) => forall i | 0 <= i < |ms| :: RangesOnce(ms[i])
    case Entries(es) => DistinctKeys(es)
    case _ => true
  }

  lemma {:induction false} SettleAllAt(ms: seq<Message<Ranged>>)
    ensures |SettleAll(ms)| == |ms| && forall i | 0 <= i < |ms| :: SettleAll(ms)[i] == Settle(ms[i])
  {
    if ms != [] {
      SettleAllAt(ms[..|ms| - 1]);
    }
  }

  lemma {:induction false} FitsKindFromSound(k: Kind, v: Value<Ranged>)
    requires ValueRangesOnce(v) && SoundKind(k, SettleValue(v))
    ensures FitsKind(k, v) && CleanKind(k, v)
    decreases k, 0
  {
    match k
    case KMessage(sub) => FitsFromSound(sub, v.msg);
    case KMessages(sub) =>
      SettleAllAt(v.msgs);
      forall i | 0 <= i < |v.msgs| ensures Fits(sub, v.msgs[i]) && Clean(sub, v.msgs[i]) {
        FitsFromSound(sub, v.msgs[i]);
      }
    case KStringMap => CodecOrder.ToMapHas(v.entries);
    case _ =>
  }

  /** However its maps are ranged over, a sound message can be encoded. */
  lemma {:induction false} FitsFromSound(s: Schema, a: Message<Ranged>)
    requires RangesOnce(a) && Sound(s, Settle(a))
    ensures Fits(s, a) && Clean(s, a)
    decreases s, 1
  {
    forall num | num in a.fields ensures KindOf(s, num).Some? {
      assert num in Settle(a).fields;
    }
    forall i | 0 <= i < |s| && s[i].num in a.fields
      ensures FitsKind(s[i].kind, a.fields[s[i].num]) && CleanKind(s[i].kind, a.fields[s[i].num])
    {
      assert s[i].num in Settle(a).fields;
      FitsKindFromSound(s[i].kind, a.fields[s[i].num]);
    }
  }

  /* ---- A range over every decoded message ---- */

  /** Some order of the entries of a map. */
  ghost function EntriesOf(m: Settled): (es: Ranged)
    ensures DistinctKeys(es) && ToMap(es) == m
  {
    if m == map[] then []
    else
      var k :| k in m;
      var rest := EntriesOf(m - {k});
      AddEntry(rest, m, k);
      rest + [Entry(k, m[k])]
  }

  lemma AddEntry(rest: Ranged, m: Settled, k: seq<Byte>)
    requires k in m && DistinctKeys(rest) && ToMap(rest) == m - {k}
    ensures var es := rest + [Entry(k, m[k])]; DistinctKeys(es) && ToMap(es) == m
  {
    hide ToMap;
    ToMapSnoc(rest, Entry(k, m[k]));
    CodecOrder.ToMapHas(rest);
    forall i | 0 <= i < |rest| ensures rest[i].key != k {
      assert rest[i] in rest;
    }
    assert (m - {k})[k := m[k]] == m;
  }

  lemma ToMapSnoc(rest: Ranged, e: Entry)
    ensures ToMap(rest + [e]) == ToMap(rest)[e.key := e.value]
  {
    assert (rest + [e])[..|rest + [e]| - 1] == rest;
  }

  ghost function RangeMessage(m: Message<Settled>): Message<Ranged> {
    Message(map num | num in m.fields :: RangeValue(m.fields[num]), m.unknown)
  }

  ghost function RangeValue(v: Value<Settled>): Value<Ranged> {
    match v
    case Text(t) => Text(t)
    case Number(n) => Number(n)
    case Sub(m) => Sub(RangeMessage(m))
    case Texts(ts) => Texts(ts)
    case Subs(ms) => Subs(RangeAll(ms))
    case Entries(es) => Entries(EntriesOf(es))
  }

  ghost function RangeAll(ms: seq<Message<Settled>>): seq<Message<Ranged>> {
    if ms == [] then [] else RangeAll(ms[..|ms| - 1]) + [RangeMessage(ms[|ms| - 1])]
  }

  /** Every decoded message can be ranged over. */
  lemma {:induction false} RangeSettles(m: Message<Settled>)
    ensures Settle(RangeMessage(m)) == m && RangesOnce(RangeMessage(m))
  {
    forall num | num in m.fields
      ensures SettleValue(RangeValue(m.fields[num])) == m.fields[num] && ValueRangesOnce(RangeValue(m.fields[num]))
    {
      RangeValueSettles(m.fields[num]);
    }
    assert Settle(RangeMessage(m)).fields == m.fields;
  }

  lemma {:induction false} RangeValueSettles(v: Value<Settled>)
    ensures SettleValue(RangeValue(v)) == v && ValueRangesOnce(RangeValue(v))
  {
    match v
    case Sub(m) => RangeSettles(m);
    case Subs(ms) => RangeAllSettles(ms);
    case _ =>
  }

  lemma {:induction false} RangeAllSettles(ms: seq<Message<Settled>>)
    ensures SettleAll(RangeAll(ms)) == ms && forall i | 0 <= i < |RangeAll(ms)| :: RangesOnce(RangeAll(ms)[i])
  {
    hide Settle, RangeMessage, RangesOnce;
    if ms != [] {
      var n := |ms| - 1;
      RangeAllSettles(ms[..n]);
      RangeSettles(ms[n]);
      assert RangeAll(ms)[..|RangeAll(ms)| - 1] == RangeAll(ms[..n]);
      assert ms[..n] + [ms[n]] == ms;
    }
  }
}
