/** What the decoder makes of a message does not depend on the order its fields were written in. */
module CodecOrder {
  import opened Options
  import opened Wire
  import opened Codec
  import opened CodecRoundTrip

  /** The records of the field, in order. */
  function Select(rs: seq<Record>, num: nat): seq<Record> {
    if rs == [] then []
    else (if rs[0].num == num then [rs[0]] else []) + Select(rs[1..], num)
  }

  lemma {:induction false} SelectMember(rs: seq<Record>, num: nat, r: Record)
    ensures r in Select(rs, num) <==> r in rs && r.num == num
  {
    if rs != [] {
      SelectMember(rs[1..], num, r);
    }
  }

  lemma {:induction false} SelectAppend(a: seq<Record>, b: seq<Record>, num: nat)
    ensures Select(a + b, num) == Select(a, num) + Select(b, num)
  {
    if a == [] {
      assert a + b == b;
    } else {
      assert (a + b)[0] == a[0] && (a + b)[1..] == a[1..] + b;
      SelectAppend(a[1..], b, num);
      var first := if a[0].num == num then [a[0]] else [];
      assert first + (Select(a[1..], num) + Select(b, num)) == first + Select(a[1..], num) + Select(b, num);
    }
  }

  lemma SelectValid(rs: seq<Record>, num: nat)
    requires ValidRecords(rs)
    ensures ValidRecords(Select(rs, num))
  {
    forall r | r in Select(rs, num) ensures ValidRecord(r) {
      SelectMember(rs, num, r);
    }
  }

  /* ---- Which records are refused ---- */

  /** The record can be decoded, into any message. */
  predicate Accepts(s: Schema, r: Record)
    requires ValidRecord(r)
  {
    Apply(s, Empty(), r).Some?
  }

  lemma {:induction false} MergeAccepts(k: Kind, x: Option<Value<Settled>>, y: Option<Value<Settled>>, r: Record)
    requires ValidRecord(r) && WireOf(k) == r.wire
    ensures Merge(k, x, r).Some? == Merge(k, y, r).Some?
    decreases |r.raw|, 3
  {
    if k.KMessage? {
      DecodeAccepts(k.sub, if x.Some? && x.value.Sub? then x.value.msg else Empty(),
                    if y.Some? && y.value.Sub? then y.value.msg else Empty(), Payload(r));
    }
  }

  lemma {:induction false} FoldAccepts(s: Schema, m: Message<Settled>, m': Message<Settled>, rs: seq<Record>)
    requires ValidRecords(rs)
    ensures Fold(s, m, rs).Some? == Fold(s, m', rs).Some?
    decreases Size(rs), 1
  {
    if rs != [] {
      var r := rs[0];
      if Known(s, r) {
        MergeAccepts(KindOf(s, r.num).value, FieldAt(m, r.num), FieldAt(m', r.num), r);
      }
      var m1, m1' := Apply(s, m, r), Apply(s, m', r);
      if m1.Some? {
        FoldAccepts(s, m1.value, m1'.value, rs[1..]);
      }
    }
  }

  lemma {:induction false} DecodeAccepts(s: Schema, m: Message<Settled>, m': Message<Settled>, bs: seq<Byte>)
    ensures Decode(s, m, bs).Some? == Decode(s, m', bs).Some?
    decreases |bs|, 2
  {
    if Parse(bs).Some? {
      FoldAccepts(s, m, m', Parse(bs).value);
    }
  }

  lemma AcceptsFirst(s: Schema, m: Message<Settled>, r: Record)
    requires ValidRecord(r)
    ensures Apply(s, m, r).Some? <==> Accepts(s, r)
  {
    FoldOne(s, m, r);
    FoldOne(s, Empty(), r);
    FoldAccepts(s, m, Empty(), [r]);
  }

  /** A message decodes exactly when each of its records does. */
  lemma {:induction false} FoldAcceptsEach(s: Schema, m: Message<Settled>, rs: seq<Record>)
    requires ValidRecords(rs)
    ensures Fold(s, m, rs).Some? <==> forall r | r in rs :: Accepts(s, r)
    decreases |rs|
  {
    hide Apply, ValidRecord;
    if rs != [] {
      AcceptsFirst(s, m, rs[0]);
      var m1 := Apply(s, m, rs[0]);
      if m1.Some? {
        FoldAcceptsEach(s, m1.value, rs[1..]);
        if Fold(s, m, rs).Some? {
          forall r | r in rs ensures Accepts(s, r) {
            assert r == rs[0] || r in rs[1..];
          }
        } else {
          var r :| r in rs[1..] && !Accepts(s, r);
          assert r in rs;
        }
      } else {
        assert rs[0] in rs && !Accepts(s, rs[0]);
      }
    }
  }

  /* ---- What a field becomes ---- */

  /** The messages agree on the field: on its value and on its unknown records. */
  predicate SameField(m: Message<Settled>, m': Message<Settled>, num: nat) {
    FieldAt(m, num) == FieldAt(m', num) && Select(m.unknown, num) == Select(m'.unknown, num)
  }

  lemma ApplySame(s: Schema, m: Message<Settled>, m': Message<Settled>, r: Record)
    requires ValidRecord(r) && SameField(m, m', r.num) && Apply(s, m, r).Some?
    ensures Apply(s, m', r).Some? && SameField(Apply(s, m, r).value, Apply(s, m', r).value, r.num)
  {
    hide Merge;
    SelectAppend(m.unknown, [r], r.num);
    SelectAppend(m'.unknown, [r], r.num);
  }

  lemma ApplyOther(s: Schema, m: Message<Settled>, r: Record, num: nat)
    requires ValidRecord(r) && r.num != num && Apply(s, m, r).Some?
    ensures SameField(Apply(s, m, r).value, m, num)
  {
    hide Merge;
    SelectAppend(m.unknown, [r], num);
    assert Select([r], num) == [];
  }

  /** A field depends on its own records only. */
  lemma {:induction false} FoldSelect(s: Schema, m: Message<Settled>, m': Message<Settled>, rs: seq<Record>, num: nat)
    requires ValidRecords(rs) && SameField(m, m', num) && Fold(s, m, rs).Some?
    ensures ValidRecords(Select(rs, num))
    ensures var r' := Fold(s, m', Select(rs, num)); r'.Some? && SameField(Fold(s, m, rs).value, r'.value, num)
    decreases |rs|
  {
    SelectValid(rs, num);
    if rs != [] {
      var r := rs[0];
      var m1 := Apply(s, m, r).value;
      if r.num == num {
        ApplySame(s, m, m', r);
        FoldSelect(s, m1, Apply(s, m', r).value, rs[1..], num);
        assert Select(rs, num)[1..] == Select(rs[1..], num);
      } else {
        ApplyOther(s, m, r, num);
        FoldSelect(s, m1, m', rs[1..], num);
        assert Select(rs, num) == Select(rs[1..], num);
      }
    }
  }

  /**
   * Records of different fields may be written in any order: the same bytes are refused, and what
   * is decoded has the same fields and, field by field, the same unknown records.
   */
  lemma ReorderedRecords(s: Schema, m: Message<Settled>, a: seq<Record>, b: seq<Record>)
    requires ValidRecords(a) && ValidRecords(b)
    requires forall num :: Select(a, num) == Select(b, num)
    ensures var x, y := Decode(s, m, Emit(a)), Decode(s, m, Emit(b));
            && (x.Some? <==> y.Some?)
            && (x.Some? ==> x.value.fields == y.value.fields && forall num :: SameField(x.value, y.value, num))
  {
    ParseEmit(a);
    ParseEmit(b);
    ReorderedFold(s, m, a, b);
    var x, y := Fold(s, m, a), Fold(s, m, b);
    if x.Some? {
      SameFieldsEqual(x.value, y.value);
    }
  }

  lemma ReorderedFold(s: Schema, m: Message<Settled>, a: seq<Record>, b: seq<Record>)
    requires ValidRecords(a) && ValidRecords(b)
    requires forall num :: Select(a, num) == Select(b, num)
    ensures var x, y := Fold(s, m, a), Fold(s, m, b);
            (x.Some? <==> y.Some?) && (x.Some? ==> forall num :: SameField(x.value, y.value, num))
  {
    hide Fold, Accepts, ValidRecord;
    FoldAcceptsEach(s, m, a);
    FoldAcceptsEach(s, m, b);
    forall r ensures r in a <==> r in b {
      SelectMember(a, r.num, r);
      SelectMember(b, r.num, r);
    }
    if Fold(s, m, a).Some? {
      forall num ensures SameField(Fold(s, m, a).value, Fold(s, m, b).value, num) {
        FoldSelect(s, m, m, a, num);
        FoldSelect(s, m, m, b, num);
      }
    }
  }

  lemma SameFieldsEqual(x: Message<Settled>, y: Message<Settled>)
    requires forall num :: SameField(x, y, num)
    ensures x.fields == y.fields
  {
    forall num ensures (num in x.fields) == (num in y.fields) {
      assert SameField(x, y, num);
    }
    forall num | num in x.fields ensures x.fields[num] == y.fields[num] {
      assert SameField(x, y, num);
    }
  }

  /* ---- One field more than once ---- */

  /** Of the records of a field that holds one string, bytes or number the last one wins. */
  lemma LastOneWins(s: Schema, m: Message<Settled>, rs: seq<Record>, r: Record)
    requires ValidRecords(rs) && ValidRecord(r) && Known(s, r)
    requires var k := KindOf(s, r.num).value; k.KString? || k.KBytes? || WireOf(k) == VARINT
    ensures ValidRecords(rs + [r])
    ensures var x, y := Fold(s, m, rs + [r]), Apply(s, Empty(), r);
            x.Some? ==> y.Some? && FieldAt(x.value, r.num) == FieldAt(y.value, r.num)
  {
    FoldSnoc(s, m, rs, r);
  }

  /** Two records of a message field are read as one of both messages, one after the other. */
  lemma SubmessagesMerge(s: Schema, m: Message<Settled>, num: nat, a: seq<Byte>, b: seq<Byte>)
    requires 1 <= num <= MAX_FIELD && KindOf(s, num).Some? && KindOf(s, num).value.KMessage?
    requires |a + b| <= MAX_SLICE && Parse(a).Some?
    ensures var x, y, z := Delimited(num, a), Delimited(num, b), Delimited(num, a + b);
            ValidRecords([x, y]) && ValidRecord(z) && Fold(s, m, [x, y]) == Apply(s, m, z)
  {
    hide ValidRecord, Decode, KindOf, Delimited, Payload, Fold;
    var x, y, z := Delimited(num, a), Delimited(num, b), Delimited(num, a + b);
    DelimitedIs(num, a);
    DelimitedIs(num, b);
    DelimitedIs(num, a + b);
    DelimitedPayload(num, a);
    DelimitedPayload(num, b);
    DelimitedPayload(num, a + b);
    var sub := KindOf(s, num).value.sub;
    var base := if num in m.fields && m.fields[num].Sub? then m.fields[num].msg else Empty();
    DecodeAppend(sub, base, a, b);
    FoldOne(s, m, x);
    FoldSnoc(s, m, [x], y);
    assert [x] + [y] == [x, y];
    var d := Decode(sub, base, a);
    if d.Some? {
      var e := Decode(sub, d.value, b);
      if e.Some? {
        SetTwice(m, num, Some(Sub(d.value)), Sub(e.value));
      }
    }
  }

  lemma DecodeAppend(s: Schema, m: Message<Settled>, a: seq<Byte>, b: seq<Byte>)
    requires Parse(a).Some?
    ensures Decode(s, m, a + b) == (var d := Decode(s, m, a); if d.None? then None else Decode(s, d.value, b))
  {
    ParseAppend(a, b);
    if Parse(b).Some? {
      FoldAppend(s, m, Parse(a).value, Parse(b).value);
    }
  }

  /* ---- Map entries ---- */

  lemma {:induction false} ToMapHas(es: Ranged)
    requires DistinctKeys(es)
    ensures forall e | e in es :: e.key in ToMap(es) && ToMap(es)[e.key] == e.value
    ensures forall k | k in ToMap(es) :: Entry(k, ToMap(es)[k]) in es
  {
    if es != [] {
      var n := |es| - 1;
      ToMapHas(es[..n]);
      assert es == es[..n] + [es[n]];
    }
  }

  /** Ranging over a map in another order yields the same value. */
  lemma RangeOrder(a: Ranged, b: Ranged)
    requires DistinctKeys(a) && DistinctKeys(b) && multiset(a) == multiset(b)
    ensures ToMap(a) == ToMap(b)
  {
    ToMapHas(a);
    ToMapHas(b);
    forall e: Entry ensures e in a <==> e in b {
      assert e in multiset(a) <==> e in multiset(b);
    }
    forall k | k in ToMap(a) ensures k in ToMap(b) && ToMap(b)[k] == ToMap(a)[k] {
      assert Entry(k, ToMap(a)[k]) in b;
    }
    forall k | k in ToMap(b) ensures k in ToMap(a) {
      assert Entry(k, ToMap(b)[k]) in a;
    }
  }

  /**
   * Two encodings of one message that range over its maps, at any depth, in different orders
   * decode to the same message under every schema that extends its own.
   */
  lemma RangeOrderDecodes(t: Schema, s: Schema, a: Message<Ranged>, b: Message<Ranged>)
    requires ValidSchema(s) && Extends(t, s)
    requires Fits(s, a) && Clean(s, a) && |Encode(s, a)| <= MAX_SLICE
    requires Fits(s, b) && Clean(s, b) && |Encode(s, b)| <= MAX_SLICE
    requires Settle(a) == Settle(b)
    ensures Decode(t, Empty(), Encode(s, a)) == Decode(t, Empty(), Encode(s, b))
  {
    hide *;
    DecodeExtended(t, s, a);
    DecodeExtended(t, s, b);
    assert a.unknown == b.unknown by { SettleUnknown(a); SettleUnknown(b); }
  }

  lemma SettleUnknown(a: Message<Ranged>)
    ensures Settle(a).unknown == a.unknown
  {
  }
}
