/**
 * The message layer of the Protocol Buffers wire format ("Encoding" reference, sections "Message
 * Structure", "Optional and Repeated", "Last One Wins" and "Maps") for the proto3 messages of the
 * CA: encoding in field order with the unknown fields last, decoding into a message, one record
 * at a time, with what the schema does not know kept.
 */
module Codec {
  import opened Options
  import opened Wire
  import opened Utf8

  /* ---- Schemas and messages ---- */

  datatype Kind =
    | KString
    | KBytes
    | KUint32
    | KInt32
    | KBool
    | KMessage(sub: Schema)
    | KStrings
    | KMessages(sub: Schema)
    | KStringMap

  datatype Field = Field(num: nat, name: string, kind: Kind)

  /** The fields of a message by increasing number. An enum is an int32. */
  type Schema = seq<Field>

  datatype Entry = Entry(key: seq<Byte>, value: seq<Byte>)

  /** A Go map as one range over it sees it: the entries in an arbitrary order, no key twice. */
  type Ranged = seq<Entry>

  /** A Go map as a value. */
  type Settled = map<seq<Byte>, seq<Byte>>

  datatype Value<E> =
    | Text(text: seq<Byte>)
    | Number(n: int)
    | Sub(msg: Message<E>)
    | Texts(texts: seq<seq<Byte>>)
    | Subs(msgs: seq<Message<E>>)
    | Entries(entries: E)

  /** The fields that do not have their default value, by number, and the unknown fields. */
  datatype Message<E> = Message(fields: map<nat, Value<E>>, unknown: seq<Record>)

  /** The kind of the field with the number. */
  function KindOf(s: Schema, num: nat): Option<Kind> {
    if s == [] then None
    else if s[0].num == num then Some(s[0].kind)
    else KindOf(s[1..], num)
  }

  function WireOf(k: Kind): nat {
    if k.KUint32? || k.KInt32? || k.KBool? then VARINT else LEN
  }

  /** The record is of a field the schema has, in the wire type of its kind. */
  predicate Known(s: Schema, r: Record) {
    KindOf(s, r.num).Some? && WireOf(KindOf(s, r.num).value) == r.wire
  }

  predicate Numbered(s: Schema) {
    && (forall i | 0 <= i < |s| :: 1 <= s[i].num <= MAX_FIELD)
    && (forall i | 0 < i < |s| :: s[i - 1].num < s[i].num)
  }

  predicate KindsValid(s: Schema)
    decreases s, 0
  {
    forall i | 0 <= i < |s| :: ValidKind(s[i].kind)
  }

  predicate ValidSchema(s: Schema)
    decreases s, 1
  {
    Numbered(s) && KindsValid(s)
  }

  predicate ValidKind(k: Kind) {
    (k.KMessage? || k.KMessages?) ==> ValidSchema(k.sub)
  }

  predicate DistinctKeys(es: Ranged) {
    forall i, j | 0 <= i < j < |es| :: es[i].key != es[j].key
  }

  /** What the Go types guarantee of a value of the kind, other than the default. */
  predicate FitsKind(k: Kind, v: Value<Ranged>) {
    match k
    case KString => v.Text? && v.text != []
    case KBytes => v.Text? && v.text != []
    case KUint32 => v.Number? && 0 < v.n < TWO32
    case KInt32 => v.Number? && v.n != 0 && -TWO31 <= v.n < TWO31
    case KBool => v.Number? && v.n == 1
    case KMessage(sub) => v.Sub? && Fits(sub, v.msg)
    case KStrings => v.Texts? && v.texts != []
    case KMessages(sub) => v.Subs? && v.msgs != [] && forall i | 0 <= i < |v.msgs| :: Fits(sub, v.msgs[i])
    case KStringMap => v.Entries? && v.entries != [] && DistinctKeys(v.entries)
  }

  /** What the Go types and an earlier decoding guarantee of a message of the schema. */
  predicate Fits(s: Schema, m: Message<Ranged>) {
    && (forall num | num in m.fields :: KindOf(s, num).Some?)
    && (forall i | 0 <= i < |s| && s[i].num in m.fields :: FitsKind(s[i].kind, m.fields[s[i].num]))
    && (forall r | r in m.unknown :: ValidRecord(r) && !Known(s, r))
  }

  /** The strings of a value are UTF-8: what the encoder checks. */
  predicate CleanKind(k: Kind, v: Value<Ranged>)
    requires FitsKind(k, v)
  {
    match k
    case KString => ValidUtf8(v.text)
    case KMessage(sub) => Clean(sub, v.msg)
    case KStrings => forall t | t in v.texts :: ValidUtf8(t)
    case KMessages(sub) => forall i | 0 <= i < |v.msgs| :: Clean(sub, v.msgs[i])
    case KStringMap => forall e | e in v.entries :: ValidUtf8(e.key) && ValidUtf8(e.value)
    case _ => true
  }

  predicate Clean(s: Schema, m: Message<Ranged>)
    requires Fits(s, m)
  {
    forall i | 0 <= i < |s| && s[i].num in m.fields :: CleanKind(s[i].kind, m.fields[s[i].num])
  }

  /** The value of a message, which the order its maps are ranged in is not part of. */
  function Settle(m: Message<Ranged>): Message<Settled> {
    Message(map num | num in m.fields :: SettleValue(m.fields[num]), m.unknown)
  }

  function SettleValue(v: Value<Ranged>): Value<Settled> {
    match v
    case Text(t) => Text(t)
    case Number(n) => Number(n)
    case Sub(m) => Sub(Settle(m))
    case Texts(ts) => Texts(ts)
    case Subs(ms) => Subs(SettleAll(ms))
    case Entries(es) => Entries(ToMap(es))
  }

  function SettleAll(ms: seq<Message<Ranged>>): seq<Message<Settled>> {
    if ms == [] then [] else SettleAll(ms[..|ms| - 1]) + [Settle(ms[|ms| - 1])]
  }

  function ToMap(es: Ranged): Settled {
    if es == [] then map[] else ToMap(es[..|es| - 1])[es[|es| - 1].key := es[|es| - 1].value]
  }

  /* ---- Encoding ---- */

  /** A negative int32 is sign-extended to 64 bits. */
  function Widen(n: int): nat
    requires -TWO31 <= n < TWO32
  {
    if n < 0 then n + TWO64 else n
  }

  function FieldRecords(num: nat, k: Kind, v: Value<Ranged>): seq<Record>
    requires FitsKind(k, v)
    decreases k, 0
  {
    match k
    case KString => [Delimited(num, v.text)]
    case KBytes => [Delimited(num, v.text)]
    case KMessage(sub) => [Delimited(num, Encode(sub, v.msg))]
    case KStrings => TextRecords(num, v.texts)
    case KMessages(sub) => MessageRecords(num, sub, v.msgs)
    case KStringMap => EntryRecords(num, v.entries)
    case _ => [Record(num, VARINT, EncodeVarint(Widen(v.n)))]
  }

  function TextRecords(num: nat, ts: seq<seq<Byte>>): seq<Record> {
    if ts == [] then [] else TextRecords(num, ts[..|ts| - 1]) + [Delimited(num, ts[|ts| - 1])]
  }

  function MessageRecords(num: nat, sub: Schema, ms: seq<Message<Ranged>>): seq<Record>
    requires forall i | 0 <= i < |ms| :: Fits(sub, ms[i])
    decreases sub, 3, |ms|
  {
    if ms == [] then []
    else MessageRecords(num, sub, ms[..|ms| - 1]) + [Delimited(num, Encode(sub, ms[|ms| - 1]))]
  }

  /** A map entry is a message with the key in field 1 and the value in field 2, always both. */
  function EntryBytes(e: Entry): seq<Byte> {
    Emit([Delimited(1, e.key), Delimited(2, e.value)])
  }

  function EntryRecords(num: nat, es: Ranged): seq<Record> {
    if es == [] then [] else EntryRecords(num, es[..|es| - 1]) + [Delimited(num, EntryBytes(es[|es| - 1]))]
  }

  /** The records of the fields of s, a schema or the rest of one. */
  function KnownRecords(s: Schema, m: Message<Ranged>): seq<Record>
    requires forall i | 0 <= i < |s| && s[i].num in m.fields :: FitsKind(s[i].kind, m.fields[s[i].num])
    decreases s, 0
  {
    if s == [] then []
    else
      (if s[0].num in m.fields then FieldRecords(s[0].num, s[0].kind, m.fields[s[0].num]) else [])
      + KnownRecords(s[1..], m)
  }

  function Records(s: Schema, m: Message<Ranged>): seq<Record>
    requires Fits(s, m)
    decreases s, 1
  {
    KnownRecords(s, m) + m.unknown
  }

  function Encode(s: Schema, m: Message<Ranged>): seq<Byte>
    requires Fits(s, m)
    decreases s, 2
  {
    Emit(Records(s, m))
  }

  /** proto.Marshal: an error for a string that is not UTF-8; the result is a Go slice. */
  function Marshal(s: Schema, m: Message<Ranged>): Option<seq<Byte>>
    requires Fits(s, m)
  {
    if Clean(s, m) && |Encode(s, m)| <= MAX_SLICE then Some(Encode(s, m)) else None
  }

  /* ---- Decoding ---- */

  /** What the kind keeps of a varint of 64 bits. */
  function Narrow(k: Kind, v: nat): int
    requires WireOf(k) == VARINT
  {
    match k
    case KBool => if v == 0 then 0 else 1
    case KUint32 => v % TWO32
    case KInt32 => if v % TWO32 < TWO31 then v % TWO32 else v % TWO32 - TWO32
  }

  const ENTRY: Schema := [Field(1, "key", KString), Field(2, "value", KString)]

  function Empty(): Message<Settled> {
    Message(map[], [])
  }

  function TextAt(m: Message<Settled>, num: nat): seq<Byte> {
    if num in m.fields && m.fields[num].Text? then m.fields[num].text else []
  }

  function SetField(m: Message<Settled>, num: nat, v: Option<Value<Settled>>): Message<Settled> {
    m.(fields := if v.Some? then m.fields[num := v.value] else m.fields - {num})
  }

  function FieldAt(m: Message<Settled>, num: nat): Option<Value<Settled>> {
    if num in m.fields then Some(m.fields[num]) else None
  }

  /** The value of a field after one more record of it, None for the default; or no message at all. */
  function Merge(k: Kind, was: Option<Value<Settled>>, r: Record): Option<Option<Value<Settled>>>
    requires ValidRecord(r) && WireOf(k) == r.wire
    decreases |r.raw|, 3
  {
    match k
    case KString =>
      var t := Payload(r);
      if !ValidUtf8(t) then None else Some(if t == [] then None else Some(Text(t)))
    case KBytes =>
      var t := Payload(r);
      Some(if t == [] then None else Some(Text(t)))
    case KMessage(sub) =>
      var m :- Decode(sub, if was.Some? && was.value.Sub? then was.value.msg else Empty(), Payload(r));
      Some(Some(Sub(m)))
    case KStrings =>
      var t := Payload(r);
      if !ValidUtf8(t) then None
      else Some(Some(Texts((if was.Some? && was.value.Texts? then was.value.texts else []) + [t])))
    case KMessages(sub) =>
      var m :- Decode(sub, Empty(), Payload(r));
      Some(Some(Subs((if was.Some? && was.value.Subs? then was.value.msgs else []) + [m])))
    case KStringMap =>
      var e :- Decode(ENTRY, Empty(), Payload(r));
      var entries := if was.Some? && was.value.Entries? then was.value.entries else map[];
      Some(Some(Entries(entries[TextAt(e, 1) := TextAt(e, 2)])))
    case _ =>
      var n := Narrow(k, DecodeVarint(r.raw).value.value);
      Some(if n == 0 then None else Some(Number(n)))
  }

  function Apply(s: Schema, m: Message<Settled>, r: Record): Option<Message<Settled>>
    requires ValidRecord(r)
    decreases 1 + |r.raw|, 0
  {
    if !Known(s, r) then Some(m.(unknown := m.unknown + [r]))
    else
      var v :- Merge(KindOf(s, r.num).value, FieldAt(m, r.num), r);
      Some(SetField(m, r.num, v))
  }

  function Fold(s: Schema, m: Message<Settled>, rs: seq<Record>): Option<Message<Settled>>
    requires ValidRecords(rs)
    decreases Size(rs), 1
  {
    if rs == [] then Some(m)
    else
      var m1 :- Apply(s, m, rs[0]);
      Fold(s, m1, rs[1..])
  }

  /** Decodes the bytes into the message, as proto.Unmarshal does into an empty one. */
  function Decode(s: Schema, m: Message<Settled>, bs: seq<Byte>): Option<Message<Settled>>
    decreases |bs|, 2
  {
    var rs :- Parse(bs);
    Fold(s, m, rs)
  }
}
