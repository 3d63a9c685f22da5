/**
 * The CA service forwards a public request to the backend as its copy: the encoding of the public
 * request is decoded as the privpb.Backend request, and the org is set to the org of the caller.
 */
module Forward {
  import opened Options
  import opened Wire
  import opened Utf8
  import opened Codec
  import opened CodecFormat
  import CodecOrder
  import opened CodecRoundTrip
  import opened CodecSound
  import opened Requests

  datatype Outcome =
    | Copied(msg: Message<Settled>)
    | EncodeError
    | DecodeError
    | NoOrgField

  function NumberOf(s: Schema, name: string): Option<nat> {
    if s == [] then None
    else if s[0].name == name then Some(s[0].num)
    else NumberOf(s[1..], name)
  }

  /** The number of the first field with the name, if there is one. */
  lemma {:induction false} NumberOfExact(s: Schema, name: string)
    ensures NumberOf(s, name).None? <==> forall i | 0 <= i < |s| :: s[i].name != name
    ensures NumberOf(s, name).Some? ==>
              exists i | 0 <= i < |s| ::
                s[i].name == name && s[i].num == NumberOf(s, name).value && forall j | 0 <= j < i :: s[j].name != name
  {
    if s != [] && s[0].name != name {
      NumberOfExact(s[1..], name);
      assert forall i | 0 < i < |s| :: s[i] == s[1..][i - 1];
      if NumberOf(s, name).Some? {
        var i :| 0 <= i < |s[1..]| && s[1..][i].name == name && s[1..][i].num == NumberOf(s, name).value &&
                 forall j | 0 <= j < i :: s[1..][j].name != name;
        assert s[i + 1].name == name && forall j | 0 <= j < i + 1 :: s[j].name != name;
      } else {
        forall i | 0 <= i < |s| ensures s[i].name != name {
          assert i > 0 ==> s[i] == s[1..][i - 1];
        }
      }
    }
  }

  /** A string field set to the empty string has its default value. */
  function StringValue(t: seq<Byte>): Option<Value<Settled>> {
    if t == [] then None else Some(Text(t))
  }

  function Counterpart(backend: Schema, public: Schema, req: Message<Ranged>, orgID: seq<Byte>): Outcome
    requires Fits(public, req)
  {
    var data := Marshal(public, req);
    if data.None? then EncodeError
    else
      var preq := Decode(backend, Empty(), data.value);
      if preq.None? then DecodeError
      else
        var fd := NumberOf(backend, "OrgID");
        if fd.None? then NoOrgField
        else Copied(SetField(preq.value, fd.value, StringValue(orgID)).(unknown := []))
  }

  /* ---- What the copy knows and the public request does not ---- */

  /** The backend schema takes the record for the org. */
  predicate NamesOrg(r: Record) {
    r.num == ORG_ID.num && r.wire == LEN
  }

  /** The backend schema takes the record for the org and refuses it. */
  predicate BadOrg(r: Record)
    requires ValidRecord(r)
  {
    NamesOrg(r) && !ValidUtf8(Payload(r))
  }

  lemma {:induction false} NoFieldBelow(s: Schema, num: nat)
    requires forall i | 0 <= i < |s| :: num < s[i].num
    ensures KindOf(s, num) == None
  {
    if s != [] {
      NoFieldBelow(s[1..], num);
    }
  }

  lemma RestValid(s: Schema)
    requires s != [] && ValidSchema(s)
    ensures ValidSchema(s[1..])
  {
    assert Numbered(s[1..]);
    assert KindsValid(s[1..]) by {
      forall i | 0 <= i < |s[1..]| ensures ValidKind(s[1..][i].kind) {
        assert s[1..][i] == s[i + 1];
      }
    }
  }

  lemma CopyKinds(backend: Schema, public: Schema)
    requires IsCopy(backend, public)
    ensures ValidSchema(public) && Extends(backend, public)
    ensures KindOf(public, ORG_ID.num) == None && KindOf(backend, ORG_ID.num) == Some(KString)
    ensures forall num | num != ORG_ID.num :: KindOf(backend, num) == KindOf(public, num)
  {
    assert backend[0] == ORG_ID && backend[1..] == public;
    RestValid(backend);
    forall i | 0 <= i < |public| ensures public[i] == backend[i + 1] && ORG_ID.num < public[i].num {
      Ascending(backend, 0, i + 1);
    }
    NoFieldBelow(public, ORG_ID.num);
  }

  lemma CopyKnows(backend: Schema, public: Schema, r: Record)
    requires IsCopy(backend, public)
    ensures Known(backend, r) <==> Known(public, r) || NamesOrg(r)
    ensures Known(public, r) ==> !NamesOrg(r)
  {
    CopyKinds(backend, public);
  }

  lemma UnknownRecordAsCopy(backend: Schema, public: Schema, m: Message<Settled>, r: Record)
    requires IsCopy(backend, public) && ValidRecord(r) && !Known(public, r)
    ensures Apply(backend, m, r).Some? <==> !BadOrg(r)
    ensures Apply(backend, m, r).Some? ==> Apply(backend, m, r).value.fields - {ORG_ID.num} == m.fields - {ORG_ID.num}
  {
    hide ValidRecord, KindOf;
    CopyKnows(backend, public, r);
    CopyKinds(backend, public);
    if NamesOrg(r) {
      assert Merge(KString, FieldAt(m, r.num), r).Some? <==> ValidUtf8(Payload(r));
    }
  }

  /** The records the public schema does not know can change the org of the copy, or be refused. */
  lemma {:induction false} UnknownAsCopy(backend: Schema, public: Schema, m: Message<Settled>, rs: seq<Record>)
    requires IsCopy(backend, public) && ValidRecords(rs) && forall r | r in rs :: !Known(public, r)
    ensures Fold(backend, m, rs).Some? <==> forall r | r in rs :: !BadOrg(r)
    ensures Fold(backend, m, rs).Some? ==> Fold(backend, m, rs).value.fields - {ORG_ID.num} == m.fields - {ORG_ID.num}
    decreases |rs|
  {
    if rs != [] {
      hide Apply, BadOrg, ValidRecord;
      var r := rs[0];
      UnknownRecordAsCopy(backend, public, m, r);
      var m1 := Apply(backend, m, r);
      if m1.Some? {
        UnknownAsCopy(backend, public, m1.value, rs[1..]);
      }
    }
  }

  /* ---- The copy ---- */

  /** The fields with the org in field 1. */
  function WithOrg(fields: map<nat, Value<Settled>>, orgID: seq<Byte>): map<nat, Value<Settled>> {
    if orgID == [] then fields - {ORG_ID.num} else fields[ORG_ID.num := Text(orgID)]
  }

  lemma SetOrg(m: Message<Settled>, fields: map<nat, Value<Settled>>, orgID: seq<Byte>)
    requires m.fields - {ORG_ID.num} == fields - {ORG_ID.num}
    ensures SetField(m, ORG_ID.num, StringValue(orgID)).fields == WithOrg(fields, orgID)
  {
    var left, right := SetField(m, ORG_ID.num, StringValue(orgID)).fields, WithOrg(fields, orgID);
    forall num ensures (num in left <==> num in right) && (num in left ==> left[num] == right[num]) {
      assert num in m.fields - {ORG_ID.num} <==> num in fields - {ORG_ID.num};
    }
  }

  lemma CopyDecodes(backend: Schema, public: Schema, req: Message<Ranged>)
    requires IsCopy(backend, public) && Fits(public, req) && Marshal(public, req).Some?
    ensures var m := Decode(backend, Empty(), Encode(public, req));
            && (m.Some? <==> forall u | u in req.unknown :: !BadOrg(u))
            && (m.Some? ==> m.value.fields - {ORG_ID.num} == Settle(req).fields - {ORG_ID.num})
  {
    hide Decode, Encode, Settle, KindOf, BadOrg;
    CopyKinds(backend, public);
    DecodeExtended(backend, public, req);
    UnknownAsCopy(backend, public, Message(Settle(req).fields, []), req.unknown);
  }

  /** Read as the backend request, a request without unknown fields has its own fields and no org. */
  lemma ReadAsBackend(r: Request, req: Message<Ranged>)
    requires Fits(Public(r), req) && Marshal(Public(r), req).Some? && req.unknown == []
    ensures Decode(Backend(r), Empty(), Encode(Public(r), req)) == Some(Settle(req))
    ensures ORG_ID.num !in Settle(req).fields && KindOf(Backend(r), ORG_ID.num) == Some(KString)
  {
    hide Public, Backend, Encode, Decode, KindOf;
    Copies(r);
    CopyKinds(Backend(r), Public(r));
    DecodeExtended(Backend(r), Public(r), req);
  }

  /** The record is an org in field 1 that is not text. */
  ghost predicate OrgNotText(u: Record)
    requires ValidRecord(u)
  {
    u.num == 1 && u.wire == 2 && !IsText(Payload(u))
  }

  /** The message has the org in field 1, or nothing for an empty one, the other fields and no unknown ones. */
  ghost predicate IsCopyOf(copy: Message<Settled>, fields: map<nat, Value<Settled>>, orgID: seq<Byte>) {
    && copy.unknown == []
    && (if orgID == [] then 1 !in copy.fields else 1 in copy.fields && copy.fields[1] == Text(orgID))
    && (forall num | num != 1 :: num in copy.fields <==> num in fields)
    && (forall num | num != 1 && num in copy.fields :: copy.fields[num] == fields[num])
  }

  lemma BadOrgExact(u: Record)
    requires ValidRecord(u)
    ensures BadOrg(u) <==> OrgNotText(u)
  {
    hide ValidRecord, ValidUtf8, IsText;
    if NamesOrg(u) {
      Utf8Exact(Payload(u));
    }
  }

  lemma WithOrgIsCopy(fields: map<nat, Value<Settled>>, orgID: seq<Byte>)
    ensures IsCopyOf(Message(WithOrg(fields, orgID), []), fields, orgID)
  {
  }

  /**
   * The copy has every field of the request and the org of the caller, whatever the caller wrote
   * in field 1, and no unknown fields. It fails only for a string of the request that is not the
   * encoding of characters, a request too long, and an org in field 1 that is not such an encoding.
   */
  lemma CounterpartExact(r: Request, req: Message<Ranged>, orgID: seq<Byte>)
    requires Fits(Public(r), req)
    ensures var c := Counterpart(Backend(r), Public(r), req, orgID);
            && (c.EncodeError? <==>
                  !AllText(Public(r), req) || |Encode(Public(r), req)| > 9223372036854775807)
            && (c.DecodeError? <==> !c.EncodeError? && exists u | u in req.unknown :: OrgNotText(u))
            && !c.NoOrgField?
            && (c.Copied? ==> IsCopyOf(c.msg, Settle(req).fields, orgID))
  {
    hide Public, Backend, Counterpart, Encode, Settle, BadOrg, OrgNotText;
    hide Clean, AllText, WithOrg, IsCopyOf, ValidRecord;
    Copies(r);
    CopyExact(Backend(r), Public(r), req, orgID);
    CleanExact(Public(r), req);
    WithOrgIsCopy(Settle(req).fields, orgID);
    forall u | u in req.unknown ensures BadOrg(u) <==> OrgNotText(u) {
      BadOrgExact(u);
    }
  }

  lemma CopyExact(backend: Schema, public: Schema, req: Message<Ranged>, orgID: seq<Byte>)
    requires IsCopy(backend, public) && Fits(public, req)
    ensures var c := Counterpart(backend, public, req, orgID);
            && (c.EncodeError? <==> Marshal(public, req).None?)
            && (c.DecodeError? <==> Marshal(public, req).Some? && exists u | u in req.unknown :: BadOrg(u))
            && !c.NoOrgField?
            && (c.Copied? ==> c.msg == Message(WithOrg(Settle(req).fields, orgID), []))
  {
    hide Decode, Encode, Settle, KindOf, BadOrg;
    assert NumberOf(backend, "OrgID") == Some(ORG_ID.num);
    if Marshal(public, req).Some? {
      CopyDecodes(backend, public, req);
      var m := Decode(backend, Empty(), Encode(public, req));
      if m.Some? {
        SetOrg(m.value, Settle(req).fields, orgID);
      }
    }
  }

  /** What becomes of the message m the caller sent, ranged over as req. */
  ghost predicate Forwards(r: Request, m: Message<Settled>, req: Message<Ranged>, orgID: seq<Byte>)
    requires Fits(Public(r), req) && forall u | u in m.unknown :: ValidRecord(u)
  {
    var c := Counterpart(Backend(r), Public(r), req, orgID);
    && (c.EncodeError? <==> |Encode(Public(r), req)| > 9223372036854775807)
    && (!c.EncodeError? ==> (c.DecodeError? <==> exists u | u in m.unknown :: OrgNotText(u)))
    && (c.Copied? ==> IsCopyOf(c.msg, m.fields, orgID))
    && (c.Copied? || c.EncodeError? || c.DecodeError?)
  }

  lemma ForwardsDecoded(r: Request, bs: seq<Byte>, req: Message<Ranged>, orgID: seq<Byte>)
    requires Decode(Public(r), Empty(), bs) == Some(Settle(req)) && RangesOnce(req)
    ensures Fits(Public(r), req) && Clean(Public(r), req)
    ensures (CodecOrder.SettleUnknown(req); Forwards(r, Settle(req), req, orgID))
  {
    hide Public, Backend, Decode, Encode, Counterpart, Settle, OrgNotText, IsCopyOf, Clean, AllText;
    Copies(r);
    CopyKinds(Backend(r), Public(r));
    EmptySound(Public(r));
    DecodeSound(Public(r), Empty(), bs);
    FitsFromSound(Public(r), req);
    CleanExact(Public(r), req);
    CodecOrder.SettleUnknown(req);
    CounterpartExact(r, req, orgID);
  }

  /**
   * From the bytes of the caller to the copy: whatever bytes the service decoded as the request,
   * the message can be ranged over and, in any such order, the copy has the fields that were
   * decoded and the org of the caller.
   */
  lemma ForwardsAnyBytes(r: Request, bs: seq<Byte>, orgID: seq<Byte>)
    requires Decode(Public(r), Empty(), bs).Some?
    ensures var m := Decode(Public(r), Empty(), bs).value;
            && (forall u | u in m.unknown :: ValidRecord(u))
            && (exists req :: Settle(req) == m && RangesOnce(req))
            && (forall req | Settle(req) == m && RangesOnce(req) ::
                  Fits(Public(r), req) && Clean(Public(r), req) && Forwards(r, m, req, orgID))
  {
    hide Public, Backend, Decode, Encode, Counterpart, Settle, OrgNotText, Forwards;
    var m := Decode(Public(r), Empty(), bs).value;
    RangeSettles(m);
    ForwardsDecoded(r, bs, RangeMessage(m), orgID);
    CodecOrder.SettleUnknown(RangeMessage(m));
    forall req | Settle(req) == m && RangesOnce(req)
      ensures Fits(Public(r), req) && Clean(Public(r), req) && Forwards(r, m, req, orgID)
    {
      ForwardsDecoded(r, bs, req, orgID);
    }
  }

  /** The copy can be sent: it is a sound backend request, if the org of the caller is UTF-8. */
  lemma CopySound(r: Request, req: Message<Ranged>, orgID: seq<Byte>)
    requires Fits(Public(r), req) && ValidUtf8(orgID)
    ensures var c := Counterpart(Backend(r), Public(r), req, orgID); c.Copied? ==> Sound(Backend(r), c.msg)
  {
    hide Public, Backend, Decode, Encode, KindOf, ValidUtf8, Settle;
    Copies(r);
    CopyKinds(Backend(r), Public(r));
    var data := Marshal(Public(r), req);
    if data.Some? {
      EmptySound(Backend(r));
      DecodeSound(Backend(r), Empty(), data.value);
      assert NumberOf(Backend(r), "OrgID") == Some(ORG_ID.num);
      var m := Decode(Backend(r), Empty(), data.value);
      if m.Some? {
        SetSound(Backend(r), m.value, ORG_ID.num, StringValue(orgID));
      }
    }
  }

  /** The bytes of an org in field 1, as a caller of the public API can write them. */
  lemma OrgBytes(org: seq<Byte>)
    requires |org| < 0x80
    ensures Emit([Delimited(1, org)]) == [0x0A, |org| as Byte] + org
  {
    assert Emit([Delimited(1, org)]) == EmitRecord(Delimited(1, org)) + Emit([]);
  }

  /** The backend schema reads them as the org, the public one keeps them as an unknown field. */
  lemma WrittenOrg(r: Request, org: seq<Byte>)
    requires org != [] && ValidUtf8(org) && |org| <= MAX_SLICE
    ensures var rec := Delimited(1, org);
            && Decode(Backend(r), Empty(), Emit([rec])) == Some(Message(map[1 := Text(org)], []))
            && Decode(Public(r), Empty(), Emit([rec])) == Some(Message(map[], [rec]))
  {
    hide Public, Backend, KindOf, ValidUtf8, ValidRecord, Emit;
    var rec := Delimited(1, org);
    Copies(r);
    CopyKinds(Backend(r), Public(r));
    TextMerge(1, org, None);
    ParseEmit([rec]);
    FoldOne(Backend(r), Empty(), rec);
    UnknownFold(Public(r), Empty(), [rec]);
    assert [] + [rec] == [rec];
  }

  lemma {:induction false} NoFields(s: Schema, m: Message<Ranged>)
    requires m.fields == map[]
    ensures KnownRecords(s, m) == []
  {
    if s != [] {
      NoFields(s[1..], m);
    }
  }

  const BAD_ORG: Record := Record(1, LEN, [1, 0xFF])

  lemma BadOrgRecord()
    ensures ValidRecord(BAD_ORG) && BadOrg(BAD_ORG) && |Emit([BAD_ORG])| <= MAX_SLICE
  {
    assert ReadVarint([1, 0xFF]) == Some(Varint(1, 1));
    assert Payload(BAD_ORG) == [0xFF];
    assert Emit([BAD_ORG]) == EmitRecord(BAD_ORG) + Emit([]);
  }

  /** A caller that writes an org that is not UTF-8 in field 1 has every request refused. */
  lemma BadOrgRefused(r: Request, orgID: seq<Byte>)
    ensures var req := Message(map[], [BAD_ORG]);
            Fits(Public(r), req) && Counterpart(Backend(r), Public(r), req, orgID).DecodeError?
  {
    hide Public, Backend, ValidRecord, BadOrg, Counterpart;
    var req: Message<Ranged> := Message(map[], [BAD_ORG]);
    Copies(r);
    CopyKnows(Backend(r), Public(r), BAD_ORG);
    BadOrgRecord();
    assert Encode(Public(r), req) == Emit([BAD_ORG]) by {
      NoFields(Public(r), req);
      assert [] + [BAD_ORG] == [BAD_ORG];
    }
    CopyExact(Backend(r), Public(r), req, orgID);
    assert BAD_ORG in req.unknown;
  }

  /* ---- A backend request through the public schema ---- */

  /** The record of the org of a backend request, if it has one. */
  function OrgRecords(backend: Schema, public: Schema, req: Message<Ranged>): seq<Record>
    requires IsCopy(backend, public) && Fits(backend, req)
  {
    if ORG_ID.num !in req.fields then []
    else
      assert backend[0] == ORG_ID;
      FieldRecords(ORG_ID.num, KString, req.fields[ORG_ID.num])
  }

  lemma CopyRecords(backend: Schema, public: Schema, req: Message<Ranged>)
    requires IsCopy(backend, public) && Fits(backend, req)
    ensures forall i | 0 <= i < |public| && public[i].num in req.fields ::
              FitsKind(public[i].kind, req.fields[public[i].num])
    ensures KnownRecords(backend, req) == OrgRecords(backend, public, req) + KnownRecords(public, req)
  {
    assert backend[0] == ORG_ID && backend[1..] == public;
    assert forall i | 0 <= i < |public| :: public[i] == backend[i + 1];
  }

  lemma OrgRecordsRead(backend: Schema, public: Schema, req: Message<Ranged>, m: Message<Settled>)
    requires IsCopy(backend, public) && Fits(backend, req) && Clean(backend, req)
    requires Small(OrgRecords(backend, public, req)) && ORG_ID.num !in m.fields
    ensures var rs := OrgRecords(backend, public, req);
            && ValidRecords(rs)
            && (forall r | r in rs :: !Known(public, r))
            && Fold(backend, m, rs) == Some(SetField(m, ORG_ID.num,
                 if ORG_ID.num in req.fields then Some(SettleValue(req.fields[ORG_ID.num])) else None))
  {
    CopyKinds(backend, public);
    assert backend[0] == ORG_ID;
    if ORG_ID.num in req.fields {
      FieldFold(backend, m, ORG_ID.num, KString, req.fields[ORG_ID.num]);
    } else {
      assert m.fields - {ORG_ID.num} == m.fields;
    }
  }

  /** The known part of a backend request under the public schema. */
  lemma PublicKnownRead(backend: Schema, public: Schema, req: Message<Ranged>, m: Message<Settled>)
    requires IsCopy(backend, public) && Fits(backend, req) && Clean(backend, req)
    requires Small(KnownRecords(backend, req)) && m.fields == map[]
    ensures (CopyRecords(backend, public, req);
             var rs := KnownRecords(public, req);
             ValidRecords(rs) && Fold(public, m, rs) == Some(m.(fields := Settle(req).fields - {ORG_ID.num})))
  {
    CopyRecords(backend, public, req);
    PublicFields(backend, public, req);
    hide IsCopy, Fits, Clean, ValidRecord, FitsKind, CleanKind, FieldRecords, SettleValue, Apply, Fold, Part, Settle;
    KnownFold(public, public, m, req);
    PublicPart(backend, public, req);
    assert m.fields + Part(public, req) == Part(public, req);
  }

  /** The fields of a backend request that the public one has, as the public one has them. */
  lemma PublicFields(backend: Schema, public: Schema, req: Message<Ranged>)
    requires IsCopy(backend, public) && Fits(backend, req) && Clean(backend, req)
    ensures ValidSchema(public)
    ensures forall i | 0 <= i < |public| :: KindOf(public, public[i].num) == Some(public[i].kind)
    ensures forall i | 0 <= i < |public| && public[i].num in req.fields ::
              && FitsKind(public[i].kind, req.fields[public[i].num])
              && CleanKind(public[i].kind, req.fields[public[i].num])
  {
    hide ValidRecord, FitsKind, CleanKind;
    CopyKinds(backend, public);
    forall i | 0 <= i < |public|
      ensures public[i] == backend[i + 1] && KindOf(public, public[i].num) == Some(public[i].kind)
    {
      KindOfAt(public, i);
    }
  }

  lemma PublicPart(backend: Schema, public: Schema, req: Message<Ranged>)
    requires IsCopy(backend, public) && Fits(backend, req)
    ensures Part(public, req) == Settle(req).fields - {ORG_ID.num}
  {
    hide ValidRecord, FitsKind, SettleValue;
    CopyKinds(backend, public);
  }

  /** Decoded as the public request, a backend request keeps its org as an unknown field. */
  lemma PublicReads(backend: Schema, public: Schema, req: Message<Ranged>)
    requires IsCopy(backend, public) && Fits(backend, req) && Marshal(backend, req).Some?
    ensures Decode(public, Empty(), Encode(backend, req)) ==
            Some(Message(Settle(req).fields - {ORG_ID.num}, OrgRecords(backend, public, req) + req.unknown))
  {
    hide KindOf, ValidRecord, FitsKind, CleanKind, Fold;
    var org, all := OrgRecords(backend, public, req), Records(backend, req);
    CopyRecords(backend, public, req);
    var known := KnownRecords(public, req);
    Assoc(org, known, req.unknown);
    SmallRecords(all);
    OrgRecordsRead(backend, public, req, Empty());
    UnknownFold(public, Empty(), org);
    var m1 := Empty().(unknown := Empty().unknown + org);
    assert m1.unknown == org;
    PublicKnownRead(backend, public, req, m1);
    forall r | r in req.unknown ensures !Known(public, r) {
      CopyKnows(backend, public, r);
    }
    FoldAppend(public, m1, known, req.unknown);
    UnknownFold(public, m1.(fields := Settle(req).fields - {ORG_ID.num}), req.unknown);
    FoldAppend(public, Empty(), org, known + req.unknown);
    ParseEmit(all);
  }

  /** The public message the backend request was decoded as, encoded and decoded again. */
  lemma PublicReturns(backend: Schema, public: Schema, req: Message<Ranged>, b: Message<Ranged>)
    requires IsCopy(backend, public) && Fits(backend, req) && Marshal(backend, req).Some?
    requires Fits(public, b) && Marshal(public, b).Some?
    requires Some(Settle(b)) == Decode(public, Empty(), Encode(backend, req))
    ensures Decode(backend, Empty(), Encode(public, b)) == Some(Settle(req))
  {
    hide Marshal, Encode, Decode, KindOf;
    PublicReads(backend, public, req);
    CopyKinds(backend, public);
    var org := OrgRecords(backend, public, req);
    assert && Clean(backend, req) && |Encode(backend, req)| <= MAX_SLICE
           && Clean(public, b) && |Encode(public, b)| <= MAX_SLICE by {
      MarshalFits(backend, req);
      MarshalFits(public, b);
    }
    DecodeExtended(backend, public, b);
    OrgSmall(backend, public, req);
    var m := Message(Settle(b).fields, []);
    OrgRecordsRead(backend, public, req, m);
    FoldAppend(backend, m, org, req.unknown);
    var m1 := Fold(backend, m, org).value;
    PutBack(Settle(req).fields, m, ORG_ID.num);
    UnknownFold(backend, m1, req.unknown);
    assert m1.unknown + req.unknown == req.unknown;
  }

  lemma PutBack(fields: map<nat, Value<Settled>>, m: Message<Settled>, num: nat)
    requires m.fields == fields - {num}
    ensures SetField(m, num, if num in fields then Some(fields[num]) else None).fields == fields
  {
  }

  lemma MarshalFits(s: Schema, m: Message<Ranged>)
    requires Fits(s, m) && Marshal(s, m).Some?
    ensures Clean(s, m) && |Encode(s, m)| <= MAX_SLICE
  {
  }

  lemma OrgSmall(backend: Schema, public: Schema, req: Message<Ranged>)
    requires IsCopy(backend, public) && Fits(backend, req) && |Encode(backend, req)| <= MAX_SLICE
    ensures Small(OrgRecords(backend, public, req))
  {
    CopyRecords(backend, public, req);
    SmallRecords(Records(backend, req));
  }

  /** There is such a public message: the request without the org, which is an unknown field. */
  lemma PublicExists(backend: Schema, public: Schema, req: Message<Ranged>)
    requires IsCopy(backend, public) && Fits(backend, req) && Marshal(backend, req).Some?
    ensures var b := Message(req.fields - {ORG_ID.num}, OrgRecords(backend, public, req) + req.unknown);
            && Fits(public, b) && Marshal(public, b).Some?
            && Some(Settle(b)) == Decode(public, Empty(), Encode(backend, req))
  {
    hide Marshal, Encode, Decode, Clean, KindOf, ValidRecord;
    var b := Message(req.fields - {ORG_ID.num}, OrgRecords(backend, public, req) + req.unknown);
    MarshalFits(backend, req);
    PublicReads(backend, public, req);
    OrgSmall(backend, public, req);
    OrgRecordsRead(backend, public, req, Empty());
    WithoutOrgFits(backend, public, req, b);
    SameSize(backend, public, req, b);
    FitsMarshal(public, b);
    assert Settle(b).fields == Settle(req).fields - {ORG_ID.num};
  }

  lemma FitsMarshal(s: Schema, m: Message<Ranged>)
    requires Fits(s, m) && Clean(s, m) && |Encode(s, m)| <= MAX_SLICE
    ensures Marshal(s, m).Some?
  {
  }

  /** The same records, in another order. */
  lemma SameSize(backend: Schema, public: Schema, req: Message<Ranged>, b: Message<Ranged>)
    requires IsCopy(backend, public) && Fits(backend, req) && Fits(public, b)
    requires b == Message(req.fields - {ORG_ID.num}, OrgRecords(backend, public, req) + req.unknown)
    ensures |Encode(public, b)| == |Encode(backend, req)|
  {
    hide Emit, FitsKind, FieldRecords;
    var org := OrgRecords(backend, public, req);
    CopyKinds(backend, public);
    CopyRecords(backend, public, req);
    forall i | 0 <= i < |public| ensures public[i].num != ORG_ID.num {
      KindOfAt(public, i);
    }
    SameKnownRecords(public, req, b);
    var known := KnownRecords(public, req);
    EmitAppend(known, org + req.unknown);
    EmitAppend(org, req.unknown);
    EmitAppend(org, known);
    EmitAppend(org + known, req.unknown);
  }

  lemma WithoutOrgFits(backend: Schema, public: Schema, req: Message<Ranged>, b: Message<Ranged>)
    requires IsCopy(backend, public) && Fits(backend, req) && Clean(backend, req)
    requires b.fields == req.fields - {ORG_ID.num}
    requires forall r | r in b.unknown :: ValidRecord(r) && (r in req.unknown || !Known(public, r))
    ensures Fits(public, b) && Clean(public, b)
  {
    CopyKinds(backend, public);
    assert forall i | 0 <= i < |public| :: public[i] == backend[i + 1];
    forall r | r in b.unknown ensures !Known(public, r) {
      CopyKnows(backend, public, r);
    }
  }

  lemma {:induction false} SameKnownRecords(s: Schema, a: Message<Ranged>, b: Message<Ranged>)
    requires forall i | 0 <= i < |s| && s[i].num in a.fields :: FitsKind(s[i].kind, a.fields[s[i].num])
    requires forall i | 0 <= i < |s| :: (s[i].num in a.fields <==> s[i].num in b.fields)
    requires forall i | 0 <= i < |s| && s[i].num in a.fields :: a.fields[s[i].num] == b.fields[s[i].num]
    ensures KnownRecords(s, a) == KnownRecords(s, b)
  {
    if s != [] {
      SameKnownRecords(s[1..], a, b);
    }
  }

  /**
   * A backend request read as the public request keeps its org as an unknown field, and written
   * again and read as the backend request it is what it was.
   */
  lemma BackendRoundTrip(r: Request, req: Message<Ranged>)
    requires Fits(Backend(r), req) && Marshal(Backend(r), req).Some?
    ensures IsCopy(Backend(r), Public(r))
    ensures Decode(Public(r), Empty(), Encode(Backend(r), req)) ==
            Some(Message(Settle(req).fields - {ORG_ID.num}, OrgRecords(Backend(r), Public(r), req) + req.unknown))
    ensures exists b :: Fits(Public(r), b) && Marshal(Public(r), b).Some? &&
                        Some(Settle(b)) == Decode(Public(r), Empty(), Encode(Backend(r), req))
    ensures forall b | Fits(Public(r), b) && Marshal(Public(r), b).Some? &&
                       Some(Settle(b)) == Decode(Public(r), Empty(), Encode(Backend(r), req)) ::
              Decode(Backend(r), Empty(), Encode(Public(r), b)) == Some(Settle(req))
  {
    hide *;
    Copies(r);
    PublicReads(Backend(r), Public(r), req);
    PublicExists(Backend(r), Public(r), req);
    forall b | Fits(Public(r), b) && Marshal(Public(r), b).Some? &&
               Some(Settle(b)) == Decode(Public(r), Empty(), Encode(Backend(r), req))
      ensures Decode(Backend(r), Empty(), Encode(Public(r), b)) == Some(Settle(req))
    {
      PublicReturns(Backend(r), Public(r), req, b);
    }
  }
}
