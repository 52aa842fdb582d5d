/** errors.proto: evidence, resolved attributes and the error envelope. */
module Errors {
  import opened Seqs
  import opened Wire
  import opened Unknown
  import opened Codec
  import opened Refinement
  import opened Sizes
  import opened Schemas
  import opened Streams
  import opened Classes
  import opened Repeated
  import opened Common

  datatype EvidenceOneof =
    | EvidenceNone
    | StringValue(stringValue: seq<byte>)
    | IntValue(intValue: long)
    | UintValue(uintValue: ulong)
    | BoolValue(boolValue: bool)
    | AddressValue(addressValue: IPAddress)
    | PrefixValue(prefixValue: IPPrefix)
    | FamilyValue(familyValue: enum)
    | DurationMsValue(durationMsValue: ulong)

  datatype EvidenceCase =
    | EvidenceNoneCase
    | StringValueCase
    | IntValueCase
    | UintValueCase
    | BoolValueCase
    | AddressValueCase
    | PrefixValueCase
    | FamilyValueCase
    | DurationMsValueCase

  /** One item of evidence: a key, its classification and a value of one of eight kinds. */
  class Evidence {
    var key_: seq<byte>
    var classification_: enum
    var value_: EvidenceOneof
    var valueCase_: EvidenceCase
    var unknownFields: seq<Rec>
    ghost var Held: set<object>    // the sub-message held, with its own objects

    /** The case agrees with the boxed value. */
    ghost predicate ValueValid()
      reads this`value_, this`valueCase_, this`Held, Held
    {
      && (value_.EvidenceNone? <==> valueCase_.EvidenceNoneCase?)
      && (value_.StringValue? <==> valueCase_.StringValueCase?)
      && (value_.IntValue? <==> valueCase_.IntValueCase?)
      && (value_.UintValue? <==> valueCase_.UintValueCase?)
      && (value_.BoolValue? <==> valueCase_.BoolValueCase?)
      && (value_.AddressValue? <==> valueCase_.AddressValueCase?)
      && (value_.PrefixValue? <==> valueCase_.PrefixValueCase?)
      && (value_.FamilyValue? <==> valueCase_.FamilyValueCase?)
      && (value_.DurationMsValue? <==> valueCase_.DurationMsValueCase?)
      && (value_.AddressValue? ==>
            && value_.addressValue in Held
            && Held == {value_.addressValue} + value_.addressValue.Held
            && value_.addressValue.Valid())
      && (value_.PrefixValue? ==>
            && value_.prefixValue in Held
            && Held == {value_.prefixValue} + value_.prefixValue.Held
            && value_.prefixValue.Valid())
      && (value_.AddressValue? || value_.PrefixValue? || Held == {})
      && this !in Held
    }

    ghost function ValueContent(): (c: Cont)
      requires ValueValid()
      reads this`value_, this`valueCase_, this`Held, Held
      ensures CellOk(Alt(EVIDENCE_ARMS), c)
    {
      match value_
      case EvidenceNone => Unset
      case StringValue(v) => PickV(0, B(v))
      case IntValue(v) => PickV(1, N(v))
      case UintValue(v) => PickV(2, N(v))
      case BoolValue(v) => PickV(3, N(Bit(v)))
      case AddressValue(sub) => PickM(4, sub.Value())
      case PrefixValue(sub) => PickM(5, sub.Value())
      case FamilyValue(v) => PickV(6, N(v))
      case DurationMsValue(v) => PickV(7, N(v))
    }

    ghost predicate Valid()
      reads this, Held
      ensures Valid() ==> forall o: object :: o in Held ==>
              o is IPAddress || o is IPv4Address || o is IPv6Address || o is IPPrefix
    {
      ValueValid() && UnknownOk(EVIDENCE, unknownFields)
    }

    ghost function Value(): (m: Msg)
      requires Valid()
      reads this, Held
      ensures MsgOk(EVIDENCE, m)
    {
      Msg([V(B(key_)), V(N(classification_)), ValueContent()], unknownFields)
    }

    constructor ()
      ensures Valid() && fresh(Held) && Value() == Empty(EVIDENCE)
    {
      key_, classification_, value_, valueCase_ := [], 0, EvidenceNone, EvidenceNoneCase;
      unknownFields, Held := [], {};
    }

    /** Clone: the copy constructor. */
    constructor Clone(other: Evidence)
      requires other.Valid()
      ensures Valid() && fresh(Held) && Value() == other.Value()
    {
      key_, classification_, value_, valueCase_ := other.key_, other.classification_, EvidenceNone,
        EvidenceNoneCase;
      unknownFields, Held := other.unknownFields, {};
      new;
      hide MsgOk, UnknownOk, IPAddress.Valid, IPPrefix.Valid, IPAddress.Value, IPPrefix.Value;
      CopyValue(other);
    }

    method SetStringValue(stringValue: seq<byte>)
      modifies this`value_, this`valueCase_, this`Held
      ensures value_ == StringValue(stringValue) && valueCase_ == StringValueCase && Held == {}
    {
      value_, valueCase_, Held := StringValue(stringValue), StringValueCase, {};
    }

    method SetIntValue(intValue: long)
      modifies this`value_, this`valueCase_, this`Held
      ensures value_ == IntValue(intValue) && valueCase_ == IntValueCase && Held == {}
    {
      value_, valueCase_, Held := IntValue(intValue), IntValueCase, {};
    }

    method SetUintValue(uintValue: ulong)
      modifies this`value_, this`valueCase_, this`Held
      ensures value_ == UintValue(uintValue) && valueCase_ == UintValueCase && Held == {}
    {
      value_, valueCase_, Held := UintValue(uintValue), UintValueCase, {};
    }

    method SetBoolValue(boolValue: bool)
      modifies this`value_, this`valueCase_, this`Held
      ensures value_ == BoolValue(boolValue) && valueCase_ == BoolValueCase && Held == {}
    {
      value_, valueCase_, Held := BoolValue(boolValue), BoolValueCase, {};
    }

    method SetAddressValue(addressValue: IPAddress)
      modifies this`value_, this`valueCase_, this`Held
      ensures value_ == AddressValue(addressValue) && valueCase_ == AddressValueCase
        && Held == {addressValue} + addressValue.Held
    {
      value_, valueCase_, Held := AddressValue(addressValue), AddressValueCase, {addressValue} + addressValue.Held;
    }

    method SetPrefixValue(prefixValue: IPPrefix)
      modifies this`value_, this`valueCase_, this`Held
      ensures value_ == PrefixValue(prefixValue) && valueCase_ == PrefixValueCase
        && Held == {prefixValue} + prefixValue.Held
    {
      value_, valueCase_, Held := PrefixValue(prefixValue), PrefixValueCase, {prefixValue} + prefixValue.Held;
    }

    method SetFamilyValue(familyValue: enum)
      modifies this`value_, this`valueCase_, this`Held
      ensures value_ == FamilyValue(familyValue) && valueCase_ == FamilyValueCase && Held == {}
    {
      value_, valueCase_, Held := FamilyValue(familyValue), FamilyValueCase, {};
    }

    method SetDurationMsValue(durationMsValue: ulong)
      modifies this`value_, this`valueCase_, this`Held
      ensures value_ == DurationMsValue(durationMsValue) && valueCase_ == DurationMsValueCase && Held == {}
    {
      value_, valueCase_, Held := DurationMsValue(durationMsValue), DurationMsValueCase, {};
    }

    /** The switch of the copy constructor. */
    method CopyValue(other: Evidence)
      requires value_.EvidenceNone? && ValueValid() && other.ValueValid()
      modifies this`value_, this`valueCase_, this`Held
      ensures ValueValid() && fresh(Held) && ValueContent() == other.ValueContent()
    {
      hide MsgOk, UnknownOk, IPAddress.Valid, IPPrefix.Valid, IPAddress.Value, IPPrefix.Value;
      if other.valueCase_ == StringValueCase {
        SetStringValue(other.value_.stringValue);
      } else if other.valueCase_ == IntValueCase {
        SetIntValue(other.value_.intValue);
      } else if other.valueCase_ == UintValueCase {
        SetUintValue(other.value_.uintValue);
      } else if other.valueCase_ == BoolValueCase {
        SetBoolValue(other.value_.boolValue);
      } else if other.valueCase_ == AddressValueCase {
        var copy := new IPAddress.Clone(other.value_.addressValue);
        SetAddressValue(copy);
      } else if other.valueCase_ == PrefixValueCase {
        var copy := new IPPrefix.Clone(other.value_.prefixValue);
        SetPrefixValue(copy);
      } else if other.valueCase_ == FamilyValueCase {
        SetFamilyValue(other.value_.familyValue);
      } else if other.valueCase_ == DurationMsValueCase {
        SetDurationMsValue(other.value_.durationMsValue);
      }
    }

    method WriteTo(output: CodedOutputStream)
      requires Valid()
      modifies output
      ensures output.buf == old(output.buf) + Bytes(EVIDENCE, Value())
    {
      hide Upto, MsgOk, Bytes, PutRecs, PutVarint, ToWire, UnknownOk, IPAddress.Valid, IPPrefix.Valid,
        IPAddress.Value, IPPrefix.Value;
      ghost var s, v, base := EVIDENCE, Value(), output.buf;
      StartWrite(s, v, base);
      WriteBlob(output, 10, key_, s, v, 0, base);
      WriteNumber(output, 16, Enum, classification_, s, v, 1, base);
      WriteValue(output, s, v, base);
      ghost var done := output.buf;
      output.WriteUnknown(unknownFields);
      EndWrite(s, v, base, done, output.buf);
    }

    method WriteValue(output: CodedOutputStream, ghost s: Schema, ghost m: Msg, ghost base: seq<byte>)
      requires ValueValid() && MsgOk(s, m) && 2 < |s.cells| && s.cells[2] == Alt(EVIDENCE_ARMS)
      requires m.cells[2] == ValueContent() && Upto(s, m, 2, base, output.buf)
      modifies output
      ensures Upto(s, m, 3, base, output.buf)
    {
      hide Upto, MsgOk, Bytes, PutVarint, ToWire, UnknownOk, IPAddress.Valid, IPPrefix.Valid, IPAddress.Value,
        IPPrefix.Value;
      ghost var before := output.buf;
      if valueCase_ == StringValueCase {
        output.WriteRawTag(26);
        output.WriteBytes(value_.stringValue);
      } else if valueCase_ == IntValueCase {
        output.WriteRawTag(32);
        output.WriteInt64(value_.intValue);
      } else if valueCase_ == UintValueCase {
        output.WriteRawTag(40);
        output.WriteUInt64(value_.uintValue);
      } else if valueCase_ == BoolValueCase {
        output.WriteRawTag(48);
        output.WriteBool(value_.boolValue);
      } else if valueCase_ == AddressValueCase {
        WriteAddressValue(output);
      } else if valueCase_ == PrefixValueCase {
        WritePrefixValue(output);
      } else if valueCase_ == FamilyValueCase {
        output.WriteRawTag(72);
        output.WriteEnum(value_.familyValue);
      } else if valueCase_ == DurationMsValueCase {
        output.WriteRawTag(80);
        output.WriteUInt64(value_.durationMsValue);
      }
      AltWritten(s, m, 2, EVIDENCE_ARMS, base, before, output.buf);
    }

    method WriteAddressValue(output: CodedOutputStream)
      requires ValueValid() && value_.AddressValue?
      modifies output
      ensures output.buf == MessageBytes(7, Bytes(IP_ADDRESS, value_.addressValue.Value()), old(output.buf))
    {
      hide Bytes, PutVarint, MsgOk, IPAddress.Valid, IPPrefix.Valid, IPAddress.Value, IPPrefix.Value;
      ghost var before := output.buf;
      output.WriteRawTag(58);
      var size := value_.addressValue.CalculateSize();
      output.WriteVarint(size);
      value_.addressValue.WriteTo(output);
      LenWritten(before + PutVarint(58), Bytes(IP_ADDRESS, value_.addressValue.Value()));
    }

    method WritePrefixValue(output: CodedOutputStream)
      requires ValueValid() && value_.PrefixValue?
      modifies output
      ensures output.buf == MessageBytes(8, Bytes(IP_PREFIX, value_.prefixValue.Value()), old(output.buf))
    {
      hide Bytes, PutVarint, MsgOk, IPAddress.Valid, IPPrefix.Valid, IPAddress.Value, IPPrefix.Value;
      ghost var before := output.buf;
      output.WriteRawTag(66);
      var size := value_.prefixValue.CalculateSize();
      output.WriteVarint(size);
      value_.prefixValue.WriteTo(output);
      LenWritten(before + PutVarint(66), Bytes(IP_PREFIX, value_.prefixValue.Value()));
    }

    method CalculateSize() returns (size: nat)
      requires Valid()
      ensures size == |Bytes(EVIDENCE, Value())|
    {
      EvidenceWellFormed();
      hide MsgOk, Bytes, WellFormed, PrefixSize, VarintSize, UnknownOk, NumberSize, BlobSize, IPAddress.Valid,
        IPPrefix.Valid, IPAddress.Value, IPPrefix.Value;
      ghost var s, v := EVIDENCE, Value();
      size := 0;
      StartSize(s, v);
      size := size + BlobSize(key_);
      BlobSized(s, v, 0, 1, key_);
      size := size + NumberSize(Enum, classification_);
      NumberSized(s, v, 1, 2, Enum, classification_);
      var n := ValueSize();
      size := size + n;
      NextSize(s, v, 2);
      size := size + UnknownSize(unknownFields);
      SizeIsLength(s, v);
    }

    method ValueSize() returns (size: nat)
      requires ValueValid()
      ensures size == CellSize(Alt(EVIDENCE_ARMS), ValueContent())
    {
      EvidenceWellFormed();
      hide MsgOk, Bytes, WellFormed, VarintSize, IPAddress.Valid, IPPrefix.Valid, IPAddress.Value, IPPrefix.Value;
      size := 0;
      if valueCase_ == StringValueCase {
        size := size + 1 + ComputeBytesSize(value_.stringValue);
      } else if valueCase_ == IntValueCase {
        size := size + 1 + ComputeInt64Size(value_.intValue);
      } else if valueCase_ == UintValueCase {
        size := size + 1 + ComputeUIntSize(value_.uintValue);
      } else if valueCase_ == BoolValueCase {
        size := size + 1 + 1;
      } else if valueCase_ == AddressValueCase {
        var n := value_.addressValue.CalculateSize();
        SizeIsLength(IP_ADDRESS, value_.addressValue.Value());
        size := size + 1 + ComputeLengthSize(n);
      } else if valueCase_ == PrefixValueCase {
        var n := value_.prefixValue.CalculateSize();
        SizeIsLength(IP_PREFIX, value_.prefixValue.Value());
        size := size + 1 + ComputeLengthSize(n);
      } else if valueCase_ == FamilyValueCase {
        size := size + 1 + ComputeEnumSize(value_.familyValue);
      } else if valueCase_ == DurationMsValueCase {
        size := size + 1 + ComputeUIntSize(value_.durationMsValue);
      }
    }

    method MergeFrom(other: Evidence)
      requires Valid() && other.Valid()
      modifies this, Held
      ensures Valid() && fresh(Held - old(Held))
      ensures Value() == Merge(EVIDENCE, old(Value()), old(other.Value()))
    {
      hide MsgOk, Merge, Union, UnknownOk, MergedUpto, Newer, NewerBool, NewerBlob, Bit, CellMerge, CellOk,
        IPAddress.Valid, IPPrefix.Valid, IPAddress.Value, IPPrefix.Value;
      ghost var s, a, b := EVIDENCE, Value(), other.Value();
      UnionOk(s, unknownFields, other.unknownFields);
      MergePlain(other);
      MergeValue(other);
      ghost var v := Value();
      assert MergedUpto(s, a, b, v, 2) by {
        StartMerge(s, a, b, v);
        BlobMerged(s, a, b, v, 0, 1, old(key_), old(other.key_));
        NumberMerged(s, a, b, v, 1, 2, Enum, old(classification_), old(other.classification_));
      }
      assert MergedUpto(s, a, b, v, 3) by {
        AltMerged(s, a, b, v, 2, EVIDENCE_ARMS, old(ValueContent()), old(other.ValueContent()));
      }
      EndMerge(s, a, b, v);
    }

    /** The fields that are not sub-messages, and the unknown fields. */
    method MergePlain(other: Evidence)
      modifies this`key_, this`classification_, this`unknownFields
      ensures key_ == NewerBlob(old(key_), old(other.key_))
      ensures classification_ == Newer(old(classification_), old(other.classification_))
      ensures unknownFields == Union(old(unknownFields), old(other.unknownFields))
    {
      if |other.key_| != 0 { key_ := other.key_; }
      if other.classification_ != 0 { classification_ := other.classification_; }
      unknownFields := Union(unknownFields, other.unknownFields);
    }

    /** The switch of MergeFrom on the other object's oneof case. */
    method MergeValue(other: Evidence)
      requires ValueValid() && other.ValueValid()
      modifies this`value_, this`valueCase_, this`Held, Held
      ensures ValueValid() && fresh(Held - old(Held))
      ensures ValueContent() == CellMerge(Alt(EVIDENCE_ARMS), old(ValueContent()), old(other.ValueContent()))
    {
      hide MsgOk, Merge, UnknownOk, IPAddress.Valid, IPPrefix.Valid, IPAddress.Value, IPPrefix.Value;
      if other.valueCase_ == StringValueCase {
        SetStringValue(other.value_.stringValue);
      } else if other.valueCase_ == IntValueCase {
        SetIntValue(other.value_.intValue);
      } else if other.valueCase_ == UintValueCase {
        SetUintValue(other.value_.uintValue);
      } else if other.valueCase_ == BoolValueCase {
        SetBoolValue(other.value_.boolValue);
      } else if other.valueCase_ == AddressValueCase {
        MergeAddressValue(other.value_.addressValue);
      } else if other.valueCase_ == PrefixValueCase {
        MergePrefixValue(other.value_.prefixValue);
      } else if other.valueCase_ == FamilyValueCase {
        SetFamilyValue(other.value_.familyValue);
      } else if other.valueCase_ == DurationMsValueCase {
        SetDurationMsValue(other.value_.durationMsValue);
      }
    }

    method MergeAddressValue(sub: IPAddress)
      requires ValueValid() && sub.Valid()
      modifies this`value_, this`valueCase_, this`Held, Held
      ensures ValueValid() && fresh(Held - old(Held)) && value_.AddressValue?
      ensures value_.addressValue.Value() == Merge(IP_ADDRESS, ArmBase(EVIDENCE_ARMS, old(ValueContent()), 4),
        old(sub.Value()))
    {
      hide MsgOk, Merge, UnknownOk, IPAddress.Valid, IPPrefix.Valid, IPAddress.Value, IPPrefix.Value;
      var target := if valueCase_ == AddressValueCase then value_.addressValue else null;
      if target == null {
        target := new IPAddress();
      }
      target.MergeFrom(sub);
      SetAddressValue(target);
    }

    method MergePrefixValue(sub: IPPrefix)
      requires ValueValid() && sub.Valid()
      modifies this`value_, this`valueCase_, this`Held, Held
      ensures ValueValid() && fresh(Held - old(Held)) && value_.PrefixValue?
      ensures value_.prefixValue.Value() == Merge(IP_PREFIX, ArmBase(EVIDENCE_ARMS, old(ValueContent()), 5),
        old(sub.Value()))
    {
      hide MsgOk, Merge, UnknownOk, IPAddress.Valid, IPPrefix.Valid, IPAddress.Value, IPPrefix.Value;
      var target := if valueCase_ == PrefixValueCase then value_.prefixValue else null;
      if target == null {
        target := new IPPrefix();
      }
      target.MergeFrom(sub);
      SetPrefixValue(target);
    }

    method MergeFromStream(input: CodedInputStream) returns (r: Option<()>)
      requires Valid() && input.Valid()
      modifies this, Held, input`pos, input`limit
      ensures Valid() && input.Valid() && fresh(Held - old(Held))
      ensures r.None? ==> RunBytes(EVIDENCE, old(Value()), old(input.Rest())).None?
      ensures r.Some? ==> RunBytes(EVIDENCE, old(Value()), old(input.Rest())) == Some(Value())
      ensures r.Some? ==> input.Rest() == [] && input.limit == old(input.limit)
    {
      hide RunBytes, MsgOk, GetTag, GetBody, Rejects, Accepts, UnknownOk, IPAddress.Valid, IPPrefix.Valid,
        IPAddress.Value, IPPrefix.Value;
      ghost var s, start := EVIDENCE, RunBytes(EVIDENCE, Value(), input.Rest());
      while true
        invariant Valid() && input.Valid() && input.limit == old(input.limit)
        invariant fresh(Held - old(Held))
        invariant RunBytes(s, Value(), input.Rest()) == start
        decreases |input.Rest()|
      {
        ghost var b, m := input.Rest(), Value();
        PassTag(s, m, b);
        var tag :- input.ReadTag();
        if tag == 0 { break; }
        if tag % 8 == 4 { return None; }
        var ok := ReadField(tag, input);
        if ok.None? {
          PassRejected(s, m, b, GetTag(b).value);
          return None;
        }
        PassAccepted(s, m, b, GetTag(b).value, Value(), input.Rest());
      }
      return Some(());
    }

    /** The switch of the parse loop. */
    method ReadField(tag: nat, input: CodedInputStream) returns (r: Option<()>)
      requires Valid() && input.Valid() && 8 <= tag < TWO_32
      modifies this, Held, input`pos, input`limit
      ensures Valid() && input.Valid() && (r.Some? ==> input.limit == old(input.limit))
      ensures fresh(Held - old(Held))
      ensures r.None? ==> Rejects(EVIDENCE, old(Value()), tag, old(input.Rest()))
      ensures r.Some? ==> Accepts(EVIDENCE, old(Value()), tag, old(input.Rest()), Value(), input.Rest())
    {
      EvidenceWellFormed();
      hide Rejects, Accepts, MsgOk, WellFormed, GetLen, GetUInt64, GetBody, UnknownOk, Insert, Signed,
        RunBytes, SubBuilder, IPAddress.Valid, IPPrefix.Valid, IPAddress.Value, IPPrefix.Value;
      ghost var s, m, b := EVIDENCE, Value(), input.Rest();
      if tag == 10 {
        BlobRead(s, m, 0, 1, b);
        key_ :- input.ReadBytes();
        Updated(m, 0, Value());
        return Some(());
      } else if tag == 16 {
        NumberRead(s, m, 1, 2, Enum, b);
        classification_ :- input.ReadEnum();
        Updated(m, 1, Value());
        return Some(());
      } else {
        r := ReadField2(tag, input);
      }
    }

    /** The rest of the switch. */
    method ReadField2(tag: nat, input: CodedInputStream) returns (r: Option<()>)
      requires Valid() && input.Valid() && 8 <= tag < TWO_32
      requires tag !in {10, 16}
      modifies this, Held, input`pos, input`limit
      ensures Valid() && input.Valid() && (r.Some? ==> input.limit == old(input.limit))
      ensures fresh(Held - old(Held))
      ensures r.None? ==> Rejects(EVIDENCE, old(Value()), tag, old(input.Rest()))
      ensures r.Some? ==> Accepts(EVIDENCE, old(Value()), tag, old(input.Rest()), Value(), input.Rest())
    {
      EvidenceWellFormed();
      hide Rejects, Accepts, MsgOk, WellFormed, GetLen, GetUInt64, GetBody, UnknownOk, Insert, Signed,
        RunBytes, SubBuilder, IPAddress.Valid, IPPrefix.Valid, IPAddress.Value, IPPrefix.Value;
      ghost var s, m, b := EVIDENCE, Value(), input.Rest();
      if tag == 26 {
        ArmBlobRead(s, m, 2, EVIDENCE_ARMS, 0, 3, b);
        var v :- input.ReadBytes();
        SetStringValue(v);
        Updated(m, 2, Value());
        return Some(());
      } else if tag == 32 {
        ArmNumberRead(s, m, 2, EVIDENCE_ARMS, 1, 4, I64, b);
        var v :- input.ReadInt64();
        SetIntValue(v);
        Updated(m, 2, Value());
        return Some(());
      } else {
        r := ReadField3(tag, input);
      }
    }

    /** The rest of the switch. */
    method ReadField3(tag: nat, input: CodedInputStream) returns (r: Option<()>)
      requires Valid() && input.Valid() && 8 <= tag < TWO_32
      requires tag !in {10, 16, 26, 32}
      modifies this, Held, input`pos, input`limit
      ensures Valid() && input.Valid() && (r.Some? ==> input.limit == old(input.limit))
      ensures fresh(Held - old(Held))
      ensures r.None? ==> Rejects(EVIDENCE, old(Value()), tag, old(input.Rest()))
      ensures r.Some? ==> Accepts(EVIDENCE, old(Value()), tag, old(input.Rest()), Value(), input.Rest())
    {
      EvidenceWellFormed();
      hide Rejects, Accepts, MsgOk, WellFormed, GetLen, GetUInt64, GetBody, UnknownOk, Insert, Signed,
        RunBytes, SubBuilder, IPAddress.Valid, IPPrefix.Valid, IPAddress.Value, IPPrefix.Value;
      ghost var s, m, b := EVIDENCE, Value(), input.Rest();
      if tag == 40 {
        ArmNumberRead(s, m, 2, EVIDENCE_ARMS, 2, 5, U64, b);
        var v :- input.ReadUInt64();
        SetUintValue(v);
        Updated(m, 2, Value());
        return Some(());
      } else if tag == 48 {
        ArmNumberRead(s, m, 2, EVIDENCE_ARMS, 3, 6, Bool, b);
        var v :- input.ReadBool();
        SetBoolValue(v);
        Updated(m, 2, Value());
        return Some(());
      } else {
        r := ReadField4(tag, input);
      }
    }

    /** The rest of the switch. */
    method ReadField4(tag: nat, input: CodedInputStream) returns (r: Option<()>)
      requires Valid() && input.Valid() && 8 <= tag < TWO_32
      requires tag !in {10, 16, 26, 32, 40, 48}
      modifies this, Held, input`pos, input`limit
      ensures Valid() && input.Valid() && (r.Some? ==> input.limit == old(input.limit))
      ensures fresh(Held - old(Held))
      ensures r.None? ==> Rejects(EVIDENCE, old(Value()), tag, old(input.Rest()))
      ensures r.Some? ==> Accepts(EVIDENCE, old(Value()), tag, old(input.Rest()), Value(), input.Rest())
    {
      EvidenceWellFormed();
      hide Rejects, Accepts, MsgOk, WellFormed, GetLen, GetUInt64, GetBody, UnknownOk, Insert, Signed,
        RunBytes, SubBuilder, IPAddress.Valid, IPPrefix.Valid, IPAddress.Value, IPPrefix.Value;
      ghost var s, m, b := EVIDENCE, Value(), input.Rest();
      if tag == 58 {
        ArmMsgRead(s, m, 2, EVIDENCE_ARMS, 4, 7, IP_ADDRESS, b);
        var _ :- ReadAddressValue(input);
        Updated(m, 2, Value());
        return Some(());
      } else if tag == 66 {
        ArmMsgRead(s, m, 2, EVIDENCE_ARMS, 5, 8, IP_PREFIX, b);
        var _ :- ReadPrefixValue(input);
        Updated(m, 2, Value());
        return Some(());
      } else {
        r := ReadField5(tag, input);
      }
    }

    /** The rest of the switch. */
    method ReadField5(tag: nat, input: CodedInputStream) returns (r: Option<()>)
      requires Valid() && input.Valid() && 8 <= tag < TWO_32
      requires tag !in {10, 16, 26, 32, 40, 48, 58, 66}
      modifies this, Held, input`pos, input`limit
      ensures Valid() && input.Valid() && (r.Some? ==> input.limit == old(input.limit))
      ensures fresh(Held - old(Held))
      ensures r.None? ==> Rejects(EVIDENCE, old(Value()), tag, old(input.Rest()))
      ensures r.Some? ==> Accepts(EVIDENCE, old(Value()), tag, old(input.Rest()), Value(), input.Rest())
    {
      EvidenceWellFormed();
      hide Rejects, Accepts, MsgOk, WellFormed, GetLen, GetUInt64, GetBody, UnknownOk, Insert, Signed,
        RunBytes, SubBuilder, IPAddress.Valid, IPPrefix.Valid, IPAddress.Value, IPPrefix.Value;
      ghost var s, m, b := EVIDENCE, Value(), input.Rest();
      if tag == 72 {
        ArmNumberRead(s, m, 2, EVIDENCE_ARMS, 6, 9, Enum, b);
        var v :- input.ReadEnum();
        SetFamilyValue(v);
        Updated(m, 2, Value());
        return Some(());
      } else if tag == 80 {
        ArmNumberRead(s, m, 2, EVIDENCE_ARMS, 7, 10, U64, b);
        var v :- input.ReadUInt64();
        SetDurationMsValue(v);
        Updated(m, 2, Value());
        return Some(());
      } else {
        r := ReadUnknown(tag, input);
      }
    }

    /** The default label. */
    method ReadUnknown(tag: nat, input: CodedInputStream) returns (r: Option<()>)
      requires Valid() && input.Valid() && 8 <= tag < TWO_32
      requires tag !in {10, 16, 26, 32, 40, 48, 58, 66, 72, 80}
      modifies this, Held, input`pos, input`limit
      ensures Valid() && input.Valid() && (r.Some? ==> input.limit == old(input.limit))
      ensures fresh(Held - old(Held))
      ensures r.None? ==> Rejects(EVIDENCE, old(Value()), tag, old(input.Rest()))
      ensures r.Some? ==> Accepts(EVIDENCE, old(Value()), tag, old(input.Rest()), Value(), input.Rest())
    {
      EvidenceWellFormed();
      hide Rejects, Accepts, MsgOk, WellFormed, GetLen, GetUInt64, GetBody, UnknownOk, Insert, Signed,
        RunBytes, SubBuilder, NoLabel, IPAddress.Valid, IPPrefix.Valid, IPAddress.Value, IPPrefix.Value;
      ghost var s, m, b := EVIDENCE, Value(), input.Rest();
      Unlabelled(tag);
      DefaultRead(s, m, tag, b);
      var p :- input.ReadUnknown(tag);
      unknownFields := Insert(unknownFields, Rec(tag / 8, p));
      return Some(());
    }

    /** A tag that is none of the case labels. */
    static lemma Unlabelled(tag: nat)
      requires tag !in {10, 16, 26, 32, 40, 48, 58, 66, 72, 80}
      ensures |EVIDENCE.cells| <= 14 && NoLabel(EVIDENCE, tag)
    {
    }

    /** Parse a record of the oneof member into a fresh sub-builder, then install it. */
    method ReadAddressValue(input: CodedInputStream) returns (r: Option<()>)
      requires ValueValid() && input.Valid()
      modifies this`value_, this`valueCase_, this`Held, input`pos, input`limit
      ensures ValueValid() && input.Valid() && fresh(Held - old(Held))
      ensures r.Some? ==> input.limit == old(input.limit)
      ensures r.Some? ==> value_.AddressValue?
      ensures SubParsed(IP_ADDRESS, SubBuilder(EVIDENCE_ARMS, old(ValueContent()), 4), old(input.Rest()), r,
                        if r.None? then None else Some(value_.addressValue.Value()), input.Rest())
    {
      hide MsgOk, RunBytes, GetLen, Empty, Merge, IPAddress.Valid, IPPrefix.Valid, IPAddress.Value, IPPrefix.Value;
      var held := if valueCase_ == AddressValueCase then value_.addressValue else null;
      var subBuilder :- BuildAddressValue(held, input);
      SetAddressValue(subBuilder);
      return Some(());
    }

    /** Parse a record of the oneof member into a fresh sub-builder, then install it. */
    method ReadPrefixValue(input: CodedInputStream) returns (r: Option<()>)
      requires ValueValid() && input.Valid()
      modifies this`value_, this`valueCase_, this`Held, input`pos, input`limit
      ensures ValueValid() && input.Valid() && fresh(Held - old(Held))
      ensures r.Some? ==> input.limit == old(input.limit)
      ensures r.Some? ==> value_.PrefixValue?
      ensures SubParsed(IP_PREFIX, SubBuilder(EVIDENCE_ARMS, old(ValueContent()), 5), old(input.Rest()), r,
                        if r.None? then None else Some(value_.prefixValue.Value()), input.Rest())
    {
      hide MsgOk, RunBytes, GetLen, Empty, Merge, IPAddress.Valid, IPPrefix.Valid, IPAddress.Value, IPPrefix.Value;
      var held := if valueCase_ == PrefixValueCase then value_.prefixValue else null;
      var subBuilder :- BuildPrefixValue(held, input);
      SetPrefixValue(subBuilder);
      return Some(());
    }

    /** The sub-builder of a case label: new, merged from the member held, then parsed into. */
    static method BuildAddressValue(held: IPAddress?, input: CodedInputStream) returns (r: Option<IPAddress>)
      requires (held != null ==> held.Valid()) && input.Valid()
      modifies input`pos, input`limit
      ensures input.Valid() && (r.Some? ==> input.limit == old(input.limit))
      ensures r.Some? ==> r.value.Valid() && fresh({r.value} + r.value.Held)
      ensures SubParsed(IP_ADDRESS, Copied(IP_ADDRESS, if held == null then None else Some(old(held.Value()))),
                        old(input.Rest()), if r.None? then None else Some(()),
                        if r.None? then None else Some(r.value.Value()), input.Rest())
    {
      hide MsgOk, RunBytes, GetLen, Empty, Merge, IPAddress.Valid, IPPrefix.Valid, IPAddress.Value, IPPrefix.Value;
      var subBuilder := new IPAddress();
      if held != null { subBuilder.MergeFrom(held); }
      var outer :- input.PushLimit();
      var _ :- subBuilder.MergeFromStream(input);
      input.PopLimit(outer);
      return Some(subBuilder);
    }

    /** The sub-builder of a case label: new, merged from the member held, then parsed into. */
    static method BuildPrefixValue(held: IPPrefix?, input: CodedInputStream) returns (r: Option<IPPrefix>)
      requires (held != null ==> held.Valid()) && input.Valid()
      modifies input`pos, input`limit
      ensures input.Valid() && (r.Some? ==> input.limit == old(input.limit))
      ensures r.Some? ==> r.value.Valid() && fresh({r.value} + r.value.Held)
      ensures SubParsed(IP_PREFIX, Copied(IP_PREFIX, if held == null then None else Some(old(held.Value()))),
                        old(input.Rest()), if r.None? then None else Some(()),
                        if r.None? then None else Some(r.value.Value()), input.Rest())
    {
      hide MsgOk, RunBytes, GetLen, Empty, Merge, IPAddress.Valid, IPPrefix.Valid, IPAddress.Value, IPPrefix.Value;
      var subBuilder := new IPPrefix();
      if held != null { subBuilder.MergeFrom(held); }
      var outer :- input.PushLimit();
      var _ :- subBuilder.MergeFromStream(input);
      input.PopLimit(outer);
      return Some(subBuilder);
    }
  }

  /** RepeatedField of Evidence: a list object of element objects. */
  class EvidenceList {
    var items: seq<Evidence>
    ghost var Contents: seq<Msg>    // the values of the elements
    ghost var Below: set<object>    // the elements and the objects below them

    /** The element with all its objects is below the list, and its value is `m`. */
    ghost predicate Holds(e: Evidence, m: Msg)
      reads this`Below, Below
    {
      e in Below && e.Held <= Below && e.Valid() && e.Value() == m
    }

    ghost predicate Valid()
      reads this, Below
      ensures Valid() ==> ElementsOk(EVIDENCE, Contents)
      ensures Valid() ==> forall o: object :: o in Below ==>
              o is Evidence || o is IPAddress || o is IPv4Address || o is IPv6Address || o is IPPrefix
    {
      && |Contents| == |items|
      && (forall i :: 0 <= i < |items| ==> Holds(items[i], Contents[i]))
      && (forall o: object :: o in Below ==>
              o is Evidence || o is IPAddress || o is IPv4Address || o is IPv6Address || o is IPPrefix)
    }

    constructor ()
      ensures Valid() && Contents == [] && Below == {}
    {
      items, Contents, Below := [], [], {};
    }

    /** Clone: a new list of a clone of each element. */
    constructor Clone(other: EvidenceList)
      requires other.Valid()
      ensures Valid() && fresh(Below) && Contents == other.Contents
    {
      items, Contents, Below := [], [], {};
      new;
      hide Evidence.Valid, Evidence.Value, ElementsOk, MsgOk;
      for i := 0 to |other.items|
        invariant Valid() && fresh(Below) && Contents == other.Contents[..i]
      {
        assert other.Holds(other.items[i], other.Contents[i]);
        var e := new Evidence.Clone(other.items[i]);
        Append(e);
      }
    }

    method Append(e: Evidence)
      requires Valid() && e.Valid()
      modifies this
      ensures Valid() && Contents == old(Contents) + [old(e.Value())]
      ensures Below == old(Below + {e} + e.Held)
    {
      hide Evidence.Valid, Evidence.Value, ElementsOk, MsgOk;
      items, Contents, Below := items + [e], Contents + [e.Value()], Below + {e} + e.Held;
    }

    /** Add(other): the elements of the other list, shared. */
    method Add(other: EvidenceList)
      requires Valid() && other.Valid()
      modifies this
      ensures Valid() && Contents == old(Contents) + old(other.Contents) && Below == old(Below) + old(other.Below)
    {
      hide Evidence.Valid, Evidence.Value, ElementsOk, MsgOk;
      items, Contents, Below := items + other.items, Contents + other.Contents, Below + other.Below;
    }

    /** WriteTo: each element writes itself behind its tag and length. */
    method WriteTo(output: CodedOutputStream, tag: nat, ghost s: Schema, ghost m: Msg, ghost k: nat,
                   ghost base: seq<byte>)
      requires Valid() && MsgOk(s, m) && k < |s.cells| && Upto(s, m, k, base, output.buf)
      requires tag < 128 && tag % 8 == 2 && s.cells[k] == Msgs(tag / 8, EVIDENCE) && m.cells[k] == Ms(Contents)
      modifies output
      ensures Upto(s, m, k + 1, base, output.buf)
    {
      ghost var before := output.buf;
      WriteElements(output, tag, tag / 8);
      hide Upto, MsgOk, PutRecs, SubRecs, Valid;
      MsgsWritten(s, m, k, tag / 8, EVIDENCE, base, before, output.buf);
    }

    method WriteElements(output: CodedOutputStream, tag: nat, num: nat)
      requires Valid() && num <= 15 && tag == 8 * num + 2
      modifies output
      ensures output.buf == old(output.buf) + PutRecs(SubRecs(num, EVIDENCE, Contents))
    {
      hide PutRecs, PutRec, SubRecs, PutVarint, Bytes, MsgOk, Evidence.Valid, Evidence.Value;
      ghost var t, base, rs := EVIDENCE, output.buf, SubRecs(num, EVIDENCE, Contents);
      NoRecs(base, rs);
      SubRecsAt(num, t, Contents, 0);
      for i := 0 to |items|
        invariant Valid() && |rs| == |items| && output.buf == base + PutRecs(rs[..i])
      {
        SubRecsAt(num, t, Contents, i);
        assert Holds(items[i], Contents[i]);
        ghost var done := output.buf;
        output.WriteRawTag(tag);
        var size := items[i].CalculateSize();
        output.WriteVarint(size);
        items[i].WriteTo(output);
        LenWritten(done + PutVarint(tag), Bytes(t, Contents[i]));
        Emitted(done, Rec(num, Len(Bytes(t, Contents[i]))));
        Grow(base, done, rs, i);
      }
    }

    /** CalculateSize: each element's own size with its tag and length. */
    method CalculateSize() returns (size: nat)
      requires Valid()
      ensures size == MessagesSize(EVIDENCE, Contents)
    {
      EvidenceWellFormed();
      hide MessagesSize, MsgOk, Bytes, WellFormed, Evidence.Valid, Evidence.Value;
      ghost var t := EVIDENCE;
      size := 0;
      MessagesSizeAt(t, Contents, 0);
      for i := 0 to |items|
        invariant size == MessagesSize(t, Contents[..i])
      {
        MessagesSizeAt(t, Contents, i + 1);
        assert Holds(items[i], Contents[i]);
        var n := items[i].CalculateSize();
        SizeIsLength(t, Contents[i]);
        size := size + 1 + ComputeLengthSize(n);
      }
      assert Contents[..|items|] == Contents;
    }

    /** AddEntriesFrom: one record, parsed into a new element. */
    method AddEntry(input: CodedInputStream) returns (r: Option<()>)
      requires Valid() && input.Valid()
      modifies this, input`pos, input`limit
      ensures Valid() && input.Valid() && fresh(Below - old(Below)) && (r.Some? ==> input.limit == old(input.limit))
      ensures r.None? ==> Contents == old(Contents)
      ensures r.Some? ==> Contents != [] && Contents == old(Contents) + [Contents[|Contents| - 1]]
      ensures MsgOk(EVIDENCE, Empty(EVIDENCE))
      ensures SubParsed(EVIDENCE, Empty(EVIDENCE), old(input.Rest()), r,
                if r.None? then None else Some(Contents[|Contents| - 1]), input.Rest())
    {
      EmptyOk(EVIDENCE);
      hide MsgOk, RunBytes, GetLen, Empty, ElementsOk, Evidence.Valid, Evidence.Value;
      var e := new Evidence();
      var outer :- input.PushLimit();
      var _ :- e.MergeFromStream(input);
      input.PopLimit(outer);
      Append(e);
      return Some(());
    }
  }

  /** The attributes a reason code resolves to. */
  class ResolvedAttributes {
    var class_: enum
    var severity_: enum
    var terminal_: bool
    var userActionable_: bool
    var remediationClass_: enum
    var scope_: enum
    var docAnchor_: seq<byte>
    var summaryKey_: seq<byte>
    var nextActionKey_: seq<byte>
    var unknownFields: seq<Rec>

    ghost predicate Valid()
      reads this
    {
      UnknownOk(RESOLVED_ATTRIBUTES, unknownFields)
    }

    ghost function Value(): (m: Msg)
      requires Valid()
      reads this
      ensures MsgOk(RESOLVED_ATTRIBUTES, m)
    {
      hide Nine, MsgOk, UnknownOk, OkUpto, CellOk, Bit;
      var s := RESOLVED_ATTRIBUTES;
      var m := Msg(Nine(
        V(N(class_)), V(N(severity_)), V(N(Bit(terminal_))), V(N(Bit(userActionable_))),
        V(N(remediationClass_)), V(N(scope_)), V(B(docAnchor_)), V(B(summaryKey_)), V(B(nextActionKey_))),
          unknownFields);
      assert OkUpto(s, m, 5) by {
        StartOk(s, m);
        NumberOk(s, m, 0, 1, Enum, class_);
        NumberOk(s, m, 1, 2, Enum, severity_);
        BoolOk(s, m, 2, 3, terminal_);
        BoolOk(s, m, 3, 4, userActionable_);
        NumberOk(s, m, 4, 5, Enum, remediationClass_);
      }
      assert OkUpto(s, m, 9) by {
        NumberOk(s, m, 5, 6, Enum, scope_);
        BlobOk(s, m, 6, 7, docAnchor_);
        BlobOk(s, m, 7, 8, summaryKey_);
        BlobOk(s, m, 8, 9, nextActionKey_);
      }
      EndOk(s, m);
      m
    }

    constructor ()
      ensures Valid() && Value() == Empty(RESOLVED_ATTRIBUTES)
    {
      class_, severity_, terminal_, userActionable_ := 0, 0, false, false;
      remediationClass_, scope_, docAnchor_, summaryKey_ := 0, 0, [], [];
      nextActionKey_, unknownFields := [], [];
      new;
      hide Value, Empty;
      NewValue();
    }

    /** The value when every field is at its default. */
    lemma NewValue()
      requires Valid()
      requires class_ == 0 && severity_ == 0 && !terminal_ && !userActionable_
      requires remediationClass_ == 0 && scope_ == 0 && docAnchor_ == []
      requires summaryKey_ == [] && nextActionKey_ == [] && unknownFields == []
      ensures Value() == Empty(RESOLVED_ATTRIBUTES)
    {
      hide MsgOk, Empty, UnknownOk, Nine;
      EmptyValue(RESOLVED_ATTRIBUTES, Value());
    }

    /** Clone: the copy constructor. */
    constructor Clone(other: ResolvedAttributes)
      requires other.Valid()
      ensures Valid() && Value() == other.Value()
    {
      class_, severity_, terminal_, userActionable_ := other.class_, other.severity_, other.terminal_,
        other.userActionable_;
      remediationClass_, scope_, docAnchor_, summaryKey_ := other.remediationClass_, other.scope_,
        other.docAnchor_, other.summaryKey_;
      nextActionKey_, unknownFields := other.nextActionKey_, other.unknownFields;
      new;
      hide MsgOk, UnknownOk, Value;
      SameValue(other);
    }

    /** The value is made of the fields. */
    lemma SameValue(other: ResolvedAttributes)
      requires Valid() && other.Valid()
      requires class_ == other.class_ && severity_ == other.severity_ && terminal_ == other.terminal_
      requires userActionable_ == other.userActionable_ && remediationClass_ == other.remediationClass_
        && scope_ == other.scope_
      requires docAnchor_ == other.docAnchor_ && summaryKey_ == other.summaryKey_
      requires nextActionKey_ == other.nextActionKey_ && unknownFields == other.unknownFields
      ensures Value() == other.Value()
    {
      hide MsgOk, UnknownOk, Nine;
    }

    method WriteTo(output: CodedOutputStream)
      requires Valid()
      modifies output
      ensures output.buf == old(output.buf) + Bytes(RESOLVED_ATTRIBUTES, Value())
    {
      hide Upto, MsgOk, Bytes, PutRecs, PutVarint, ToWire, UnknownOk, Nine;
      ghost var s, v, base := RESOLVED_ATTRIBUTES, Value(), output.buf;
      StartWrite(s, v, base);
      WriteNumber(output, 8, Enum, class_, s, v, 0, base);
      WriteNumber(output, 16, Enum, severity_, s, v, 1, base);
      WriteNumber(output, 24, Bool, Bit(terminal_), s, v, 2, base);
      WriteNumber(output, 32, Bool, Bit(userActionable_), s, v, 3, base);
      WriteNumber(output, 40, Enum, remediationClass_, s, v, 4, base);
      WriteNumber(output, 48, Enum, scope_, s, v, 5, base);
      WriteBlob(output, 58, docAnchor_, s, v, 6, base);
      WriteBlob(output, 66, summaryKey_, s, v, 7, base);
      WriteBlob(output, 74, nextActionKey_, s, v, 8, base);
      ghost var done := output.buf;
      output.WriteUnknown(unknownFields);
      EndWrite(s, v, base, done, output.buf);
    }

    method CalculateSize() returns (size: nat)
      requires Valid()
      ensures size == |Bytes(RESOLVED_ATTRIBUTES, Value())|
    {
      ErrorTreeWellFormed();
      hide MsgOk, Bytes, WellFormed, PrefixSize, VarintSize, UnknownOk, NumberSize, BlobSize, Nine;
      ghost var s, v := RESOLVED_ATTRIBUTES, Value();
      size := 0;
      size := size + NumberSize(Enum, class_);
      size := size + NumberSize(Enum, severity_);
      size := size + NumberSize(Bool, Bit(terminal_));
      size := size + NumberSize(Bool, Bit(userActionable_));
      size := size + NumberSize(Enum, remediationClass_);
      assert size == PrefixSize(s, v, 5) by {
        StartSize(s, v);
        NumberSized(s, v, 0, 1, Enum, class_);
        NumberSized(s, v, 1, 2, Enum, severity_);
        NumberSized(s, v, 2, 3, Bool, Bit(terminal_));
        NumberSized(s, v, 3, 4, Bool, Bit(userActionable_));
        NumberSized(s, v, 4, 5, Enum, remediationClass_);
      }
      size := size + NumberSize(Enum, scope_);
      size := size + BlobSize(docAnchor_);
      size := size + BlobSize(summaryKey_);
      size := size + BlobSize(nextActionKey_);
      assert size == PrefixSize(s, v, 9) by {
        NumberSized(s, v, 5, 6, Enum, scope_);
        BlobSized(s, v, 6, 7, docAnchor_);
        BlobSized(s, v, 7, 8, summaryKey_);
        BlobSized(s, v, 8, 9, nextActionKey_);
      }
      size := size + UnknownSize(unknownFields);
      SizeIsLength(s, v);
    }

    method MergeFrom(other: ResolvedAttributes)
      requires Valid() && other.Valid()
      modifies this
      ensures Valid()
      ensures Value() == Merge(RESOLVED_ATTRIBUTES, old(Value()), old(other.Value()))
    {
      hide Value, MsgOk, Merge, Union, UnknownOk, Newer, NewerBool, NewerBlob;
      UnionOk(RESOLVED_ATTRIBUTES, unknownFields, other.unknownFields);
      MergeCodes(other);
      MergeRest(other);
      unknownFields := Union(unknownFields, other.unknownFields);
      MergedValue(other);
    }

    /** The fields merged one by one make the merged value. */
    twostate lemma MergedValue(other: ResolvedAttributes)
      requires old(Valid()) && old(other.Valid()) && Valid()
      requires class_ == Newer(old(class_), old(other.class_))
      requires severity_ == Newer(old(severity_), old(other.severity_))
      requires terminal_ == NewerBool(old(terminal_), old(other.terminal_))
      requires userActionable_ == NewerBool(old(userActionable_), old(other.userActionable_))
      requires remediationClass_ == Newer(old(remediationClass_), old(other.remediationClass_))
      requires scope_ == Newer(old(scope_), old(other.scope_))
      requires docAnchor_ == NewerBlob(old(docAnchor_), old(other.docAnchor_))
      requires summaryKey_ == NewerBlob(old(summaryKey_), old(other.summaryKey_))
      requires nextActionKey_ == NewerBlob(old(nextActionKey_), old(other.nextActionKey_))
      requires unknownFields == Union(old(unknownFields), old(other.unknownFields))
      ensures Value() == Merge(RESOLVED_ATTRIBUTES, old(Value()), old(other.Value()))
    {
      hide MsgOk, Merge, Union, UnknownOk, MergedUpto, Newer, NewerBool, NewerBlob, Bit, Nine;
      var s, a, b := RESOLVED_ATTRIBUTES, old(Value()), old(other.Value());
      var v := Value();
      assert MergedUpto(s, a, b, v, 2) by {
        StartMerge(s, a, b, v);
        NumberMerged(s, a, b, v, 0, 1, Enum, old(class_), old(other.class_));
        NumberMerged(s, a, b, v, 1, 2, Enum, old(severity_), old(other.severity_));
      }
      assert MergedUpto(s, a, b, v, 4) by {
        BoolMerged(s, a, b, v, 2, 3, old(terminal_), old(other.terminal_));
        BoolMerged(s, a, b, v, 3, 4, old(userActionable_), old(other.userActionable_));
      }
      assert MergedUpto(s, a, b, v, 6) by {
        NumberMerged(s, a, b, v, 4, 5, Enum, old(remediationClass_), old(other.remediationClass_));
        NumberMerged(s, a, b, v, 5, 6, Enum, old(scope_), old(other.scope_));
      }
      assert MergedUpto(s, a, b, v, 8) by {
        BlobMerged(s, a, b, v, 6, 7, old(docAnchor_), old(other.docAnchor_));
        BlobMerged(s, a, b, v, 7, 8, old(summaryKey_), old(other.summaryKey_));
      }
      assert MergedUpto(s, a, b, v, 9) by {
        BlobMerged(s, a, b, v, 8, 9, old(nextActionKey_), old(other.nextActionKey_));
      }
      EndMerge(s, a, b, v);
    }

    method MergeCodes(other: ResolvedAttributes)
      modifies this`class_, this`severity_, this`remediationClass_, this`scope_
      ensures class_ == Newer(old(class_), old(other.class_))
      ensures severity_ == Newer(old(severity_), old(other.severity_))
      ensures remediationClass_ == Newer(old(remediationClass_), old(other.remediationClass_))
      ensures scope_ == Newer(old(scope_), old(other.scope_))
    {
      if other.class_ != 0 { class_ := other.class_; }
      if other.severity_ != 0 { severity_ := other.severity_; }
      if other.remediationClass_ != 0 { remediationClass_ := other.remediationClass_; }
      if other.scope_ != 0 { scope_ := other.scope_; }
    }

    method MergeRest(other: ResolvedAttributes)
      modifies this`terminal_, this`userActionable_, this`docAnchor_, this`summaryKey_, this`nextActionKey_
      ensures terminal_ == NewerBool(old(terminal_), old(other.terminal_))
      ensures userActionable_ == NewerBool(old(userActionable_), old(other.userActionable_))
      ensures docAnchor_ == NewerBlob(old(docAnchor_), old(other.docAnchor_))
      ensures summaryKey_ == NewerBlob(old(summaryKey_), old(other.summaryKey_))
      ensures nextActionKey_ == NewerBlob(old(nextActionKey_), old(other.nextActionKey_))
    {
      if other.terminal_ { terminal_ := other.terminal_; }
      if other.userActionable_ { userActionable_ := other.userActionable_; }
      if |other.docAnchor_| != 0 { docAnchor_ := other.docAnchor_; }
      if |other.summaryKey_| != 0 { summaryKey_ := other.summaryKey_; }
      if |other.nextActionKey_| != 0 { nextActionKey_ := other.nextActionKey_; }
    }

    method MergeFromStream(input: CodedInputStream) returns (r: Option<()>)
      requires Valid() && input.Valid()
      modifies this, input`pos, input`limit
      ensures Valid() && input.Valid()
      ensures r.None? ==> RunBytes(RESOLVED_ATTRIBUTES, old(Value()), old(input.Rest())).None?
      ensures r.Some? ==> RunBytes(RESOLVED_ATTRIBUTES, old(Value()), old(input.Rest())) == Some(Value())
      ensures r.Some? ==> input.Rest() == [] && input.limit == old(input.limit)
    {
      hide RunBytes, MsgOk, GetTag, GetBody, Rejects, Accepts, UnknownOk, Nine;
      ghost var s, start := RESOLVED_ATTRIBUTES, RunBytes(RESOLVED_ATTRIBUTES, Value(), input.Rest());
      while true
        invariant Valid() && input.Valid() && input.limit == old(input.limit)
        invariant RunBytes(s, Value(), input.Rest()) == start
        decreases |input.Rest()|
      {
        ghost var b, m := input.Rest(), Value();
        PassTag(s, m, b);
        var tag :- input.ReadTag();
        if tag == 0 { break; }
        if tag % 8 == 4 { return None; }
        var ok := ReadField(tag, input);
        if ok.None? {
          PassRejected(s, m, b, GetTag(b).value);
          return None;
        }
        PassAccepted(s, m, b, GetTag(b).value, Value(), input.Rest());
      }
      return Some(());
    }

    /** The switch of the parse loop. */
    method ReadField(tag: nat, input: CodedInputStream) returns (r: Option<()>)
      requires Valid() && input.Valid() && 8 <= tag < TWO_32
      modifies this, input`pos, input`limit
      ensures Valid() && input.Valid() && (r.Some? ==> input.limit == old(input.limit))
      ensures r.None? ==> Rejects(RESOLVED_ATTRIBUTES, old(Value()), tag, old(input.Rest()))
      ensures r.Some? ==> Accepts(RESOLVED_ATTRIBUTES, old(Value()), tag, old(input.Rest()), Value(), input.Rest())
    {
      ErrorTreeWellFormed();
      hide Rejects, Accepts, MsgOk, WellFormed, GetLen, GetUInt64, GetBody, UnknownOk, Insert, Signed, Nine;
      ghost var s, m, b := RESOLVED_ATTRIBUTES, Value(), input.Rest();
      if tag == 8 {
        NumberRead(s, m, 0, 1, Enum, b);
        class_ :- input.ReadEnum();
        Updated(m, 0, Value());
        return Some(());
      } else if tag == 16 {
        NumberRead(s, m, 1, 2, Enum, b);
        severity_ :- input.ReadEnum();
        Updated(m, 1, Value());
        return Some(());
      } else if tag == 24 {
        NumberRead(s, m, 2, 3, Bool, b);
        terminal_ :- input.ReadBool();
        Updated(m, 2, Value());
        return Some(());
      } else {
        r := ReadField2(tag, input);
      }
    }

    /** The rest of the switch. */
    method ReadField2(tag: nat, input: CodedInputStream) returns (r: Option<()>)
      requires Valid() && input.Valid() && 8 <= tag < TWO_32
      requires tag !in {8, 16, 24}
      modifies this, input`pos, input`limit
      ensures Valid() && input.Valid() && (r.Some? ==> input.limit == old(input.limit))
      ensures r.None? ==> Rejects(RESOLVED_ATTRIBUTES, old(Value()), tag, old(input.Rest()))
      ensures r.Some? ==> Accepts(RESOLVED_ATTRIBUTES, old(Value()), tag, old(input.Rest()), Value(), input.Rest())
    {
      ErrorTreeWellFormed();
      hide Rejects, Accepts, MsgOk, WellFormed, GetLen, GetUInt64, GetBody, UnknownOk, Insert, Signed, Nine;
      ghost var s, m, b := RESOLVED_ATTRIBUTES, Value(), input.Rest();
      if tag == 32 {
        NumberRead(s, m, 3, 4, Bool, b);
        userActionable_ :- input.ReadBool();
        Updated(m, 3, Value());
        return Some(());
      } else if tag == 40 {
        NumberRead(s, m, 4, 5, Enum, b);
        remediationClass_ :- input.ReadEnum();
        Updated(m, 4, Value());
        return Some(());
      } else if tag == 48 {
        NumberRead(s, m, 5, 6, Enum, b);
        scope_ :- input.ReadEnum();
        Updated(m, 5, Value());
        return Some(());
      } else {
        r := ReadField3(tag, input);
      }
    }

    /** The rest of the switch. */
    method ReadField3(tag: nat, input: CodedInputStream) returns (r: Option<()>)
      requires Valid() && input.Valid() && 8 <= tag < TWO_32
      requires tag !in {8, 16, 24, 32, 40, 48}
      modifies this, input`pos, input`limit
      ensures Valid() && input.Valid() && (r.Some? ==> input.limit == old(input.limit))
      ensures r.None? ==> Rejects(RESOLVED_ATTRIBUTES, old(Value()), tag, old(input.Rest()))
      ensures r.Some? ==> Accepts(RESOLVED_ATTRIBUTES, old(Value()), tag, old(input.Rest()), Value(), input.Rest())
    {
      ErrorTreeWellFormed();
      hide Rejects, Accepts, MsgOk, WellFormed, GetLen, GetUInt64, GetBody, UnknownOk, Insert, Signed, Nine;
      ghost var s, m, b := RESOLVED_ATTRIBUTES, Value(), input.Rest();
      if tag == 58 {
        BlobRead(s, m, 6, 7, b);
        docAnchor_ :- input.ReadBytes();
        Updated(m, 6, Value());
        return Some(());
      } else if tag == 66 {
        BlobRead(s, m, 7, 8, b);
        summaryKey_ :- input.ReadBytes();
        Updated(m, 7, Value());
        return Some(());
      } else if tag == 74 {
        BlobRead(s, m, 8, 9, b);
        nextActionKey_ :- input.ReadBytes();
        Updated(m, 8, Value());
        return Some(());
      } else {
        r := ReadUnknown(tag, input);
      }
    }

    /** The default label. */
    method ReadUnknown(tag: nat, input: CodedInputStream) returns (r: Option<()>)
      requires Valid() && input.Valid() && 8 <= tag < TWO_32
      requires tag !in {8, 16, 24, 32, 40, 48, 58, 66, 74}
      modifies this, input`pos, input`limit
      ensures Valid() && input.Valid() && (r.Some? ==> input.limit == old(input.limit))
      ensures r.None? ==> Rejects(RESOLVED_ATTRIBUTES, old(Value()), tag, old(input.Rest()))
      ensures r.Some? ==> Accepts(RESOLVED_ATTRIBUTES, old(Value()), tag, old(input.Rest()), Value(), input.Rest())
    {
      ErrorTreeWellFormed();
      hide Rejects, Accepts, MsgOk, WellFormed, GetLen, GetUInt64, GetBody, UnknownOk, Insert, Signed, NoLabel,
        Nine;
      ghost var s, m, b := RESOLVED_ATTRIBUTES, Value(), input.Rest();
      Unlabelled(tag);
      DefaultRead(s, m, tag, b);
      var p :- input.ReadUnknown(tag);
      unknownFields := Insert(unknownFields, Rec(tag / 8, p));
      return Some(());
    }

    /** A tag that is none of the case labels. */
    static lemma Unlabelled(tag: nat)
      requires tag !in {8, 16, 24, 32, 40, 48, 58, 66, 74}
      ensures |RESOLVED_ATTRIBUTES.cells| <= 14 && NoLabel(RESOLVED_ATTRIBUTES, tag)
    {
      hide Nine;
    }
  }

  /** A structured error: a reason code with its resolved attributes and evidence. */
  class ErrorEnvelope {
    var reasonCode_: seq<byte>
    var domain_: seq<byte>
    var resolved_: ResolvedAttributes?
    var component_: enum
    const evidence_: EvidenceList
    var occurredAtMs_: ulong
    var correlationId_: seq<byte>
    var stateFrom_: uint
    var stateTo_: uint
    const contributingReasonCodes_: RepeatedValues
    var unknownFields: seq<Rec>
    ghost var Held: set<object>    // the sub-message held, with its own objects

    ghost predicate ResolvedValid()
      reads this`resolved_, this`Held, Held
    {
      this !in Held &&
      if resolved_ == null then Held == {}
      else (resolved_ in Held && Held == {resolved_} && resolved_.Valid())
    }

    ghost function ResolvedValue(): (o: Option<Msg>)
      requires ResolvedValid()
      reads this`resolved_, this`Held, Held
      ensures o.Some? ==> MsgOk(RESOLVED_ATTRIBUTES, o.value)
    {
      if resolved_ == null then None else Some(resolved_.Value())
    }

    ghost predicate Valid()
      reads this, Held, evidence_, contributingReasonCodes_, evidence_.Below
      ensures Valid() ==> forall o: object :: o in Held ==> o is ResolvedAttributes
      ensures Valid() ==> forall o: object :: o in evidence_.Below ==>
              o is Evidence || o is IPAddress || o is IPv4Address || o is IPv6Address || o is IPPrefix
    {
      && ResolvedValid()
      && evidence_.Valid()
      && AllIn(Blob, contributingReasonCodes_.items)
      && UnknownOk(ERROR_ENVELOPE, unknownFields)
    }

    ghost function Value(): (m: Msg)
      requires Valid()
      reads this, Held, evidence_, contributingReasonCodes_, evidence_.Below
      ensures MsgOk(ERROR_ENVELOPE, m)
    {
      hide Ten, MsgOk, UnknownOk, OkUpto, CellOk, ResolvedAttributes.Valid, EvidenceList.Valid,
        ResolvedAttributes.Value;
      var s := ERROR_ENVELOPE;
      var m := Msg(Ten(
        V(B(reasonCode_)), V(B(domain_)), S(ResolvedValue()), V(N(component_)), Ms(evidence_.Contents),
        V(N(occurredAtMs_)), V(B(correlationId_)), V(N(stateFrom_)), V(N(stateTo_)),
        Vs(contributingReasonCodes_.items)), unknownFields);
      assert OkUpto(s, m, 5) by {
        StartOk(s, m);
        BlobOk(s, m, 0, 1, reasonCode_);
        BlobOk(s, m, 1, 2, domain_);
        SubOk(s, m, 2, 3, RESOLVED_ATTRIBUTES, ResolvedValue());
        NumberOk(s, m, 3, 4, Enum, component_);
        MsgsOk(s, m, 4, 5, EVIDENCE, evidence_.Contents);
      }
      assert OkUpto(s, m, 10) by {
        NumberOk(s, m, 5, 6, U64, occurredAtMs_);
        BlobOk(s, m, 6, 7, correlationId_);
        NumberOk(s, m, 7, 8, U32, stateFrom_);
        NumberOk(s, m, 8, 9, U32, stateTo_);
        RepOk(s, m, 9, 10, contributingReasonCodes_.items);
      }
      EndOk(s, m);
      m
    }

    constructor ()
      ensures Valid() && fresh(Held) && fresh(evidence_) && fresh(contributingReasonCodes_)
        && evidence_.Below == {} && Value() == Empty(ERROR_ENVELOPE)
    {
      evidence_ := new EvidenceList();
      contributingReasonCodes_ := new RepeatedValues();
      reasonCode_, domain_, resolved_, component_ := [], [], null, 0;
      occurredAtMs_, correlationId_, stateFrom_, stateTo_ := 0, [], 0, 0;
      unknownFields, Held := [], {};
      new;
      hide Value, Empty, ResolvedAttributes.Valid, EvidenceList.Valid, ResolvedAttributes.Value;
      NewValue();
    }

    /** The value when every field is at its default. */
    lemma NewValue()
      requires Valid()
      requires reasonCode_ == [] && domain_ == [] && resolved_ == null && component_ == 0
      requires evidence_.Contents == [] && occurredAtMs_ == 0 && correlationId_ == [] && stateFrom_ == 0
      requires stateTo_ == 0 && contributingReasonCodes_.items == [] && unknownFields == []
      ensures Value() == Empty(ERROR_ENVELOPE)
    {
      hide MsgOk, Empty, UnknownOk, Ten, ResolvedAttributes.Valid, EvidenceList.Valid, ResolvedAttributes.Value;
      EmptyValue(ERROR_ENVELOPE, Value());
    }

    /** Clone: the copy constructor. */
    constructor Clone(other: ErrorEnvelope)
      requires other.Valid()
      ensures Valid() && fresh(Held) && fresh(evidence_) && fresh(contributingReasonCodes_)
        && fresh(evidence_.Below) && Value() == other.Value()
    {
      evidence_ := new EvidenceList.Clone(other.evidence_);
      contributingReasonCodes_ := new RepeatedValues.Clone(other.contributingReasonCodes_);
      reasonCode_, domain_, resolved_, component_ := other.reasonCode_, other.domain_, null, other.component_;
      occurredAtMs_, correlationId_, stateFrom_, stateTo_ := other.occurredAtMs_, other.correlationId_,
        other.stateFrom_, other.stateTo_;
      unknownFields, Held := other.unknownFields, {};
      new;
      hide MsgOk, UnknownOk, Value, ResolvedAttributes.Valid, EvidenceList.Valid, ResolvedAttributes.Value;
      CopyResolved(other);
      SameValue(other);
    }

    /** The value is made of the fields. */
    lemma SameValue(other: ErrorEnvelope)
      requires Valid() && other.Valid()
      requires reasonCode_ == other.reasonCode_ && domain_ == other.domain_
        && ResolvedValue() == other.ResolvedValue()
      requires component_ == other.component_ && evidence_.Contents == other.evidence_.Contents
        && occurredAtMs_ == other.occurredAtMs_
      requires correlationId_ == other.correlationId_ && stateFrom_ == other.stateFrom_
        && stateTo_ == other.stateTo_
      requires contributingReasonCodes_.items == other.contributingReasonCodes_.items
        && unknownFields == other.unknownFields
      ensures Value() == other.Value()
    {
      hide MsgOk, UnknownOk, Ten, ResolvedAttributes.Valid, EvidenceList.Valid, ResolvedAttributes.Value;
    }

    method CopyResolved(other: ErrorEnvelope)
      requires resolved_ == null && ResolvedValid() && other.ResolvedValid()
      modifies this`resolved_, this`Held
      ensures ResolvedValid() && fresh(Held) && ResolvedValue() == other.ResolvedValue()
    {
      hide MsgOk, ResolvedAttributes.Valid, EvidenceList.Valid, ResolvedAttributes.Value;
      if other.resolved_ != null {
        resolved_ := new ResolvedAttributes.Clone(other.resolved_);
        Held := {resolved_};
      }
    }

    method WriteTo(output: CodedOutputStream)
      requires Valid()
      modifies output
      ensures output.buf == old(output.buf) + Bytes(ERROR_ENVELOPE, Value())
    {
      hide Upto, MsgOk, Bytes, PutRecs, PutVarint, ToWire, UnknownOk, Ten, ResolvedAttributes.Valid,
        EvidenceList.Valid, ResolvedAttributes.Value;
      ghost var s, v, base := ERROR_ENVELOPE, Value(), output.buf;
      StartWrite(s, v, base);
      WriteBlob(output, 10, reasonCode_, s, v, 0, base);
      WriteBlob(output, 18, domain_, s, v, 1, base);
      WriteResolved(output, s, v, base);
      WriteNumber(output, 32, Enum, component_, s, v, 3, base);
      evidence_.WriteTo(output, 42, s, v, 4, base);
      WriteNumber(output, 48, U64, occurredAtMs_, s, v, 5, base);
      WriteBlob(output, 58, correlationId_, s, v, 6, base);
      WriteNumber(output, 64, U32, stateFrom_, s, v, 7, base);
      WriteNumber(output, 72, U32, stateTo_, s, v, 8, base);
      contributingReasonCodes_.WriteStrings(output, 82, s, v, 9, base);
      ghost var done := output.buf;
      output.WriteUnknown(unknownFields);
      EndWrite(s, v, base, done, output.buf);
    }

    method WriteResolved(output: CodedOutputStream, ghost s: Schema, ghost m: Msg, ghost base: seq<byte>)
      requires ResolvedValid() && MsgOk(s, m) && 2 < |s.cells| && s.cells[2] == Sub(3, RESOLVED_ATTRIBUTES)
      requires m.cells[2] == S(ResolvedValue()) && Upto(s, m, 2, base, output.buf)
      modifies output
      ensures Upto(s, m, 3, base, output.buf)
    {
      hide Upto, Bytes, PutVarint, MsgOk, ResolvedAttributes.Valid, EvidenceList.Valid, ResolvedAttributes.Value;
      ghost var before := output.buf;
      if resolved_ != null {
        output.WriteRawTag(26);
        var size := resolved_.CalculateSize();
        output.WriteVarint(size);
        resolved_.WriteTo(output);
        LenWritten(before + PutVarint(26), Bytes(RESOLVED_ATTRIBUTES, resolved_.Value()));
      }
      SubWritten(s, m, 2, 3, RESOLVED_ATTRIBUTES, ResolvedValue(), base, before, output.buf);
    }

    method CalculateSize() returns (size: nat)
      requires Valid()
      ensures size == |Bytes(ERROR_ENVELOPE, Value())|
    {
      ErrorTreeWellFormed();
      hide MsgOk, Bytes, WellFormed, PrefixSize, VarintSize, UnknownOk, NumberSize, BlobSize, Ten,
        ResolvedAttributes.Valid, EvidenceList.Valid, ResolvedAttributes.Value;
      ghost var s, v := ERROR_ENVELOPE, Value();
      size := 0;
      size := size + BlobSize(reasonCode_);
      size := size + BlobSize(domain_);
      var n := ResolvedSize();
      size := size + n;
      size := size + NumberSize(Enum, component_);
      var evidenceSize := evidence_.CalculateSize();
      size := size + evidenceSize;
      assert size == PrefixSize(s, v, 5) by {
        StartSize(s, v);
        BlobSized(s, v, 0, 1, reasonCode_);
        BlobSized(s, v, 1, 2, domain_);
        NextSize(s, v, 2);
        NumberSized(s, v, 3, 4, Enum, component_);
        MsgsSized(s, v, 4, 5, EVIDENCE, evidence_.Contents);
      }
      size := size + NumberSize(U64, occurredAtMs_);
      size := size + BlobSize(correlationId_);
      size := size + NumberSize(U32, stateFrom_);
      size := size + NumberSize(U32, stateTo_);
      size := size + ScalarsSize(Blob, contributingReasonCodes_.items);
      assert size == PrefixSize(s, v, 10) by {
        NumberSized(s, v, 5, 6, U64, occurredAtMs_);
        BlobSized(s, v, 6, 7, correlationId_);
        NumberSized(s, v, 7, 8, U32, stateFrom_);
        NumberSized(s, v, 8, 9, U32, stateTo_);
        RepSized(s, v, 9, 10, contributingReasonCodes_.items);
      }
      size := size + UnknownSize(unknownFields);
      SizeIsLength(s, v);
    }

    method ResolvedSize() returns (size: nat)
      requires ResolvedValid()
      ensures size == CellSize(Sub(3, RESOLVED_ATTRIBUTES), S(ResolvedValue()))
    {
      ErrorTreeWellFormed();
      hide MsgOk, Bytes, WellFormed, VarintSize, ResolvedAttributes.Valid, EvidenceList.Valid,
        ResolvedAttributes.Value;
      if resolved_ == null { return 0; }
      var n := resolved_.CalculateSize();
      SizeIsLength(RESOLVED_ATTRIBUTES, resolved_.Value());
      return 1 + ComputeLengthSize(n);
    }

    method MergeFrom(other: ErrorEnvelope)
      requires Valid() && other.Valid()
      modifies this, Held, evidence_, contributingReasonCodes_
      ensures Valid() && fresh(Held - old(Held))
      ensures evidence_.Below == old(evidence_.Below) + old(other.evidence_.Below)
      ensures Value() == Merge(ERROR_ENVELOPE, old(Value()), old(other.Value()))
    {
      hide Value, MsgOk, Merge, Union, UnknownOk, Newer, NewerBool, NewerBlob, NewerSub,
        ResolvedAttributes.Valid, EvidenceList.Valid, ResolvedAttributes.Value;
      UnionOk(ERROR_ENVELOPE, unknownFields, other.unknownFields);
      MergePlain(other);
      MergeResolved(other);
      MergedValue(other);
    }

    /** The fields merged one by one make the merged value. */
    twostate lemma MergedValue(other: ErrorEnvelope)
      requires old(Valid()) && old(other.Valid()) && Valid()
      requires reasonCode_ == NewerBlob(old(reasonCode_), old(other.reasonCode_))
      requires domain_ == NewerBlob(old(domain_), old(other.domain_))
      requires ResolvedValue() == NewerSub(RESOLVED_ATTRIBUTES, old(ResolvedValue()), old(other.ResolvedValue()))
      requires component_ == Newer(old(component_), old(other.component_))
      requires evidence_.Contents == old(evidence_.Contents) + old(other.evidence_.Contents)
      requires occurredAtMs_ == Newer(old(occurredAtMs_), old(other.occurredAtMs_))
      requires correlationId_ == NewerBlob(old(correlationId_), old(other.correlationId_))
      requires stateFrom_ == Newer(old(stateFrom_), old(other.stateFrom_))
      requires stateTo_ == Newer(old(stateTo_), old(other.stateTo_))
      requires contributingReasonCodes_.items == old(contributingReasonCodes_.items)
        + old(other.contributingReasonCodes_.items)
      requires unknownFields == Union(old(unknownFields), old(other.unknownFields))
      ensures Value() == Merge(ERROR_ENVELOPE, old(Value()), old(other.Value()))
    {
      hide MsgOk, Merge, Union, UnknownOk, MergedUpto, Newer, NewerBool, NewerBlob, Bit, NewerSub, Ten,
        ResolvedAttributes.Valid, EvidenceList.Valid, ResolvedAttributes.Value;
      var s, a, b := ERROR_ENVELOPE, old(Value()), old(other.Value());
      var v := Value();
      assert MergedUpto(s, a, b, v, 2) by {
        StartMerge(s, a, b, v);
        BlobMerged(s, a, b, v, 0, 1, old(reasonCode_), old(other.reasonCode_));
        BlobMerged(s, a, b, v, 1, 2, old(domain_), old(other.domain_));
      }
      assert MergedUpto(s, a, b, v, 4) by {
        SubMerged(s, a, b, v, 2, 3, RESOLVED_ATTRIBUTES, old(ResolvedValue()), old(other.ResolvedValue()));
        NumberMerged(s, a, b, v, 3, 4, Enum, old(component_), old(other.component_));
      }
      assert MergedUpto(s, a, b, v, 6) by {
        MsgsMerged(s, a, b, v, 4, 5, EVIDENCE, old(evidence_.Contents), old(other.evidence_.Contents));
        NumberMerged(s, a, b, v, 5, 6, U64, old(occurredAtMs_), old(other.occurredAtMs_));
      }
      assert MergedUpto(s, a, b, v, 8) by {
        BlobMerged(s, a, b, v, 6, 7, old(correlationId_), old(other.correlationId_));
        NumberMerged(s, a, b, v, 7, 8, U32, old(stateFrom_), old(other.stateFrom_));
      }
      assert MergedUpto(s, a, b, v, 10) by {
        NumberMerged(s, a, b, v, 8, 9, U32, old(stateTo_), old(other.stateTo_));
        RepMerged(s, a, b, v, 9, 10, old(contributingReasonCodes_.items),
          old(other.contributingReasonCodes_.items));
      }
      EndMerge(s, a, b, v);
    }

    /** The fields that are not sub-messages, and the unknown fields. */
    method MergePlain(other: ErrorEnvelope)
      requires evidence_.Valid() && other.evidence_.Valid()
      modifies
               this`reasonCode_, this`domain_, this`component_, this`occurredAtMs_, this`correlationId_,
               this`stateFrom_, this`stateTo_, this`unknownFields, evidence_, contributingReasonCodes_
      ensures reasonCode_ == NewerBlob(old(reasonCode_), old(other.reasonCode_))
      ensures domain_ == NewerBlob(old(domain_), old(other.domain_))
      ensures component_ == Newer(old(component_), old(other.component_))
      ensures evidence_.Valid() && evidence_.Contents == old(evidence_.Contents) + old(other.evidence_.Contents)
      ensures evidence_.Below == old(evidence_.Below) + old(other.evidence_.Below)
      ensures occurredAtMs_ == Newer(old(occurredAtMs_), old(other.occurredAtMs_))
      ensures correlationId_ == NewerBlob(old(correlationId_), old(other.correlationId_))
      ensures stateFrom_ == Newer(old(stateFrom_), old(other.stateFrom_))
      ensures stateTo_ == Newer(old(stateTo_), old(other.stateTo_))
      ensures contributingReasonCodes_.items == old(contributingReasonCodes_.items)
        + old(other.contributingReasonCodes_.items)
      ensures unknownFields == Union(old(unknownFields), old(other.unknownFields))
    {
      hide Newer, NewerBool, NewerBlob, Union, ElementsOk, ResolvedAttributes.Valid, EvidenceList.Valid,
        ResolvedAttributes.Value;
      MergeNames(other);
      MergeNumbers(other);
      evidence_.Add(other.evidence_);
      contributingReasonCodes_.Add(other.contributingReasonCodes_);
      unknownFields := Union(unknownFields, other.unknownFields);
    }

    method MergeNames(other: ErrorEnvelope)
      modifies this`reasonCode_, this`domain_, this`correlationId_
      ensures reasonCode_ == NewerBlob(old(reasonCode_), old(other.reasonCode_))
      ensures domain_ == NewerBlob(old(domain_), old(other.domain_))
      ensures correlationId_ == NewerBlob(old(correlationId_), old(other.correlationId_))
    {
      if |other.reasonCode_| != 0 { reasonCode_ := other.reasonCode_; }
      if |other.domain_| != 0 { domain_ := other.domain_; }
      if |other.correlationId_| != 0 { correlationId_ := other.correlationId_; }
    }

    method MergeNumbers(other: ErrorEnvelope)
      modifies this`component_, this`occurredAtMs_, this`stateFrom_, this`stateTo_
      ensures component_ == Newer(old(component_), old(other.component_))
      ensures occurredAtMs_ == Newer(old(occurredAtMs_), old(other.occurredAtMs_))
      ensures stateFrom_ == Newer(old(stateFrom_), old(other.stateFrom_))
      ensures stateTo_ == Newer(old(stateTo_), old(other.stateTo_))
    {
      if other.component_ != 0 { component_ := other.component_; }
      if other.occurredAtMs_ != 0 { occurredAtMs_ := other.occurredAtMs_; }
      if other.stateFrom_ != 0 { stateFrom_ := other.stateFrom_; }
      if other.stateTo_ != 0 { stateTo_ := other.stateTo_; }
    }

    method MergeResolved(other: ErrorEnvelope)
      requires ResolvedValid() && other.ResolvedValid()
      modifies this`resolved_, this`Held, Held
      ensures ResolvedValid() && fresh(Held - old(Held))
      ensures ResolvedValue() == NewerSub(RESOLVED_ATTRIBUTES, old(ResolvedValue()), old(other.ResolvedValue()))
    {
      hide MsgOk, Merge, Empty, ResolvedAttributes.Valid, EvidenceList.Valid, ResolvedAttributes.Value;
      if other.resolved_ != null {
        if resolved_ == null {
          resolved_ := new ResolvedAttributes();
          Held := {resolved_};
        }
        resolved_.MergeFrom(other.resolved_);
      }
    }

    method MergeFromStream(input: CodedInputStream) returns (r: Option<()>)
      requires Valid() && input.Valid()
      modifies this, Held, evidence_, contributingReasonCodes_, input`pos, input`limit
      ensures Valid() && input.Valid() && fresh(Held - old(Held)) && fresh(evidence_.Below - old(evidence_.Below))
      ensures r.None? ==> RunBytes(ERROR_ENVELOPE, old(Value()), old(input.Rest())).None?
      ensures r.Some? ==> RunBytes(ERROR_ENVELOPE, old(Value()), old(input.Rest())) == Some(Value())
      ensures r.Some? ==> input.Rest() == [] && input.limit == old(input.limit)
    {
      hide RunBytes, MsgOk, GetTag, GetBody, Rejects, Accepts, UnknownOk, Ten, ResolvedAttributes.Valid,
        EvidenceList.Valid, ResolvedAttributes.Value;
      ghost var s, start := ERROR_ENVELOPE, RunBytes(ERROR_ENVELOPE, Value(), input.Rest());
      while true
        invariant Valid() && input.Valid() && input.limit == old(input.limit)
        invariant fresh(Held - old(Held)) && fresh(evidence_.Below - old(evidence_.Below))
        invariant RunBytes(s, Value(), input.Rest()) == start
        decreases |input.Rest()|
      {
        ghost var b, m := input.Rest(), Value();
        PassTag(s, m, b);
        var tag :- input.ReadTag();
        if tag == 0 { break; }
        if tag % 8 == 4 { return None; }
        var ok := ReadField(tag, input);
        if ok.None? {
          PassRejected(s, m, b, GetTag(b).value);
          return None;
        }
        PassAccepted(s, m, b, GetTag(b).value, Value(), input.Rest());
      }
      return Some(());
    }

    /** The switch of the parse loop. */
    method ReadField(tag: nat, input: CodedInputStream) returns (r: Option<()>)
      requires Valid() && input.Valid() && 8 <= tag < TWO_32
      modifies this, Held, evidence_, contributingReasonCodes_, input`pos, input`limit
      ensures Valid() && input.Valid() && (r.Some? ==> input.limit == old(input.limit))
      ensures fresh(Held - old(Held)) && fresh(evidence_.Below - old(evidence_.Below))
      ensures r.None? ==> Rejects(ERROR_ENVELOPE, old(Value()), tag, old(input.Rest()))
      ensures r.Some? ==> Accepts(ERROR_ENVELOPE, old(Value()), tag, old(input.Rest()), Value(), input.Rest())
    {
      ErrorTreeWellFormed();
      hide Rejects, Accepts, MsgOk, WellFormed, GetLen, GetUInt64, GetBody, UnknownOk, Insert, Signed,
        RunBytes, OrEmpty, Ten, ResolvedAttributes.Valid, EvidenceList.Valid, ResolvedAttributes.Value;
      ghost var s, m, b := ERROR_ENVELOPE, Value(), input.Rest();
      if tag == 10 {
        BlobRead(s, m, 0, 1, b);
        reasonCode_ :- input.ReadBytes();
        Updated(m, 0, Value());
        return Some(());
      } else if tag == 18 {
        BlobRead(s, m, 1, 2, b);
        domain_ :- input.ReadBytes();
        Updated(m, 1, Value());
        return Some(());
      } else {
        r := ReadField2(tag, input);
      }
    }

    /** The rest of the switch. */
    method ReadField2(tag: nat, input: CodedInputStream) returns (r: Option<()>)
      requires Valid() && input.Valid() && 8 <= tag < TWO_32
      requires tag !in {10, 18}
      modifies this, Held, evidence_, contributingReasonCodes_, input`pos, input`limit
      ensures Valid() && input.Valid() && (r.Some? ==> input.limit == old(input.limit))
      ensures fresh(Held - old(Held)) && fresh(evidence_.Below - old(evidence_.Below))
      ensures r.None? ==> Rejects(ERROR_ENVELOPE, old(Value()), tag, old(input.Rest()))
      ensures r.Some? ==> Accepts(ERROR_ENVELOPE, old(Value()), tag, old(input.Rest()), Value(), input.Rest())
    {
      ErrorTreeWellFormed();
      hide Rejects, Accepts, MsgOk, WellFormed, GetLen, GetUInt64, GetBody, UnknownOk, Insert, Signed,
        RunBytes, OrEmpty, Ten, ResolvedAttributes.Valid, EvidenceList.Valid, ResolvedAttributes.Value;
      ghost var s, m, b := ERROR_ENVELOPE, Value(), input.Rest();
      if tag == 26 {
        SubRead(s, m, 2, 3, RESOLVED_ATTRIBUTES, ResolvedValue(), b);
        var _ :- ReadResolved(input);
        Updated(m, 2, Value());
        return Some(());
      } else if tag == 32 {
        NumberRead(s, m, 3, 4, Enum, b);
        component_ :- input.ReadEnum();
        Updated(m, 3, Value());
        return Some(());
      } else {
        r := ReadField3(tag, input);
      }
    }

    /** The rest of the switch. */
    method ReadField3(tag: nat, input: CodedInputStream) returns (r: Option<()>)
      requires Valid() && input.Valid() && 8 <= tag < TWO_32
      requires tag !in {10, 18, 26, 32}
      modifies this, Held, evidence_, contributingReasonCodes_, input`pos, input`limit
      ensures Valid() && input.Valid() && (r.Some? ==> input.limit == old(input.limit))
      ensures fresh(Held - old(Held)) && fresh(evidence_.Below - old(evidence_.Below))
      ensures r.None? ==> Rejects(ERROR_ENVELOPE, old(Value()), tag, old(input.Rest()))
      ensures r.Some? ==> Accepts(ERROR_ENVELOPE, old(Value()), tag, old(input.Rest()), Value(), input.Rest())
    {
      ErrorTreeWellFormed();
      hide Rejects, Accepts, MsgOk, WellFormed, GetLen, GetUInt64, GetBody, UnknownOk, Insert, Signed,
        RunBytes, Empty, RunBytes, OrEmpty, Ten, ResolvedAttributes.Valid, EvidenceList.Valid,
        ResolvedAttributes.Value;
      ghost var s, m, b := ERROR_ENVELOPE, Value(), input.Rest();
      if tag == 42 {
        MsgsRead(s, m, 4, 5, EVIDENCE, evidence_.Contents, b);
        var _ :- evidence_.AddEntry(input);
        Updated(m, 4, Value());
        return Some(());
      } else if tag == 48 {
        NumberRead(s, m, 5, 6, U64, b);
        occurredAtMs_ :- input.ReadUInt64();
        Updated(m, 5, Value());
        return Some(());
      } else {
        r := ReadField4(tag, input);
      }
    }

    /** The rest of the switch. */
    method ReadField4(tag: nat, input: CodedInputStream) returns (r: Option<()>)
      requires Valid() && input.Valid() && 8 <= tag < TWO_32
      requires tag !in {10, 18, 26, 32, 42, 48}
      modifies this, Held, evidence_, contributingReasonCodes_, input`pos, input`limit
      ensures Valid() && input.Valid() && (r.Some? ==> input.limit == old(input.limit))
      ensures fresh(Held - old(Held)) && fresh(evidence_.Below - old(evidence_.Below))
      ensures r.None? ==> Rejects(ERROR_ENVELOPE, old(Value()), tag, old(input.Rest()))
      ensures r.Some? ==> Accepts(ERROR_ENVELOPE, old(Value()), tag, old(input.Rest()), Value(), input.Rest())
    {
      ErrorTreeWellFormed();
      hide Rejects, Accepts, MsgOk, WellFormed, GetLen, GetUInt64, GetBody, UnknownOk, Insert, Signed,
        RunBytes, OrEmpty, Ten, ResolvedAttributes.Valid, EvidenceList.Valid, ResolvedAttributes.Value;
      ghost var s, m, b := ERROR_ENVELOPE, Value(), input.Rest();
      if tag == 58 {
        BlobRead(s, m, 6, 7, b);
        correlationId_ :- input.ReadBytes();
        Updated(m, 6, Value());
        return Some(());
      } else if tag == 64 {
        NumberRead(s, m, 7, 8, U32, b);
        stateFrom_ :- input.ReadUInt32();
        Updated(m, 7, Value());
        return Some(());
      } else {
        r := ReadField5(tag, input);
      }
    }

    /** The rest of the switch. */
    method ReadField5(tag: nat, input: CodedInputStream) returns (r: Option<()>)
      requires Valid() && input.Valid() && 8 <= tag < TWO_32
      requires tag !in {10, 18, 26, 32, 42, 48, 58, 64}
      modifies this, Held, evidence_, contributingReasonCodes_, input`pos, input`limit
      ensures Valid() && input.Valid() && (r.Some? ==> input.limit == old(input.limit))
      ensures fresh(Held - old(Held)) && fresh(evidence_.Below - old(evidence_.Below))
      ensures r.None? ==> Rejects(ERROR_ENVELOPE, old(Value()), tag, old(input.Rest()))
      ensures r.Some? ==> Accepts(ERROR_ENVELOPE, old(Value()), tag, old(input.Rest()), Value(), input.Rest())
    {
      ErrorTreeWellFormed();
      hide Rejects, Accepts, MsgOk, WellFormed, GetLen, GetUInt64, GetBody, UnknownOk, Insert, Signed,
        RunBytes, OrEmpty, Ten, ResolvedAttributes.Valid, EvidenceList.Valid, ResolvedAttributes.Value;
      ghost var s, m, b := ERROR_ENVELOPE, Value(), input.Rest();
      if tag == 72 {
        NumberRead(s, m, 8, 9, U32, b);
        stateTo_ :- input.ReadUInt32();
        Updated(m, 8, Value());
        return Some(());
      } else if tag == 82 {
        RepRead(s, m, 9, 10, contributingReasonCodes_.items, b);
        var e :- input.ReadBytes();
        contributingReasonCodes_.Append(B(e));
        Updated(m, 9, Value());
        return Some(());
      } else {
        r := ReadUnknown(tag, input);
      }
    }

    /** The default label. */
    method ReadUnknown(tag: nat, input: CodedInputStream) returns (r: Option<()>)
      requires Valid() && input.Valid() && 8 <= tag < TWO_32
      requires tag !in {10, 18, 26, 32, 42, 48, 58, 64, 72, 82}
      modifies this, Held, evidence_, contributingReasonCodes_, input`pos, input`limit
      ensures Valid() && input.Valid() && (r.Some? ==> input.limit == old(input.limit))
      ensures fresh(Held - old(Held)) && fresh(evidence_.Below - old(evidence_.Below))
      ensures r.None? ==> Rejects(ERROR_ENVELOPE, old(Value()), tag, old(input.Rest()))
      ensures r.Some? ==> Accepts(ERROR_ENVELOPE, old(Value()), tag, old(input.Rest()), Value(), input.Rest())
    {
      ErrorTreeWellFormed();
      hide Rejects, Accepts, MsgOk, WellFormed, GetLen, GetUInt64, GetBody, UnknownOk, Insert, Signed,
        RunBytes, OrEmpty, NoLabel, Ten, ResolvedAttributes.Valid, EvidenceList.Valid, ResolvedAttributes.Value;
      ghost var s, m, b := ERROR_ENVELOPE, Value(), input.Rest();
      Unlabelled(tag);
      DefaultRead(s, m, tag, b);
      var p :- input.ReadUnknown(tag);
      unknownFields := Insert(unknownFields, Rec(tag / 8, p));
      return Some(());
    }

    /** A tag that is none of the case labels. */
    static lemma Unlabelled(tag: nat)
      requires tag !in {10, 18, 26, 32, 42, 48, 58, 64, 72, 82}
      ensures |ERROR_ENVELOPE.cells| <= 14 && NoLabel(ERROR_ENVELOPE, tag)
    {
      hide Ten, ResolvedAttributes.Valid, EvidenceList.Valid, ResolvedAttributes.Value;
    }

    /** Parse a record of the field into the sub-message held, or a new one. */
    method ReadResolved(input: CodedInputStream) returns (r: Option<()>)
      requires ResolvedValid() && input.Valid()
      modifies this`resolved_, this`Held, Held, input`pos, input`limit
      ensures ResolvedValid() && input.Valid() && fresh(Held - old(Held))
      ensures r.Some? ==> input.limit == old(input.limit)
      ensures SubParsed(RESOLVED_ATTRIBUTES, OrEmpty(RESOLVED_ATTRIBUTES, old(ResolvedValue())),
        old(input.Rest()), r,
                        ResolvedValue(), input.Rest())
    {
      hide MsgOk, RunBytes, GetLen, Empty, ResolvedAttributes.Valid, EvidenceList.Valid, ResolvedAttributes.Value;
      if resolved_ == null {
        resolved_ := new ResolvedAttributes();
        Held := {resolved_};
      }
      var outer :- input.PushLimit();
      var ok := resolved_.MergeFromStream(input);
      if ok.None? { return None; }
      input.PopLimit(outer);
      return Some(());
    }
  }
}
