/** capability.proto: the message classes of the negotiation tree. Every
    method computes what the template of Codec says for the class's cell list. */
module Capability {
  import opened Seqs
  import opened Wire
  import opened Unknown
  import opened Codec
  import opened Refinement
  import opened Sizes
  import opened Schemas
  import opened Streams
  import opened Classes
  import opened Repeated

  /** A list of string values. */
  class StringSet {
    const values_: RepeatedValues
    var unknownFields: seq<Rec>

    ghost predicate Valid()
      reads this, values_
    {
      AllIn(Blob, values_.items) && UnknownOk(STRING_SET, unknownFields)
    }

    ghost function Value(): (m: Msg)
      requires Valid()
      reads this, values_
      ensures MsgOk(STRING_SET, m)
    {
      Msg([Vs(values_.items)], unknownFields)
    }

    constructor ()
      ensures Valid() && fresh(values_) && Value() == Empty(STRING_SET)
    {
      values_ := new RepeatedValues();
      unknownFields := [];
    }

    /** Clone: the copy constructor. */
    constructor Clone(other: StringSet)
      requires other.Valid()
      ensures Valid() && fresh(values_) && Value() == other.Value()
    {
      values_ := new RepeatedValues.Clone(other.values_);
      unknownFields := other.unknownFields;
    }

    method WriteTo(output: CodedOutputStream)
      requires Valid()
      modifies output
      ensures output.buf == old(output.buf) + Bytes(STRING_SET, Value())
    {
      hide Upto, MsgOk, Bytes, PutRecs, PutVarint, ToWire, UnknownOk;
      ghost var s, v, base := STRING_SET, Value(), output.buf;
      StartWrite(s, v, base);
      values_.WriteStrings(output, 10, s, v, 0, base);
      ghost var done := output.buf;
      output.WriteUnknown(unknownFields);
      EndWrite(s, v, base, done, output.buf);
    }

    method CalculateSize() returns (size: nat)
      requires Valid()
      ensures size == |Bytes(STRING_SET, Value())|
    {
      CapabilityTreeWellFormed();
      hide MsgOk, Bytes, WellFormed, PrefixSize, VarintSize, UnknownOk;
      ghost var s, v := STRING_SET, Value();
      size := 0;
      StartSize(s, v);
      size := size + ScalarsSize(Blob, values_.items);
      RepSized(s, v, 0, 1, values_.items);
      size := size + UnknownSize(unknownFields);
      SizeIsLength(s, v);
    }

    method MergeFrom(other: StringSet)
      requires Valid() && other.Valid()
      modifies this, values_
      ensures Valid()
      ensures Value() == Merge(STRING_SET, old(Value()), old(other.Value()))
    {
      hide MsgOk, Merge, Union, UnknownOk, MergedUpto;
      ghost var s, a, b := STRING_SET, Value(), other.Value();
      UnionOk(s, unknownFields, other.unknownFields);
      values_.Add(other.values_);
      unknownFields := Union(unknownFields, other.unknownFields);
      ghost var v := Value();
      StartMerge(s, a, b, v);
      RepMerged(s, a, b, v, 0, 1, old(values_.items), old(other.values_.items));
      EndMerge(s, a, b, v);
    }

    method MergeFromStream(input: CodedInputStream) returns (r: Option<()>)
      requires Valid() && input.Valid()
      modifies this, values_, input`pos, input`limit
      ensures Valid() && input.Valid()
      ensures r.None? ==> RunBytes(STRING_SET, old(Value()), old(input.Rest())).None?
      ensures r.Some? ==> RunBytes(STRING_SET, old(Value()), old(input.Rest())) == Some(Value())
      ensures r.Some? ==> input.Rest() == [] && input.limit == old(input.limit)
    {
      hide RunBytes, MsgOk, GetTag, GetBody, Rejects, Accepts, UnknownOk;
      ghost var s, start := STRING_SET, RunBytes(STRING_SET, Value(), input.Rest());
      while true
        invariant Valid() && input.Valid() && input.limit == old(input.limit)
        invariant RunBytes(s, Value(), input.Rest()) == start
        decreases |input.Rest()|
      {
        ghost var b, m := input.Rest(), Value();
        PassTag(s, m, b);
        var tag :- input.ReadTag();
        if tag == 0 { break; }
        if tag % 8 == 4 { return None; }
        var ok := ReadField(tag, input);
        if ok.None? {
          PassRejected(s, m, b, GetTag(b).value);
          return None;
        }
        PassAccepted(s, m, b, GetTag(b).value, Value(), input.Rest());
      }
      return Some(());
    }

    /** The switch of the parse loop. */
    method ReadField(tag: nat, input: CodedInputStream) returns (r: Option<()>)
      requires Valid() && input.Valid() && 8 <= tag < TWO_32
      modifies this, values_, input`pos, input`limit
      ensures Valid() && input.Valid() && (r.Some? ==> input.limit == old(input.limit))
      ensures r.None? ==> Rejects(STRING_SET, old(Value()), tag, old(input.Rest()))
      ensures r.Some? ==> Accepts(STRING_SET, old(Value()), tag, old(input.Rest()), Value(), input.Rest())
    {
      CapabilityTreeWellFormed();
      hide Rejects, Accepts, MsgOk, WellFormed, GetLen, GetUInt64, GetBody, UnknownOk, Insert, Signed;
      ghost var s, m, b := STRING_SET, Value(), input.Rest();
      if tag == 10 {
        RepRead(s, m, 0, 1, values_.items, b);
        var e :- input.ReadBytes();
        values_.Append(B(e));
        Updated(m, 0, Value());
        return Some(());
      } else {
        DefaultRead(s, m, tag, b);
        var p :- input.ReadUnknown(tag);
        unknownFields := Insert(unknownFields, Rec(tag / 8, p));
        return Some(());
      }
    }
  }

  datatype ParameterOneof =
    | ParameterNone
    | UintValue(uintValue: ulong)
    | SetValue(setValue: StringSet)

  datatype ParameterCase = ParameterNoneCase | UintValueCase | SetValueCase

  /** A named parameter: its reduction rule and a value that is a number or a set of strings. */
  class CapabilityParameter {
    var name_: seq<byte>
    var reduction_: enum
    var value_: ParameterOneof
    var valueCase_: ParameterCase
    var unknownFields: seq<Rec>
    ghost var Held: set<object>    // the sub-message held, with its own objects

    /** The case agrees with the boxed value. */
    ghost predicate ValueValid()
      reads this`value_, this`valueCase_, this`Held, Held
    {
      && (value_.ParameterNone? <==> valueCase_.ParameterNoneCase?)
      && (value_.UintValue? <==> valueCase_.UintValueCase?)
      && (value_.SetValue? <==> valueCase_.SetValueCase?)
      && (value_.SetValue? ==>
            && value_.setValue in Held
            && value_.setValue.values_ in Held
            && Held == {value_.setValue, value_.setValue.values_}
            && value_.setValue.Valid())
      && (value_.SetValue? || Held == {})
      && this !in Held
    }

    ghost function ValueContent(): (c: Cont)
      requires ValueValid()
      reads this`value_, this`valueCase_, this`Held, Held
      ensures CellOk(Alt(PARAMETER_VALUE), c)
    {
      match value_
      case ParameterNone => Unset
      case UintValue(v) => PickV(0, N(v))
      case SetValue(sub) => PickM(1, sub.Value())
    }

    ghost predicate Valid()
      reads this, Held
      ensures Valid() ==> forall o: object :: o in Held ==> o is StringSet || o is RepeatedValues
    {
      ValueValid() && UnknownOk(CAPABILITY_PARAMETER, unknownFields)
    }

    ghost function Value(): (m: Msg)
      requires Valid()
      reads this, Held
      ensures MsgOk(CAPABILITY_PARAMETER, m)
    {
      Msg([V(B(name_)), V(N(reduction_)), ValueContent()], unknownFields)
    }

    constructor ()
      ensures Valid() && fresh(Held) && Value() == Empty(CAPABILITY_PARAMETER)
    {
      name_, reduction_, value_, valueCase_ := [], 0, ParameterNone, ParameterNoneCase;
      unknownFields, Held := [], {};
    }

    /** Clone: the copy constructor. */
    constructor Clone(other: CapabilityParameter)
      requires other.Valid()
      ensures Valid() && fresh(Held) && Value() == other.Value()
    {
      name_, reduction_, value_, valueCase_ := other.name_, other.reduction_, ParameterNone, ParameterNoneCase;
      unknownFields, Held := other.unknownFields, {};
      new;
      hide MsgOk, UnknownOk, StringSet.Valid, StringSet.Value;
      CopyValue(other);
    }

    method SetUintValue(uintValue: ulong)
      modifies this`value_, this`valueCase_, this`Held
      ensures value_ == UintValue(uintValue) && valueCase_ == UintValueCase && Held == {}
    {
      value_, valueCase_, Held := UintValue(uintValue), UintValueCase, {};
    }

    method SetSetValue(setValue: StringSet)
      modifies this`value_, this`valueCase_, this`Held
      ensures value_ == SetValue(setValue) && valueCase_ == SetValueCase && Held == {setValue, setValue.values_}
    {
      value_, valueCase_, Held := SetValue(setValue), SetValueCase, {setValue, setValue.values_};
    }

    /** The switch of the copy constructor. */
    method CopyValue(other: CapabilityParameter)
      requires value_.ParameterNone? && ValueValid() && other.ValueValid()
      modifies this`value_, this`valueCase_, this`Held
      ensures ValueValid() && fresh(Held) && ValueContent() == other.ValueContent()
    {
      hide MsgOk, UnknownOk, StringSet.Valid, StringSet.Value;
      if other.valueCase_ == UintValueCase {
        SetUintValue(other.value_.uintValue);
      } else if other.valueCase_ == SetValueCase {
        var copy := new StringSet.Clone(other.value_.setValue);
        SetSetValue(copy);
      }
    }

    method WriteTo(output: CodedOutputStream)
      requires Valid()
      modifies output
      ensures output.buf == old(output.buf) + Bytes(CAPABILITY_PARAMETER, Value())
    {
      hide Upto, MsgOk, Bytes, PutRecs, PutVarint, ToWire, UnknownOk, StringSet.Valid, StringSet.Value;
      ghost var s, v, base := CAPABILITY_PARAMETER, Value(), output.buf;
      StartWrite(s, v, base);
      WriteBlob(output, 10, name_, s, v, 0, base);
      WriteNumber(output, 16, Enum, reduction_, s, v, 1, base);
      WriteValue(output, s, v, base);
      ghost var done := output.buf;
      output.WriteUnknown(unknownFields);
      EndWrite(s, v, base, done, output.buf);
    }

    method WriteValue(output: CodedOutputStream, ghost s: Schema, ghost m: Msg, ghost base: seq<byte>)
      requires ValueValid() && MsgOk(s, m) && 2 < |s.cells| && s.cells[2] == Alt(PARAMETER_VALUE)
      requires m.cells[2] == ValueContent() && Upto(s, m, 2, base, output.buf)
      modifies output
      ensures Upto(s, m, 3, base, output.buf)
    {
      hide Upto, MsgOk, Bytes, PutVarint, ToWire, UnknownOk, StringSet.Valid, StringSet.Value;
      ghost var before := output.buf;
      if valueCase_ == UintValueCase {
        output.WriteRawTag(24);
        output.WriteUInt64(value_.uintValue);
      } else if valueCase_ == SetValueCase {
        output.WriteRawTag(34);
        var size := value_.setValue.CalculateSize();
        output.WriteVarint(size);
        value_.setValue.WriteTo(output);
        LenWritten(before + PutVarint(34), Bytes(STRING_SET, value_.setValue.Value()));
      }
      AltWritten(s, m, 2, PARAMETER_VALUE, base, before, output.buf);
    }

    method CalculateSize() returns (size: nat)
      requires Valid()
      ensures size == |Bytes(CAPABILITY_PARAMETER, Value())|
    {
      CapabilityTreeWellFormed();
      hide MsgOk, Bytes, WellFormed, PrefixSize, VarintSize, UnknownOk, NumberSize, BlobSize, StringSet.Valid,
        StringSet.Value;
      ghost var s, v := CAPABILITY_PARAMETER, Value();
      size := 0;
      StartSize(s, v);
      size := size + BlobSize(name_);
      BlobSized(s, v, 0, 1, name_);
      size := size + NumberSize(Enum, reduction_);
      NumberSized(s, v, 1, 2, Enum, reduction_);
      var n := ValueSize();
      size := size + n;
      NextSize(s, v, 2);
      size := size + UnknownSize(unknownFields);
      SizeIsLength(s, v);
    }

    method ValueSize() returns (size: nat)
      requires ValueValid()
      ensures size == CellSize(Alt(PARAMETER_VALUE), ValueContent())
    {
      CapabilityTreeWellFormed();
      hide MsgOk, Bytes, WellFormed, VarintSize, StringSet.Valid, StringSet.Value;
      size := 0;
      if valueCase_ == UintValueCase {
        size := size + 1 + ComputeUIntSize(value_.uintValue);
      } else if valueCase_ == SetValueCase {
        var n := value_.setValue.CalculateSize();
        SizeIsLength(STRING_SET, value_.setValue.Value());
        size := size + 1 + ComputeLengthSize(n);
      }
    }

    method MergeFrom(other: CapabilityParameter)
      requires Valid() && other.Valid()
      modifies this, Held
      ensures Valid() && fresh(Held - old(Held))
      ensures Value() == Merge(CAPABILITY_PARAMETER, old(Value()), old(other.Value()))
    {
      hide MsgOk, Merge, Union, UnknownOk, MergedUpto, Newer, NewerBool, NewerBlob, Bit, CellMerge, CellOk,
        StringSet.Valid, StringSet.Value;
      ghost var s, a, b := CAPABILITY_PARAMETER, Value(), other.Value();
      UnionOk(s, unknownFields, other.unknownFields);
      MergePlain(other);
      MergeValue(other);
      ghost var v := Value();
      assert MergedUpto(s, a, b, v, 2) by {
        StartMerge(s, a, b, v);
        BlobMerged(s, a, b, v, 0, 1, old(name_), old(other.name_));
        NumberMerged(s, a, b, v, 1, 2, Enum, old(reduction_), old(other.reduction_));
      }
      assert MergedUpto(s, a, b, v, 3) by {
        AltMerged(s, a, b, v, 2, PARAMETER_VALUE, old(ValueContent()), old(other.ValueContent()));
      }
      EndMerge(s, a, b, v);
    }

    /** The fields that are not sub-messages, and the unknown fields. */
    method MergePlain(other: CapabilityParameter)
      modifies this`name_, this`reduction_, this`unknownFields
      ensures name_ == NewerBlob(old(name_), old(other.name_))
      ensures reduction_ == Newer(old(reduction_), old(other.reduction_))
      ensures unknownFields == Union(old(unknownFields), old(other.unknownFields))
    {
      if |other.name_| != 0 { name_ := other.name_; }
      if other.reduction_ != 0 { reduction_ := other.reduction_; }
      unknownFields := Union(unknownFields, other.unknownFields);
    }

    /** The switch of MergeFrom on the other object's oneof case. */
    method MergeValue(other: CapabilityParameter)
      requires ValueValid() && other.ValueValid()
      modifies this`value_, this`valueCase_, this`Held, Held
      ensures ValueValid() && fresh(Held - old(Held))
      ensures ValueContent() == CellMerge(Alt(PARAMETER_VALUE), old(ValueContent()), old(other.ValueContent()))
    {
      hide MsgOk, Merge, UnknownOk, StringSet.Valid, StringSet.Value;
      if other.valueCase_ == UintValueCase {
        SetUintValue(other.value_.uintValue);
      } else if other.valueCase_ == SetValueCase {
        if valueCase_ != SetValueCase {
          var empty := new StringSet();
          SetSetValue(empty);
        }
        value_.setValue.MergeFrom(other.value_.setValue);
      }
    }

    method MergeFromStream(input: CodedInputStream) returns (r: Option<()>)
      requires Valid() && input.Valid()
      modifies this, Held, input`pos, input`limit
      ensures Valid() && input.Valid() && fresh(Held - old(Held))
      ensures r.None? ==> RunBytes(CAPABILITY_PARAMETER, old(Value()), old(input.Rest())).None?
      ensures r.Some? ==> RunBytes(CAPABILITY_PARAMETER, old(Value()), old(input.Rest())) == Some(Value())
      ensures r.Some? ==> input.Rest() == [] && input.limit == old(input.limit)
    {
      hide RunBytes, MsgOk, GetTag, GetBody, Rejects, Accepts, UnknownOk, StringSet.Valid, StringSet.Value;
      ghost var s, start := CAPABILITY_PARAMETER, RunBytes(CAPABILITY_PARAMETER, Value(), input.Rest());
      while true
        invariant Valid() && input.Valid() && input.limit == old(input.limit)
        invariant fresh(Held - old(Held))
        invariant RunBytes(s, Value(), input.Rest()) == start
        decreases |input.Rest()|
      {
        ghost var b, m := input.Rest(), Value();
        PassTag(s, m, b);
        var tag :- input.ReadTag();
        if tag == 0 { break; }
        if tag % 8 == 4 { return None; }
        var ok := ReadField(tag, input);
        if ok.None? {
          PassRejected(s, m, b, GetTag(b).value);
          return None;
        }
        PassAccepted(s, m, b, GetTag(b).value, Value(), input.Rest());
      }
      return Some(());
    }

    /** The switch of the parse loop. */
    method ReadField(tag: nat, input: CodedInputStream) returns (r: Option<()>)
      requires Valid() && input.Valid() && 8 <= tag < TWO_32
      modifies this, Held, input`pos, input`limit
      ensures Valid() && input.Valid() && (r.Some? ==> input.limit == old(input.limit))
      ensures fresh(Held - old(Held))
      ensures r.None? ==> Rejects(CAPABILITY_PARAMETER, old(Value()), tag, old(input.Rest()))
      ensures r.Some? ==> Accepts(CAPABILITY_PARAMETER, old(Value()), tag, old(input.Rest()), Value(), input.Rest())
    {
      CapabilityTreeWellFormed();
      hide Rejects, Accepts, MsgOk, WellFormed, GetLen, GetUInt64, GetBody, UnknownOk, Insert, Signed,
        RunBytes, SubBuilder, StringSet.Valid, StringSet.Value;
      ghost var s, m, b := CAPABILITY_PARAMETER, Value(), input.Rest();
      if tag == 10 {
        BlobRead(s, m, 0, 1, b);
        name_ :- input.ReadBytes();
        Updated(m, 0, Value());
        return Some(());
      } else if tag == 16 {
        NumberRead(s, m, 1, 2, Enum, b);
        reduction_ :- input.ReadEnum();
        Updated(m, 1, Value());
        return Some(());
      } else {
        r := ReadField2(tag, input);
      }
    }

    /** The rest of the switch. */
    method ReadField2(tag: nat, input: CodedInputStream) returns (r: Option<()>)
      requires Valid() && input.Valid() && 8 <= tag < TWO_32
      requires tag !in {10, 16}
      modifies this, Held, input`pos, input`limit
      ensures Valid() && input.Valid() && (r.Some? ==> input.limit == old(input.limit))
      ensures fresh(Held - old(Held))
      ensures r.None? ==> Rejects(CAPABILITY_PARAMETER, old(Value()), tag, old(input.Rest()))
      ensures r.Some? ==> Accepts(CAPABILITY_PARAMETER, old(Value()), tag, old(input.Rest()), Value(), input.Rest())
    {
      CapabilityTreeWellFormed();
      hide Rejects, Accepts, MsgOk, WellFormed, GetLen, GetUInt64, GetBody, UnknownOk, Insert, Signed,
        RunBytes, SubBuilder, StringSet.Valid, StringSet.Value;
      ghost var s, m, b := CAPABILITY_PARAMETER, Value(), input.Rest();
      if tag == 24 {
        ArmNumberRead(s, m, 2, PARAMETER_VALUE, 0, 3, U64, b);
        var v :- input.ReadUInt64();
        SetUintValue(v);
        Updated(m, 2, Value());
        return Some(());
      } else if tag == 34 {
        ArmMsgRead(s, m, 2, PARAMETER_VALUE, 1, 4, STRING_SET, b);
        var _ :- ReadSetValue(input);
        Updated(m, 2, Value());
        return Some(());
      } else {
        r := ReadUnknown(tag, input);
      }
    }

    /** The default label. */
    method ReadUnknown(tag: nat, input: CodedInputStream) returns (r: Option<()>)
      requires Valid() && input.Valid() && 8 <= tag < TWO_32
      requires tag !in {10, 16, 24, 34}
      modifies this, Held, input`pos, input`limit
      ensures Valid() && input.Valid() && (r.Some? ==> input.limit == old(input.limit))
      ensures fresh(Held - old(Held))
      ensures r.None? ==> Rejects(CAPABILITY_PARAMETER, old(Value()), tag, old(input.Rest()))
      ensures r.Some? ==> Accepts(CAPABILITY_PARAMETER, old(Value()), tag, old(input.Rest()), Value(), input.Rest())
    {
      CapabilityTreeWellFormed();
      hide Rejects, Accepts, MsgOk, WellFormed, GetLen, GetUInt64, GetBody, UnknownOk, Insert, Signed,
        RunBytes, SubBuilder, NoLabel, StringSet.Valid, StringSet.Value;
      ghost var s, m, b := CAPABILITY_PARAMETER, Value(), input.Rest();
      Unlabelled(tag);
      DefaultRead(s, m, tag, b);
      var p :- input.ReadUnknown(tag);
      unknownFields := Insert(unknownFields, Rec(tag / 8, p));
      return Some(());
    }

    /** A tag that is none of the case labels. */
    static lemma Unlabelled(tag: nat)
      requires tag !in {10, 16, 24, 34}
      ensures |CAPABILITY_PARAMETER.cells| <= 14 && NoLabel(CAPABILITY_PARAMETER, tag)
    {
    }

    /** Parse a record of the oneof member into a fresh sub-builder, then install it. */
    method ReadSetValue(input: CodedInputStream) returns (r: Option<()>)
      requires ValueValid() && input.Valid()
      modifies this`value_, this`valueCase_, this`Held, input`pos, input`limit
      ensures ValueValid() && input.Valid() && fresh(Held - old(Held))
      ensures r.Some? ==> input.limit == old(input.limit)
      ensures r.Some? ==> value_.SetValue?
      ensures SubParsed(STRING_SET, SubBuilder(PARAMETER_VALUE, old(ValueContent()), 1), old(input.Rest()), r,
                        if r.None? then None else Some(value_.setValue.Value()), input.Rest())
    {
      hide MsgOk, RunBytes, GetLen, Empty, Merge, StringSet.Valid, StringSet.Value;
      var held := if valueCase_ == SetValueCase then value_.setValue else null;
      var subBuilder :- BuildSetValue(held, input);
      SetSetValue(subBuilder);
      return Some(());
    }

    /** The sub-builder of a case label: new, merged from the member held, then parsed into. */
    static method BuildSetValue(held: StringSet?, input: CodedInputStream) returns (r: Option<StringSet>)
      requires (held != null ==> held.Valid()) && input.Valid()
      modifies input`pos, input`limit
      ensures input.Valid() && (r.Some? ==> input.limit == old(input.limit))
      ensures r.Some? ==> r.value.Valid() && fresh({r.value, r.value.values_})
      ensures SubParsed(STRING_SET, Copied(STRING_SET, if held == null then None else Some(old(held.Value()))),
                        old(input.Rest()), if r.None? then None else Some(()),
                        if r.None? then None else Some(r.value.Value()), input.Rest())
    {
      hide MsgOk, RunBytes, GetLen, Empty, Merge, StringSet.Valid, StringSet.Value;
      var subBuilder := new StringSet();
      if held != null { subBuilder.MergeFrom(held); }
      var outer :- input.PushLimit();
      var _ :- subBuilder.MergeFromStream(input);
      input.PopLimit(outer);
      return Some(subBuilder);
    }
  }

  /** RepeatedField of CapabilityParameter: a list object of element objects. */
  class CapabilityParameterList {
    var items: seq<CapabilityParameter>
    ghost var Contents: seq<Msg>    // the values of the elements
    ghost var Below: set<object>    // the elements and the objects below them

    /** The element with all its objects is below the list, and its value is `m`. */
    ghost predicate Holds(e: CapabilityParameter, m: Msg)
      reads this`Below, Below
    {
      e in Below && e.Held <= Below && e.Valid() && e.Value() == m
    }

    ghost predicate Valid()
      reads this, Below
      ensures Valid() ==> ElementsOk(CAPABILITY_PARAMETER, Contents)
      ensures Valid() ==> forall o: object :: o in Below ==>
              o is CapabilityParameter || o is StringSet || o is RepeatedValues
    {
      && |Contents| == |items|
      && (forall i :: 0 <= i < |items| ==> Holds(items[i], Contents[i]))
      && (forall o: object :: o in Below ==> o is CapabilityParameter || o is StringSet || o is RepeatedValues)
    }

    constructor ()
      ensures Valid() && Contents == [] && Below == {}
    {
      items, Contents, Below := [], [], {};
    }

    /** Clone: a new list of a clone of each element. */
    constructor Clone(other: CapabilityParameterList)
      requires other.Valid()
      ensures Valid() && fresh(Below) && Contents == other.Contents
    {
      items, Contents, Below := [], [], {};
      new;
      hide CapabilityParameter.Valid, CapabilityParameter.Value, ElementsOk, MsgOk;
      for i := 0 to |other.items|
        invariant Valid() && fresh(Below) && Contents == other.Contents[..i]
      {
        assert other.Holds(other.items[i], other.Contents[i]);
        var e := new CapabilityParameter.Clone(other.items[i]);
        Append(e);
      }
    }

    method Append(e: CapabilityParameter)
      requires Valid() && e.Valid()
      modifies this
      ensures Valid() && Contents == old(Contents) + [old(e.Value())]
      ensures Below == old(Below + {e} + e.Held)
    {
      hide CapabilityParameter.Valid, CapabilityParameter.Value, ElementsOk, MsgOk;
      items, Contents, Below := items + [e], Contents + [e.Value()], Below + {e} + e.Held;
    }

    /** Add(other): the elements of the other list, shared. */
    method Add(other: CapabilityParameterList)
      requires Valid() && other.Valid()
      modifies this
      ensures Valid() && Contents == old(Contents) + old(other.Contents) && Below == old(Below) + old(other.Below)
    {
      hide CapabilityParameter.Valid, CapabilityParameter.Value, ElementsOk, MsgOk;
      items, Contents, Below := items + other.items, Contents + other.Contents, Below + other.Below;
    }

    /** WriteTo: each element writes itself behind its tag and length. */
    method WriteTo(output: CodedOutputStream, tag: nat, ghost s: Schema, ghost m: Msg, ghost k: nat,
                   ghost base: seq<byte>)
      requires Valid() && MsgOk(s, m) && k < |s.cells| && Upto(s, m, k, base, output.buf)
      requires tag < 128 && tag % 8 == 2 && s.cells[k] == Msgs(tag / 8, CAPABILITY_PARAMETER)
        && m.cells[k] == Ms(Contents)
      modifies output
      ensures Upto(s, m, k + 1, base, output.buf)
    {
      ghost var before := output.buf;
      WriteElements(output, tag, tag / 8);
      hide Upto, MsgOk, PutRecs, SubRecs, Valid;
      MsgsWritten(s, m, k, tag / 8, CAPABILITY_PARAMETER, base, before, output.buf);
    }

    method WriteElements(output: CodedOutputStream, tag: nat, num: nat)
      requires Valid() && num <= 15 && tag == 8 * num + 2
      modifies output
      ensures output.buf == old(output.buf) + PutRecs(SubRecs(num, CAPABILITY_PARAMETER, Contents))
    {
      hide PutRecs, PutRec, SubRecs, PutVarint, Bytes, MsgOk, CapabilityParameter.Valid, CapabilityParameter.Value;
      ghost var t, base, rs := CAPABILITY_PARAMETER, output.buf, SubRecs(num, CAPABILITY_PARAMETER, Contents);
      NoRecs(base, rs);
      SubRecsAt(num, t, Contents, 0);
      for i := 0 to |items|
        invariant Valid() && |rs| == |items| && output.buf == base + PutRecs(rs[..i])
      {
        SubRecsAt(num, t, Contents, i);
        assert Holds(items[i], Contents[i]);
        ghost var done := output.buf;
        output.WriteRawTag(tag);
        var size := items[i].CalculateSize();
        output.WriteVarint(size);
        items[i].WriteTo(output);
        LenWritten(done + PutVarint(tag), Bytes(t, Contents[i]));
        Emitted(done, Rec(num, Len(Bytes(t, Contents[i]))));
        Grow(base, done, rs, i);
      }
    }

    /** CalculateSize: each element's own size with its tag and length. */
    method CalculateSize() returns (size: nat)
      requires Valid()
      ensures size == MessagesSize(CAPABILITY_PARAMETER, Contents)
    {
      CapabilityTreeWellFormed();
      hide MessagesSize, MsgOk, Bytes, WellFormed, CapabilityParameter.Valid, CapabilityParameter.Value;
      ghost var t := CAPABILITY_PARAMETER;
      size := 0;
      MessagesSizeAt(t, Contents, 0);
      for i := 0 to |items|
        invariant size == MessagesSize(t, Contents[..i])
      {
        MessagesSizeAt(t, Contents, i + 1);
        assert Holds(items[i], Contents[i]);
        var n := items[i].CalculateSize();
        SizeIsLength(t, Contents[i]);
        size := size + 1 + ComputeLengthSize(n);
      }
      assert Contents[..|items|] == Contents;
    }

    /** AddEntriesFrom: one record, parsed into a new element. */
    method AddEntry(input: CodedInputStream) returns (r: Option<()>)
      requires Valid() && input.Valid()
      modifies this, input`pos, input`limit
      ensures Valid() && input.Valid() && fresh(Below - old(Below)) && (r.Some? ==> input.limit == old(input.limit))
      ensures r.None? ==> Contents == old(Contents)
      ensures r.Some? ==> Contents != [] && Contents == old(Contents) + [Contents[|Contents| - 1]]
      ensures MsgOk(CAPABILITY_PARAMETER, Empty(CAPABILITY_PARAMETER))
      ensures SubParsed(CAPABILITY_PARAMETER, Empty(CAPABILITY_PARAMETER), old(input.Rest()), r,
                if r.None? then None else Some(Contents[|Contents| - 1]), input.Rest())
    {
      EmptyOk(CAPABILITY_PARAMETER);
      hide MsgOk, RunBytes, GetLen, Empty, ElementsOk, CapabilityParameter.Valid, CapabilityParameter.Value;
      var e := new CapabilityParameter();
      var outer :- input.PushLimit();
      var _ :- e.MergeFromStream(input);
      input.PopLimit(outer);
      Append(e);
      return Some(());
    }
  }

  /** A capability: name, major version and parameters. */
  class Capability {
    var name_: seq<byte>
    var major_: uint
    const parameters_: CapabilityParameterList
    var unknownFields: seq<Rec>

    ghost predicate Valid()
      reads this, parameters_, parameters_.Below
      ensures Valid() ==> forall o: object :: o in parameters_.Below ==>
              o is CapabilityParameter || o is StringSet || o is RepeatedValues
    {
      parameters_.Valid() && UnknownOk(CAPABILITY, unknownFields)
    }

    ghost function Value(): (m: Msg)
      requires Valid()
      reads this, parameters_, parameters_.Below
      ensures MsgOk(CAPABILITY, m)
    {
      Msg([V(B(name_)), V(N(major_)), Ms(parameters_.Contents)], unknownFields)
    }

    constructor ()
      ensures Valid() && fresh(parameters_) && parameters_.Below == {} && Value() == Empty(CAPABILITY)
    {
      parameters_ := new CapabilityParameterList();
      name_, major_, unknownFields := [], 0, [];
    }

    /** Clone: the copy constructor. */
    constructor Clone(other: Capability)
      requires other.Valid()
      ensures Valid() && fresh(parameters_) && fresh(parameters_.Below) && Value() == other.Value()
    {
      parameters_ := new CapabilityParameterList.Clone(other.parameters_);
      name_, major_, unknownFields := other.name_, other.major_, other.unknownFields;
    }

    method WriteTo(output: CodedOutputStream)
      requires Valid()
      modifies output
      ensures output.buf == old(output.buf) + Bytes(CAPABILITY, Value())
    {
      hide Upto, MsgOk, Bytes, PutRecs, PutVarint, ToWire, UnknownOk, CapabilityParameterList.Valid;
      ghost var s, v, base := CAPABILITY, Value(), output.buf;
      StartWrite(s, v, base);
      WriteBlob(output, 10, name_, s, v, 0, base);
      WriteNumber(output, 16, U32, major_, s, v, 1, base);
      parameters_.WriteTo(output, 26, s, v, 2, base);
      ghost var done := output.buf;
      output.WriteUnknown(unknownFields);
      EndWrite(s, v, base, done, output.buf);
    }

    method CalculateSize() returns (size: nat)
      requires Valid()
      ensures size == |Bytes(CAPABILITY, Value())|
    {
      CapabilityTreeWellFormed();
      hide MsgOk, Bytes, WellFormed, PrefixSize, VarintSize, UnknownOk, NumberSize, BlobSize,
        CapabilityParameterList.Valid;
      ghost var s, v := CAPABILITY, Value();
      size := 0;
      StartSize(s, v);
      size := size + BlobSize(name_);
      BlobSized(s, v, 0, 1, name_);
      size := size + NumberSize(U32, major_);
      NumberSized(s, v, 1, 2, U32, major_);
      var parametersSize := parameters_.CalculateSize();
      size := size + parametersSize;
      MsgsSized(s, v, 2, 3, CAPABILITY_PARAMETER, parameters_.Contents);
      size := size + UnknownSize(unknownFields);
      SizeIsLength(s, v);
    }

    method MergeFrom(other: Capability)
      requires Valid() && other.Valid()
      modifies this, parameters_
      ensures Valid()
      ensures parameters_.Below == old(parameters_.Below) + old(other.parameters_.Below)
      ensures Value() == Merge(CAPABILITY, old(Value()), old(other.Value()))
    {
      hide MsgOk, Merge, Union, UnknownOk, MergedUpto, Newer, NewerBool, NewerBlob, Bit,
        CapabilityParameterList.Valid;
      ghost var s, a, b := CAPABILITY, Value(), other.Value();
      UnionOk(s, unknownFields, other.unknownFields);
      MergeScalars(other);
      parameters_.Add(other.parameters_);
      unknownFields := Union(unknownFields, other.unknownFields);
      ghost var v := Value();
      assert MergedUpto(s, a, b, v, 2) by {
        StartMerge(s, a, b, v);
        BlobMerged(s, a, b, v, 0, 1, old(name_), old(other.name_));
        NumberMerged(s, a, b, v, 1, 2, U32, old(major_), old(other.major_));
      }
      assert MergedUpto(s, a, b, v, 3) by {
        MsgsMerged(s, a, b, v, 2, 3, CAPABILITY_PARAMETER, old(parameters_.Contents),
          old(other.parameters_.Contents));
      }
      EndMerge(s, a, b, v);
    }

    method MergeScalars(other: Capability)
      modifies this`name_, this`major_
      ensures name_ == NewerBlob(old(name_), old(other.name_))
      ensures major_ == Newer(old(major_), old(other.major_))
    {
      if |other.name_| != 0 { name_ := other.name_; }
      if other.major_ != 0 { major_ := other.major_; }
    }

    method MergeFromStream(input: CodedInputStream) returns (r: Option<()>)
      requires Valid() && input.Valid()
      modifies this, parameters_, input`pos, input`limit
      ensures Valid() && input.Valid() && fresh(parameters_.Below - old(parameters_.Below))
      ensures r.None? ==> RunBytes(CAPABILITY, old(Value()), old(input.Rest())).None?
      ensures r.Some? ==> RunBytes(CAPABILITY, old(Value()), old(input.Rest())) == Some(Value())
      ensures r.Some? ==> input.Rest() == [] && input.limit == old(input.limit)
    {
      hide RunBytes, MsgOk, GetTag, GetBody, Rejects, Accepts, UnknownOk, CapabilityParameterList.Valid;
      ghost var s, start := CAPABILITY, RunBytes(CAPABILITY, Value(), input.Rest());
      while true
        invariant Valid() && input.Valid() && input.limit == old(input.limit)
        invariant fresh(parameters_.Below - old(parameters_.Below))
        invariant RunBytes(s, Value(), input.Rest()) == start
        decreases |input.Rest()|
      {
        ghost var b, m := input.Rest(), Value();
        PassTag(s, m, b);
        var tag :- input.ReadTag();
        if tag == 0 { break; }
        if tag % 8 == 4 { return None; }
        var ok := ReadField(tag, input);
        if ok.None? {
          PassRejected(s, m, b, GetTag(b).value);
          return None;
        }
        PassAccepted(s, m, b, GetTag(b).value, Value(), input.Rest());
      }
      return Some(());
    }

    /** The switch of the parse loop. */
    method ReadField(tag: nat, input: CodedInputStream) returns (r: Option<()>)
      requires Valid() && input.Valid() && 8 <= tag < TWO_32
      modifies this, parameters_, input`pos, input`limit
      ensures Valid() && input.Valid() && (r.Some? ==> input.limit == old(input.limit))
      ensures fresh(parameters_.Below - old(parameters_.Below))
      ensures r.None? ==> Rejects(CAPABILITY, old(Value()), tag, old(input.Rest()))
      ensures r.Some? ==> Accepts(CAPABILITY, old(Value()), tag, old(input.Rest()), Value(), input.Rest())
    {
      CapabilityTreeWellFormed();
      hide Rejects, Accepts, MsgOk, WellFormed, GetLen, GetUInt64, GetBody, UnknownOk, Insert, Signed,
        RunBytes, Empty, CapabilityParameterList.Valid;
      ghost var s, m, b := CAPABILITY, Value(), input.Rest();
      if tag == 10 {
        BlobRead(s, m, 0, 1, b);
        name_ :- input.ReadBytes();
        Updated(m, 0, Value());
        return Some(());
      } else if tag == 16 {
        NumberRead(s, m, 1, 2, U32, b);
        major_ :- input.ReadUInt32();
        Updated(m, 1, Value());
        return Some(());
      } else if tag == 26 {
        MsgsRead(s, m, 2, 3, CAPABILITY_PARAMETER, parameters_.Contents, b);
        var _ :- parameters_.AddEntry(input);
        Updated(m, 2, Value());
        return Some(());
      } else {
        DefaultRead(s, m, tag, b);
        var p :- input.ReadUnknown(tag);
        unknownFields := Insert(unknownFields, Rec(tag / 8, p));
        return Some(());
      }
    }
  }

  /** RepeatedField of Capability: a list object of element objects. */
  class CapabilityList {
    var items: seq<Capability>
    ghost var Contents: seq<Msg>    // the values of the elements
    ghost var Below: set<object>    // the elements and the objects below them

    /** The element with all its objects is below the list, and its value is `m`. */
    ghost predicate Holds(e: Capability, m: Msg)
      reads this`Below, Below
    {
      e in Below && e.parameters_ in Below && e.parameters_.Below <= Below && e.Valid() && e.Value() == m
    }

    ghost predicate Valid()
      reads this, Below
      ensures Valid() ==> ElementsOk(CAPABILITY, Contents)
      ensures Valid() ==> forall o: object :: o in Below ==>
              o is Capability || o is CapabilityParameterList || o is CapabilityParameter ||
              o is StringSet || o is RepeatedValues
    {
      && |Contents| == |items|
      && (forall i :: 0 <= i < |items| ==> Holds(items[i], Contents[i]))
      && (forall o: object :: o in Below ==>
              o is Capability || o is CapabilityParameterList || o is CapabilityParameter ||
              o is StringSet || o is RepeatedValues)
    }

    constructor ()
      ensures Valid() && Contents == [] && Below == {}
    {
      items, Contents, Below := [], [], {};
    }

    /** Clone: a new list of a clone of each element. */
    constructor Clone(other: CapabilityList)
      requires other.Valid()
      ensures Valid() && fresh(Below) && Contents == other.Contents
    {
      items, Contents, Below := [], [], {};
      new;
      hide Capability.Valid, Capability.Value, ElementsOk, MsgOk;
      for i := 0 to |other.items|
        invariant Valid() && fresh(Below) && Contents == other.Contents[..i]
      {
        assert other.Holds(other.items[i], other.Contents[i]);
        var e := new Capability.Clone(other.items[i]);
        Append(e);
      }
    }

    method Append(e: Capability)
      requires Valid() && e.Valid()
      modifies this
      ensures Valid() && Contents == old(Contents) + [old(e.Value())]
      ensures Below == old(Below + {e, e.parameters_} + e.parameters_.Below)
    {
      hide Capability.Valid, Capability.Value, ElementsOk, MsgOk;
      items, Contents, Below := items + [e], Contents + [e.Value()], Below + {e, e.parameters_}
        + e.parameters_.Below;
    }

    /** Add(other): the elements of the other list, shared. */
    method Add(other: CapabilityList)
      requires Valid() && other.Valid()
      modifies this
      ensures Valid() && Contents == old(Contents) + old(other.Contents) && Below == old(Below) + old(other.Below)
    {
      hide Capability.Valid, Capability.Value, ElementsOk, MsgOk;
      items, Contents, Below := items + other.items, Contents + other.Contents, Below + other.Below;
    }

    /** WriteTo: each element writes itself behind its tag and length. */
    method WriteTo(output: CodedOutputStream, tag: nat, ghost s: Schema, ghost m: Msg, ghost k: nat,
                   ghost base: seq<byte>)
      requires Valid() && MsgOk(s, m) && k < |s.cells| && Upto(s, m, k, base, output.buf)
      requires tag < 128 && tag % 8 == 2 && s.cells[k] == Msgs(tag / 8, CAPABILITY) && m.cells[k] == Ms(Contents)
      modifies output
      ensures Upto(s, m, k + 1, base, output.buf)
    {
      ghost var before := output.buf;
      WriteElements(output, tag, tag / 8);
      hide Upto, MsgOk, PutRecs, SubRecs, Valid;
      MsgsWritten(s, m, k, tag / 8, CAPABILITY, base, before, output.buf);
    }

    method WriteElements(output: CodedOutputStream, tag: nat, num: nat)
      requires Valid() && num <= 15 && tag == 8 * num + 2
      modifies output
      ensures output.buf == old(output.buf) + PutRecs(SubRecs(num, CAPABILITY, Contents))
    {
      hide PutRecs, PutRec, SubRecs, PutVarint, Bytes, MsgOk, Capability.Valid, Capability.Value;
      ghost var t, base, rs := CAPABILITY, output.buf, SubRecs(num, CAPABILITY, Contents);
      NoRecs(base, rs);
      SubRecsAt(num, t, Contents, 0);
      for i := 0 to |items|
        invariant Valid() && |rs| == |items| && output.buf == base + PutRecs(rs[..i])
      {
        SubRecsAt(num, t, Contents, i);
        assert Holds(items[i], Contents[i]);
        ghost var done := output.buf;
        output.WriteRawTag(tag);
        var size := items[i].CalculateSize();
        output.WriteVarint(size);
        items[i].WriteTo(output);
        LenWritten(done + PutVarint(tag), Bytes(t, Contents[i]));
        Emitted(done, Rec(num, Len(Bytes(t, Contents[i]))));
        Grow(base, done, rs, i);
      }
    }

    /** CalculateSize: each element's own size with its tag and length. */
    method CalculateSize() returns (size: nat)
      requires Valid()
      ensures size == MessagesSize(CAPABILITY, Contents)
    {
      CapabilityTreeWellFormed();
      hide MessagesSize, MsgOk, Bytes, WellFormed, Capability.Valid, Capability.Value;
      ghost var t := CAPABILITY;
      size := 0;
      MessagesSizeAt(t, Contents, 0);
      for i := 0 to |items|
        invariant size == MessagesSize(t, Contents[..i])
      {
        MessagesSizeAt(t, Contents, i + 1);
        assert Holds(items[i], Contents[i]);
        var n := items[i].CalculateSize();
        SizeIsLength(t, Contents[i]);
        size := size + 1 + ComputeLengthSize(n);
      }
      assert Contents[..|items|] == Contents;
    }

    /** AddEntriesFrom: one record, parsed into a new element. */
    method AddEntry(input: CodedInputStream) returns (r: Option<()>)
      requires Valid() && input.Valid()
      modifies this, input`pos, input`limit
      ensures Valid() && input.Valid() && fresh(Below - old(Below)) && (r.Some? ==> input.limit == old(input.limit))
      ensures r.None? ==> Contents == old(Contents)
      ensures r.Some? ==> Contents != [] && Contents == old(Contents) + [Contents[|Contents| - 1]]
      ensures MsgOk(CAPABILITY, Empty(CAPABILITY))
      ensures SubParsed(CAPABILITY, Empty(CAPABILITY), old(input.Rest()), r,
                if r.None? then None else Some(Contents[|Contents| - 1]), input.Rest())
    {
      EmptyOk(CAPABILITY);
      hide MsgOk, RunBytes, GetLen, Empty, ElementsOk, Capability.Valid, Capability.Value;
      var e := new Capability();
      var outer :- input.PushLimit();
      var _ :- e.MergeFromStream(input);
      input.PopLimit(outer);
      Append(e);
      return Some(());
    }
  }

  /** The capabilities a peer offers. */
  class CapabilitySet {
    const capabilities_: CapabilityList
    var unknownFields: seq<Rec>

    ghost predicate Valid()
      reads this, capabilities_, capabilities_.Below
      ensures Valid() ==> forall o: object :: o in capabilities_.Below ==>
              o is Capability || o is CapabilityParameterList || o is CapabilityParameter ||
              o is StringSet || o is RepeatedValues
    {
      capabilities_.Valid() && UnknownOk(CAPABILITY_SET, unknownFields)
    }

    ghost function Value(): (m: Msg)
      requires Valid()
      reads this, capabilities_, capabilities_.Below
      ensures MsgOk(CAPABILITY_SET, m)
    {
      Msg([Ms(capabilities_.Contents)], unknownFields)
    }

    constructor ()
      ensures Valid() && fresh(capabilities_) && capabilities_.Below == {} && Value() == Empty(CAPABILITY_SET)
    {
      capabilities_ := new CapabilityList();
      unknownFields := [];
    }

    /** Clone: the copy constructor. */
    constructor Clone(other: CapabilitySet)
      requires other.Valid()
      ensures Valid() && fresh(capabilities_) && fresh(capabilities_.Below) && Value() == other.Value()
    {
      capabilities_ := new CapabilityList.Clone(other.capabilities_);
      unknownFields := other.unknownFields;
    }

    method WriteTo(output: CodedOutputStream)
      requires Valid()
      modifies output
      ensures output.buf == old(output.buf) + Bytes(CAPABILITY_SET, Value())
    {
      hide Upto, MsgOk, Bytes, PutRecs, PutVarint, ToWire, UnknownOk, CapabilityList.Valid;
      ghost var s, v, base := CAPABILITY_SET, Value(), output.buf;
      StartWrite(s, v, base);
      capabilities_.WriteTo(output, 10, s, v, 0, base);
      ghost var done := output.buf;
      output.WriteUnknown(unknownFields);
      EndWrite(s, v, base, done, output.buf);
    }

    method CalculateSize() returns (size: nat)
      requires Valid()
      ensures size == |Bytes(CAPABILITY_SET, Value())|
    {
      CapabilityTreeWellFormed();
      hide MsgOk, Bytes, WellFormed, PrefixSize, VarintSize, UnknownOk, CapabilityList.Valid;
      ghost var s, v := CAPABILITY_SET, Value();
      size := 0;
      StartSize(s, v);
      var capabilitiesSize := capabilities_.CalculateSize();
      size := size + capabilitiesSize;
      MsgsSized(s, v, 0, 1, CAPABILITY, capabilities_.Contents);
      size := size + UnknownSize(unknownFields);
      SizeIsLength(s, v);
    }

    method MergeFrom(other: CapabilitySet)
      requires Valid() && other.Valid()
      modifies this, capabilities_
      ensures Valid()
      ensures capabilities_.Below == old(capabilities_.Below) + old(other.capabilities_.Below)
      ensures Value() == Merge(CAPABILITY_SET, old(Value()), old(other.Value()))
    {
      hide MsgOk, Merge, Union, UnknownOk, MergedUpto, CapabilityList.Valid;
      ghost var s, a, b := CAPABILITY_SET, Value(), other.Value();
      UnionOk(s, unknownFields, other.unknownFields);
      capabilities_.Add(other.capabilities_);
      unknownFields := Union(unknownFields, other.unknownFields);
      ghost var v := Value();
      StartMerge(s, a, b, v);
      MsgsMerged(s, a, b, v, 0, 1, CAPABILITY, old(capabilities_.Contents), old(other.capabilities_.Contents));
      EndMerge(s, a, b, v);
    }

    method MergeFromStream(input: CodedInputStream) returns (r: Option<()>)
      requires Valid() && input.Valid()
      modifies this, capabilities_, input`pos, input`limit
      ensures Valid() && input.Valid() && fresh(capabilities_.Below - old(capabilities_.Below))
      ensures r.None? ==> RunBytes(CAPABILITY_SET, old(Value()), old(input.Rest())).None?
      ensures r.Some? ==> RunBytes(CAPABILITY_SET, old(Value()), old(input.Rest())) == Some(Value())
      ensures r.Some? ==> input.Rest() == [] && input.limit == old(input.limit)
    {
      hide RunBytes, MsgOk, GetTag, GetBody, Rejects, Accepts, UnknownOk, CapabilityList.Valid;
      ghost var s, start := CAPABILITY_SET, RunBytes(CAPABILITY_SET, Value(), input.Rest());
      while true
        invariant Valid() && input.Valid() && input.limit == old(input.limit)
        invariant fresh(capabilities_.Below - old(capabilities_.Below))
        invariant RunBytes(s, Value(), input.Rest()) == start
        decreases |input.Rest()|
      {
        ghost var b, m := input.Rest(), Value();
        PassTag(s, m, b);
        var tag :- input.ReadTag();
        if tag == 0 { break; }
        if tag % 8 == 4 { return None; }
        var ok := ReadField(tag, input);
        if ok.None? {
          PassRejected(s, m, b, GetTag(b).value);
          return None;
        }
        PassAccepted(s, m, b, GetTag(b).value, Value(), input.Rest());
      }
      return Some(());
    }

    /** The switch of the parse loop. */
    method ReadField(tag: nat, input: CodedInputStream) returns (r: Option<()>)
      requires Valid() && input.Valid() && 8 <= tag < TWO_32
      modifies this, capabilities_, input`pos, input`limit
      ensures Valid() && input.Valid() && (r.Some? ==> input.limit == old(input.limit))
      ensures fresh(capabilities_.Below - old(capabilities_.Below))
      ensures r.None? ==> Rejects(CAPABILITY_SET, old(Value()), tag, old(input.Rest()))
      ensures r.Some? ==> Accepts(CAPABILITY_SET, old(Value()), tag, old(input.Rest()), Value(), input.Rest())
    {
      CapabilityTreeWellFormed();
      hide Rejects, Accepts, MsgOk, WellFormed, GetLen, GetUInt64, GetBody, UnknownOk, Insert, Signed,
        RunBytes, Empty, CapabilityList.Valid;
      ghost var s, m, b := CAPABILITY_SET, Value(), input.Rest();
      if tag == 10 {
        MsgsRead(s, m, 0, 1, CAPABILITY, capabilities_.Contents, b);
        var _ :- capabilities_.AddEntry(input);
        Updated(m, 0, Value());
        return Some(());
      } else {
        DefaultRead(s, m, tag, b);
        var p :- input.ReadUnknown(tag);
        unknownFields := Insert(unknownFields, Rec(tag / 8, p));
        return Some(());
      }
    }
  }

  /** The outcome of a negotiation: the selected capabilities and their epoch and hash. */
  class NegotiationResult {
    var selectedEpoch_: uint
    var selectedCapabilities_: CapabilitySet?
    var negotiationHash_: seq<byte>
    var unknownFields: seq<Rec>
    ghost var Held: set<object>    // the sub-message held, with its own objects
    ghost var Below: set<object>   // the list elements below it, with theirs

    ghost predicate SelectedCapabilitiesValid()
      reads this`selectedCapabilities_, this`Held, Held, this`Below, Below
    {
      this !in Held &&
      if selectedCapabilities_ == null then Held == {} && Below == {}
      else (
        && selectedCapabilities_ in Held
        && selectedCapabilities_.capabilities_ in Held
        && Held == {selectedCapabilities_, selectedCapabilities_.capabilities_}
        && Below == selectedCapabilities_.capabilities_.Below
        && selectedCapabilities_.Valid())
    }

    ghost function SelectedCapabilitiesValue(): (o: Option<Msg>)
      requires SelectedCapabilitiesValid()
      reads this`selectedCapabilities_, this`Held, Held, this`Below, Below
      ensures o.Some? ==> MsgOk(CAPABILITY_SET, o.value)
    {
      if selectedCapabilities_ == null then None else Some(selectedCapabilities_.Value())
    }

    ghost predicate Valid()
      reads this, Held, Below
      ensures Valid() ==> forall o: object :: o in Held ==> o is CapabilitySet || o is CapabilityList
      ensures Valid() ==> forall o: object :: o in Below ==>
              o is Capability || o is CapabilityParameterList || o is CapabilityParameter ||
              o is StringSet || o is RepeatedValues
    {
      SelectedCapabilitiesValid() && UnknownOk(NEGOTIATION_RESULT, unknownFields)
    }

    ghost function Value(): (m: Msg)
      requires Valid()
      reads this, Held, Below
      ensures MsgOk(NEGOTIATION_RESULT, m)
    {
      Msg([V(N(selectedEpoch_)), S(SelectedCapabilitiesValue()), V(B(negotiationHash_))], unknownFields)
    }

    constructor ()
      ensures Valid() && fresh(Held) && Below == {} && Value() == Empty(NEGOTIATION_RESULT)
    {
      selectedEpoch_, selectedCapabilities_, negotiationHash_, unknownFields := 0, null, [], [];
      Held, Below := {}, {};
    }

    /** Clone: the copy constructor. */
    constructor Clone(other: NegotiationResult)
      requires other.Valid()
      ensures Valid() && fresh(Held) && fresh(Below) && Value() == other.Value()
    {
      selectedEpoch_, selectedCapabilities_, negotiationHash_, unknownFields := other.selectedEpoch_, null,
        other.negotiationHash_, other.unknownFields;
      Held, Below := {}, {};
      new;
      hide MsgOk, UnknownOk, CapabilitySet.Valid, CapabilitySet.Value;
      CopySelectedCapabilities(other);
    }

    method CopySelectedCapabilities(other: NegotiationResult)
      requires selectedCapabilities_ == null && SelectedCapabilitiesValid() && other.SelectedCapabilitiesValid()
      modifies this`selectedCapabilities_, this`Held, this`Below
      ensures SelectedCapabilitiesValid() && fresh(Held) && fresh(Below)
        && SelectedCapabilitiesValue() == other.SelectedCapabilitiesValue()
    {
      hide MsgOk, CapabilitySet.Valid, CapabilitySet.Value;
      if other.selectedCapabilities_ != null {
        selectedCapabilities_ := new CapabilitySet.Clone(other.selectedCapabilities_);
        Held := {selectedCapabilities_, selectedCapabilities_.capabilities_};
        Below := selectedCapabilities_.capabilities_.Below;
      }
    }

    method WriteTo(output: CodedOutputStream)
      requires Valid()
      modifies output
      ensures output.buf == old(output.buf) + Bytes(NEGOTIATION_RESULT, Value())
    {
      hide Upto, MsgOk, Bytes, PutRecs, PutVarint, ToWire, UnknownOk, CapabilitySet.Valid, CapabilitySet.Value;
      ghost var s, v, base := NEGOTIATION_RESULT, Value(), output.buf;
      StartWrite(s, v, base);
      WriteNumber(output, 8, U32, selectedEpoch_, s, v, 0, base);
      WriteSelectedCapabilities(output, s, v, base);
      WriteBlob(output, 26, negotiationHash_, s, v, 2, base);
      ghost var done := output.buf;
      output.WriteUnknown(unknownFields);
      EndWrite(s, v, base, done, output.buf);
    }

    method WriteSelectedCapabilities(output: CodedOutputStream, ghost s: Schema, ghost m: Msg,
      ghost base: seq<byte>)
      requires SelectedCapabilitiesValid() && MsgOk(s, m) && 1 < |s.cells| && s.cells[1] == Sub(2, CAPABILITY_SET)
      requires m.cells[1] == S(SelectedCapabilitiesValue()) && Upto(s, m, 1, base, output.buf)
      modifies output
      ensures Upto(s, m, 2, base, output.buf)
    {
      hide Upto, Bytes, PutVarint, MsgOk, CapabilitySet.Valid, CapabilitySet.Value;
      ghost var before := output.buf;
      if selectedCapabilities_ != null {
        output.WriteRawTag(18);
        var size := selectedCapabilities_.CalculateSize();
        output.WriteVarint(size);
        selectedCapabilities_.WriteTo(output);
        LenWritten(before + PutVarint(18), Bytes(CAPABILITY_SET, selectedCapabilities_.Value()));
      }
      SubWritten(s, m, 1, 2, CAPABILITY_SET, SelectedCapabilitiesValue(), base, before, output.buf);
    }

    method CalculateSize() returns (size: nat)
      requires Valid()
      ensures size == |Bytes(NEGOTIATION_RESULT, Value())|
    {
      CapabilityTreeWellFormed();
      hide MsgOk, Bytes, WellFormed, PrefixSize, VarintSize, UnknownOk, NumberSize, BlobSize,
        CapabilitySet.Valid, CapabilitySet.Value;
      ghost var s, v := NEGOTIATION_RESULT, Value();
      size := 0;
      StartSize(s, v);
      size := size + NumberSize(U32, selectedEpoch_);
      NumberSized(s, v, 0, 1, U32, selectedEpoch_);
      var n := SelectedCapabilitiesSize();
      size := size + n;
      NextSize(s, v, 1);
      size := size + BlobSize(negotiationHash_);
      BlobSized(s, v, 2, 3, negotiationHash_);
      size := size + UnknownSize(unknownFields);
      SizeIsLength(s, v);
    }

    method SelectedCapabilitiesSize() returns (size: nat)
      requires SelectedCapabilitiesValid()
      ensures size == CellSize(Sub(2, CAPABILITY_SET), S(SelectedCapabilitiesValue()))
    {
      CapabilityTreeWellFormed();
      hide MsgOk, Bytes, WellFormed, VarintSize, CapabilitySet.Valid, CapabilitySet.Value;
      if selectedCapabilities_ == null { return 0; }
      var n := selectedCapabilities_.CalculateSize();
      SizeIsLength(CAPABILITY_SET, selectedCapabilities_.Value());
      return 1 + ComputeLengthSize(n);
    }

    method MergeFrom(other: NegotiationResult)
      requires Valid() && other.Valid()
      modifies this, Held
      ensures Valid() && fresh(Held - old(Held))
      ensures Below == old(Below) + old(other.Below)
      ensures Value() == Merge(NEGOTIATION_RESULT, old(Value()), old(other.Value()))
    {
      hide MsgOk, Merge, Union, UnknownOk, MergedUpto, Newer, NewerBool, NewerBlob, Bit, NewerSub,
        CapabilitySet.Valid, CapabilitySet.Value;
      ghost var s, a, b := NEGOTIATION_RESULT, Value(), other.Value();
      UnionOk(s, unknownFields, other.unknownFields);
      MergePlain(other);
      MergeSelectedCapabilities(other);
      ghost var v := Value();
      assert MergedUpto(s, a, b, v, 2) by {
        StartMerge(s, a, b, v);
        NumberMerged(s, a, b, v, 0, 1, U32, old(selectedEpoch_), old(other.selectedEpoch_));
        SubMerged(s, a, b, v, 1, 2, CAPABILITY_SET, old(SelectedCapabilitiesValue()),
          old(other.SelectedCapabilitiesValue()));
      }
      assert MergedUpto(s, a, b, v, 3) by {
        BlobMerged(s, a, b, v, 2, 3, old(negotiationHash_), old(other.negotiationHash_));
      }
      EndMerge(s, a, b, v);
    }

    /** The fields that are not sub-messages, and the unknown fields. */
    method MergePlain(other: NegotiationResult)
      modifies this`selectedEpoch_, this`negotiationHash_, this`unknownFields
      ensures selectedEpoch_ == Newer(old(selectedEpoch_), old(other.selectedEpoch_))
      ensures negotiationHash_ == NewerBlob(old(negotiationHash_), old(other.negotiationHash_))
      ensures unknownFields == Union(old(unknownFields), old(other.unknownFields))
    {
      if other.selectedEpoch_ != 0 { selectedEpoch_ := other.selectedEpoch_; }
      if |other.negotiationHash_| != 0 { negotiationHash_ := other.negotiationHash_; }
      unknownFields := Union(unknownFields, other.unknownFields);
    }

    method MergeSelectedCapabilities(other: NegotiationResult)
      requires SelectedCapabilitiesValid() && other.SelectedCapabilitiesValid()
      modifies this`selectedCapabilities_, this`Held, this`Below, Held
      ensures SelectedCapabilitiesValid() && fresh(Held - old(Held)) && Below == old(Below) + old(other.Below)
      ensures SelectedCapabilitiesValue() == NewerSub(CAPABILITY_SET, old(SelectedCapabilitiesValue()),
        old(other.SelectedCapabilitiesValue()))
    {
      hide MsgOk, Merge, Empty, CapabilitySet.Valid, CapabilitySet.Value;
      assert Below == Below + {};
      if other.selectedCapabilities_ != null {
        EnsureSelectedCapabilities();
        selectedCapabilities_.MergeFrom(other.selectedCapabilities_);
        Below := selectedCapabilities_.capabilities_.Below;
      }
    }

    method MergeFromStream(input: CodedInputStream) returns (r: Option<()>)
      requires Valid() && input.Valid()
      modifies this, Held, input`pos, input`limit
      ensures Valid() && input.Valid() && fresh(Held - old(Held)) && fresh(Below - old(Below))
      ensures r.None? ==> RunBytes(NEGOTIATION_RESULT, old(Value()), old(input.Rest())).None?
      ensures r.Some? ==> RunBytes(NEGOTIATION_RESULT, old(Value()), old(input.Rest())) == Some(Value())
      ensures r.Some? ==> input.Rest() == [] && input.limit == old(input.limit)
    {
      hide RunBytes, MsgOk, GetTag, GetBody, Rejects, Accepts, UnknownOk, CapabilitySet.Valid, CapabilitySet.Value;
      ghost var s, start := NEGOTIATION_RESULT, RunBytes(NEGOTIATION_RESULT, Value(), input.Rest());
      while true
        invariant Valid() && input.Valid() && input.limit == old(input.limit)
        invariant fresh(Held - old(Held)) && fresh(Below - old(Below))
        invariant RunBytes(s, Value(), input.Rest()) == start
        decreases |input.Rest()|
      {
        ghost var b, m := input.Rest(), Value();
        PassTag(s, m, b);
        var tag :- input.ReadTag();
        if tag == 0 { break; }
        if tag % 8 == 4 { return None; }
        var ok := ReadField(tag, input);
        if ok.None? {
          PassRejected(s, m, b, GetTag(b).value);
          return None;
        }
        PassAccepted(s, m, b, GetTag(b).value, Value(), input.Rest());
      }
      return Some(());
    }

    /** The switch of the parse loop. */
    method ReadField(tag: nat, input: CodedInputStream) returns (r: Option<()>)
      requires Valid() && input.Valid() && 8 <= tag < TWO_32
      modifies this, Held, input`pos, input`limit
      ensures Valid() && input.Valid() && (r.Some? ==> input.limit == old(input.limit))
      ensures fresh(Held - old(Held)) && fresh(Below - old(Below))
      ensures r.None? ==> Rejects(NEGOTIATION_RESULT, old(Value()), tag, old(input.Rest()))
      ensures r.Some? ==> Accepts(NEGOTIATION_RESULT, old(Value()), tag, old(input.Rest()), Value(), input.Rest())
    {
      CapabilityTreeWellFormed();
      hide Rejects, Accepts, MsgOk, WellFormed, GetLen, GetUInt64, GetBody, UnknownOk, Insert, Signed,
        RunBytes, OrEmpty, CapabilitySet.Valid, CapabilitySet.Value;
      ghost var s, m, b := NEGOTIATION_RESULT, Value(), input.Rest();
      if tag == 8 {
        NumberRead(s, m, 0, 1, U32, b);
        selectedEpoch_ :- input.ReadUInt32();
        Updated(m, 0, Value());
        return Some(());
      } else if tag == 18 {
        SubRead(s, m, 1, 2, CAPABILITY_SET, SelectedCapabilitiesValue(), b);
        var _ :- ReadSelectedCapabilities(input);
        Updated(m, 1, Value());
        return Some(());
      } else {
        r := ReadField2(tag, input);
      }
    }

    /** The rest of the switch. */
    method ReadField2(tag: nat, input: CodedInputStream) returns (r: Option<()>)
      requires Valid() && input.Valid() && 8 <= tag < TWO_32
      requires tag !in {8, 18}
      modifies this, Held, input`pos, input`limit
      ensures Valid() && input.Valid() && (r.Some? ==> input.limit == old(input.limit))
      ensures fresh(Held - old(Held)) && fresh(Below - old(Below))
      ensures r.None? ==> Rejects(NEGOTIATION_RESULT, old(Value()), tag, old(input.Rest()))
      ensures r.Some? ==> Accepts(NEGOTIATION_RESULT, old(Value()), tag, old(input.Rest()), Value(), input.Rest())
    {
      CapabilityTreeWellFormed();
      hide Rejects, Accepts, MsgOk, WellFormed, GetLen, GetUInt64, GetBody, UnknownOk, Insert, Signed,
        RunBytes, OrEmpty, CapabilitySet.Valid, CapabilitySet.Value;
      ghost var s, m, b := NEGOTIATION_RESULT, Value(), input.Rest();
      if tag == 26 {
        BlobRead(s, m, 2, 3, b);
        negotiationHash_ :- input.ReadBytes();
        Updated(m, 2, Value());
        return Some(());
      } else {
        r := ReadUnknown(tag, input);
      }
    }

    /** The default label. */
    method ReadUnknown(tag: nat, input: CodedInputStream) returns (r: Option<()>)
      requires Valid() && input.Valid() && 8 <= tag < TWO_32
      requires tag !in {8, 18, 26}
      modifies this, Held, input`pos, input`limit
      ensures Valid() && input.Valid() && (r.Some? ==> input.limit == old(input.limit))
      ensures fresh(Held - old(Held)) && fresh(Below - old(Below))
      ensures r.None? ==> Rejects(NEGOTIATION_RESULT, old(Value()), tag, old(input.Rest()))
      ensures r.Some? ==> Accepts(NEGOTIATION_RESULT, old(Value()), tag, old(input.Rest()), Value(), input.Rest())
    {
      CapabilityTreeWellFormed();
      hide Rejects, Accepts, MsgOk, WellFormed, GetLen, GetUInt64, GetBody, UnknownOk, Insert, Signed,
        RunBytes, OrEmpty, NoLabel, CapabilitySet.Valid, CapabilitySet.Value;
      ghost var s, m, b := NEGOTIATION_RESULT, Value(), input.Rest();
      Unlabelled(tag);
      DefaultRead(s, m, tag, b);
      var p :- input.ReadUnknown(tag);
      unknownFields := Insert(unknownFields, Rec(tag / 8, p));
      return Some(());
    }

    /** A tag that is none of the case labels. */
    static lemma Unlabelled(tag: nat)
      requires tag !in {8, 18, 26}
      ensures |NEGOTIATION_RESULT.cells| <= 14 && NoLabel(NEGOTIATION_RESULT, tag)
    {
    }

    /** A new sub-message if none is held. */
    method EnsureSelectedCapabilities()
      requires SelectedCapabilitiesValid()
      modifies this`selectedCapabilities_, this`Held, this`Below
      ensures SelectedCapabilitiesValid() && selectedCapabilities_ != null && fresh(Held - old(Held))
        && Below == old(Below)
      ensures selectedCapabilities_.Value() == OrEmpty(CAPABILITY_SET, old(SelectedCapabilitiesValue()))
    {
      hide MsgOk, Empty, CapabilitySet.Valid, CapabilitySet.Value;
      if selectedCapabilities_ == null {
        selectedCapabilities_ := new CapabilitySet();
        Held, Below := {selectedCapabilities_, selectedCapabilities_.capabilities_},
          selectedCapabilities_.capabilities_.Below;
      }
    }

    /** Parse a record of the field into the sub-message held, or a new one. */
    method ReadSelectedCapabilities(input: CodedInputStream) returns (r: Option<()>)
      requires SelectedCapabilitiesValid() && input.Valid()
      modifies this`selectedCapabilities_, this`Held, this`Below, Held, input`pos, input`limit
      ensures SelectedCapabilitiesValid() && input.Valid() && fresh(Held - old(Held)) && fresh(Below - old(Below))
      ensures r.Some? ==> input.limit == old(input.limit)
      ensures SubParsed(CAPABILITY_SET, OrEmpty(CAPABILITY_SET, old(SelectedCapabilitiesValue())),
        old(input.Rest()), r,
                        SelectedCapabilitiesValue(), input.Rest())
    {
      hide MsgOk, RunBytes, GetLen, Empty, CapabilitySet.Valid, CapabilitySet.Value;
      EnsureSelectedCapabilities();
      var outer :- input.PushLimit();
      var ok := selectedCapabilities_.MergeFromStream(input);
      Below := selectedCapabilities_.capabilities_.Below;
      if ok.None? { return None; }
      input.PopLimit(outer);
      return Some(());
    }
  }
}
