/** common.proto: addresses, the sender's proof and the message metadata. */
module Common {
  import opened Seqs
  import opened Wire
  import opened Unknown
  import opened Codec
  import opened Refinement
  import opened Sizes
  import opened Schemas
  import opened Streams
  import opened Classes
  import opened Repeated

  /** An IPv4 address. */
  class IPv4Address {
    var octets_: seq<byte>
    var unknownFields: seq<Rec>

    ghost predicate Valid()
      reads this
    {
      UnknownOk(IPV4_ADDRESS, unknownFields)
    }

    ghost function Value(): (m: Msg)
      requires Valid()
      reads this
      ensures MsgOk(IPV4_ADDRESS, m)
    {
      Msg([V(B(octets_))], unknownFields)
    }

    constructor ()
      ensures Valid() && Value() == Empty(IPV4_ADDRESS)
    {
      octets_, unknownFields := [], [];
    }

    /** Clone: the copy constructor. */
    constructor Clone(other: IPv4Address)
      requires other.Valid()
      ensures Valid() && Value() == other.Value()
    {
      octets_, unknownFields := other.octets_, other.unknownFields;
    }

    method WriteTo(output: CodedOutputStream)
      requires Valid()
      modifies output
      ensures output.buf == old(output.buf) + Bytes(IPV4_ADDRESS, Value())
    {
      hide Upto, MsgOk, Bytes, PutRecs, PutVarint, ToWire, UnknownOk;
      ghost var s, v, base := IPV4_ADDRESS, Value(), output.buf;
      StartWrite(s, v, base);
      WriteBlob(output, 10, octets_, s, v, 0, base);
      ghost var done := output.buf;
      output.WriteUnknown(unknownFields);
      EndWrite(s, v, base, done, output.buf);
    }

    method CalculateSize() returns (size: nat)
      requires Valid()
      ensures size == |Bytes(IPV4_ADDRESS, Value())|
    {
      AddressesWellFormed();
      hide MsgOk, Bytes, WellFormed, PrefixSize, VarintSize, UnknownOk, NumberSize, BlobSize;
      ghost var s, v := IPV4_ADDRESS, Value();
      size := 0;
      StartSize(s, v);
      size := size + BlobSize(octets_);
      BlobSized(s, v, 0, 1, octets_);
      size := size + UnknownSize(unknownFields);
      SizeIsLength(s, v);
    }

    method MergeFrom(other: IPv4Address)
      requires Valid() && other.Valid()
      modifies this
      ensures Valid()
      ensures Value() == Merge(IPV4_ADDRESS, old(Value()), old(other.Value()))
    {
      hide MsgOk, Merge, Union, UnknownOk, MergedUpto, Newer, NewerBool, NewerBlob, Bit;
      ghost var s, a, b := IPV4_ADDRESS, Value(), other.Value();
      UnionOk(s, unknownFields, other.unknownFields);
      MergeScalars(other);
      unknownFields := Union(unknownFields, other.unknownFields);
      ghost var v := Value();
      StartMerge(s, a, b, v);
      BlobMerged(s, a, b, v, 0, 1, old(octets_), old(other.octets_));
      EndMerge(s, a, b, v);
    }

    method MergeScalars(other: IPv4Address)
      modifies this`octets_
      ensures octets_ == NewerBlob(old(octets_), old(other.octets_))
    {
      if |other.octets_| != 0 { octets_ := other.octets_; }
    }

    method MergeFromStream(input: CodedInputStream) returns (r: Option<()>)
      requires Valid() && input.Valid()
      modifies this, input`pos, input`limit
      ensures Valid() && input.Valid()
      ensures r.None? ==> RunBytes(IPV4_ADDRESS, old(Value()), old(input.Rest())).None?
      ensures r.Some? ==> RunBytes(IPV4_ADDRESS, old(Value()), old(input.Rest())) == Some(Value())
      ensures r.Some? ==> input.Rest() == [] && input.limit == old(input.limit)
    {
      hide RunBytes, MsgOk, GetTag, GetBody, Rejects, Accepts, UnknownOk;
      ghost var s, start := IPV4_ADDRESS, RunBytes(IPV4_ADDRESS, Value(), input.Rest());
      while true
        invariant Valid() && input.Valid() && input.limit == old(input.limit)
        invariant RunBytes(s, Value(), input.Rest()) == start
        decreases |input.Rest()|
      {
        ghost var b, m := input.Rest(), Value();
        PassTag(s, m, b);
        var tag :- input.ReadTag();
        if tag == 0 { break; }
        if tag % 8 == 4 { return None; }
        var ok := ReadField(tag, input);
        if ok.None? {
          PassRejected(s, m, b, GetTag(b).value);
          return None;
        }
        PassAccepted(s, m, b, GetTag(b).value, Value(), input.Rest());
      }
      return Some(());
    }

    /** The switch of the parse loop. */
    method ReadField(tag: nat, input: CodedInputStream) returns (r: Option<()>)
      requires Valid() && input.Valid() && 8 <= tag < TWO_32
      modifies this, input`pos, input`limit
      ensures Valid() && input.Valid() && (r.Some? ==> input.limit == old(input.limit))
      ensures r.None? ==> Rejects(IPV4_ADDRESS, old(Value()), tag, old(input.Rest()))
      ensures r.Some? ==> Accepts(IPV4_ADDRESS, old(Value()), tag, old(input.Rest()), Value(), input.Rest())
    {
      AddressesWellFormed();
      hide Rejects, Accepts, MsgOk, WellFormed, GetLen, GetUInt64, GetBody, UnknownOk, Insert, Signed;
      ghost var s, m, b := IPV4_ADDRESS, Value(), input.Rest();
      if tag == 10 {
        BlobRead(s, m, 0, 1, b);
        octets_ :- input.ReadBytes();
        Updated(m, 0, Value());
        return Some(());
      } else {
        DefaultRead(s, m, tag, b);
        var p :- input.ReadUnknown(tag);
        unknownFields := Insert(unknownFields, Rec(tag / 8, p));
        return Some(());
      }
    }
  }

  /** An IPv6 address with its zone. */
  class IPv6Address {
    var octets_: seq<byte>
    var zoneIndex_: uint
    var unknownFields: seq<Rec>

    ghost predicate Valid()
      reads this
    {
      UnknownOk(IPV6_ADDRESS, unknownFields)
    }

    ghost function Value(): (m: Msg)
      requires Valid()
      reads this
      ensures MsgOk(IPV6_ADDRESS, m)
    {
      Msg([V(B(octets_)), V(N(zoneIndex_))], unknownFields)
    }

    constructor ()
      ensures Valid() && Value() == Empty(IPV6_ADDRESS)
    {
      octets_, zoneIndex_, unknownFields := [], 0, [];
    }

    /** Clone: the copy constructor. */
    constructor Clone(other: IPv6Address)
      requires other.Valid()
      ensures Valid() && Value() == other.Value()
    {
      octets_, zoneIndex_, unknownFields := other.octets_, other.zoneIndex_, other.unknownFields;
    }

    method WriteTo(output: CodedOutputStream)
      requires Valid()
      modifies output
      ensures output.buf == old(output.buf) + Bytes(IPV6_ADDRESS, Value())
    {
      hide Upto, MsgOk, Bytes, PutRecs, PutVarint, ToWire, UnknownOk;
      ghost var s, v, base := IPV6_ADDRESS, Value(), output.buf;
      StartWrite(s, v, base);
      WriteBlob(output, 10, octets_, s, v, 0, base);
      WriteNumber(output, 16, U32, zoneIndex_, s, v, 1, base);
      ghost var done := output.buf;
      output.WriteUnknown(unknownFields);
      EndWrite(s, v, base, done, output.buf);
    }

    method CalculateSize() returns (size: nat)
      requires Valid()
      ensures size == |Bytes(IPV6_ADDRESS, Value())|
    {
      AddressesWellFormed();
      hide MsgOk, Bytes, WellFormed, PrefixSize, VarintSize, UnknownOk, NumberSize, BlobSize;
      ghost var s, v := IPV6_ADDRESS, Value();
      size := 0;
      StartSize(s, v);
      size := size + BlobSize(octets_);
      BlobSized(s, v, 0, 1, octets_);
      size := size + NumberSize(U32, zoneIndex_);
      NumberSized(s, v, 1, 2, U32, zoneIndex_);
      size := size + UnknownSize(unknownFields);
      SizeIsLength(s, v);
    }

    method MergeFrom(other: IPv6Address)
      requires Valid() && other.Valid()
      modifies this
      ensures Valid()
      ensures Value() == Merge(IPV6_ADDRESS, old(Value()), old(other.Value()))
    {
      hide MsgOk, Merge, Union, UnknownOk, MergedUpto, Newer, NewerBool, NewerBlob, Bit;
      ghost var s, a, b := IPV6_ADDRESS, Value(), other.Value();
      UnionOk(s, unknownFields, other.unknownFields);
      MergeScalars(other);
      unknownFields := Union(unknownFields, other.unknownFields);
      ghost var v := Value();
      StartMerge(s, a, b, v);
      BlobMerged(s, a, b, v, 0, 1, old(octets_), old(other.octets_));
      NumberMerged(s, a, b, v, 1, 2, U32, old(zoneIndex_), old(other.zoneIndex_));
      EndMerge(s, a, b, v);
    }

    method MergeScalars(other: IPv6Address)
      modifies this`octets_, this`zoneIndex_
      ensures octets_ == NewerBlob(old(octets_), old(other.octets_))
      ensures zoneIndex_ == Newer(old(zoneIndex_), old(other.zoneIndex_))
    {
      if |other.octets_| != 0 { octets_ := other.octets_; }
      if other.zoneIndex_ != 0 { zoneIndex_ := other.zoneIndex_; }
    }

    method MergeFromStream(input: CodedInputStream) returns (r: Option<()>)
      requires Valid() && input.Valid()
      modifies this, input`pos, input`limit
      ensures Valid() && input.Valid()
      ensures r.None? ==> RunBytes(IPV6_ADDRESS, old(Value()), old(input.Rest())).None?
      ensures r.Some? ==> RunBytes(IPV6_ADDRESS, old(Value()), old(input.Rest())) == Some(Value())
      ensures r.Some? ==> input.Rest() == [] && input.limit == old(input.limit)
    {
      hide RunBytes, MsgOk, GetTag, GetBody, Rejects, Accepts, UnknownOk;
      ghost var s, start := IPV6_ADDRESS, RunBytes(IPV6_ADDRESS, Value(), input.Rest());
      while true
        invariant Valid() && input.Valid() && input.limit == old(input.limit)
        invariant RunBytes(s, Value(), input.Rest()) == start
        decreases |input.Rest()|
      {
        ghost var b, m := input.Rest(), Value();
        PassTag(s, m, b);
        var tag :- input.ReadTag();
        if tag == 0 { break; }
        if tag % 8 == 4 { return None; }
        var ok := ReadField(tag, input);
        if ok.None? {
          PassRejected(s, m, b, GetTag(b).value);
          return None;
        }
        PassAccepted(s, m, b, GetTag(b).value, Value(), input.Rest());
      }
      return Some(());
    }

    /** The switch of the parse loop. */
    method ReadField(tag: nat, input: CodedInputStream) returns (r: Option<()>)
      requires Valid() && input.Valid() && 8 <= tag < TWO_32
      modifies this, input`pos, input`limit
      ensures Valid() && input.Valid() && (r.Some? ==> input.limit == old(input.limit))
      ensures r.None? ==> Rejects(IPV6_ADDRESS, old(Value()), tag, old(input.Rest()))
      ensures r.Some? ==> Accepts(IPV6_ADDRESS, old(Value()), tag, old(input.Rest()), Value(), input.Rest())
    {
      AddressesWellFormed();
      hide Rejects, Accepts, MsgOk, WellFormed, GetLen, GetUInt64, GetBody, UnknownOk, Insert, Signed;
      ghost var s, m, b := IPV6_ADDRESS, Value(), input.Rest();
      if tag == 10 {
        BlobRead(s, m, 0, 1, b);
        octets_ :- input.ReadBytes();
        Updated(m, 0, Value());
        return Some(());
      } else if tag == 16 {
        NumberRead(s, m, 1, 2, U32, b);
        zoneIndex_ :- input.ReadUInt32();
        Updated(m, 1, Value());
        return Some(());
      } else {
        DefaultRead(s, m, tag, b);
        var p :- input.ReadUnknown(tag);
        unknownFields := Insert(unknownFields, Rec(tag / 8, p));
        return Some(());
      }
    }
  }

  /** RepeatedField of IPv4Address: a list object of element objects. */
  class IPv4AddressList {
    var items: seq<IPv4Address>
    ghost var Contents: seq<Msg>    // the values of the elements
    ghost var Below: set<object>    // the elements and the objects below them

    /** The element with all its objects is below the list, and its value is `m`. */
    ghost predicate Holds(e: IPv4Address, m: Msg)
      reads this`Below, Below
    {
      e in Below && e.Valid() && e.Value() == m
    }

    ghost predicate Valid()
      reads this, Below
      ensures Valid() ==> ElementsOk(IPV4_ADDRESS, Contents)
      ensures Valid() ==> forall o: object :: o in Below ==> o is IPv4Address
    {
      && |Contents| == |items|
      && (forall i :: 0 <= i < |items| ==> Holds(items[i], Contents[i]))
      && (forall o: object :: o in Below ==> o is IPv4Address)
    }

    constructor ()
      ensures Valid() && Contents == [] && Below == {}
    {
      items, Contents, Below := [], [], {};
    }

    /** Clone: a new list of a clone of each element. */
    constructor Clone(other: IPv4AddressList)
      requires other.Valid()
      ensures Valid() && fresh(Below) && Contents == other.Contents
    {
      items, Contents, Below := [], [], {};
      new;
      hide IPv4Address.Valid, IPv4Address.Value, ElementsOk, MsgOk;
      for i := 0 to |other.items|
        invariant Valid() && fresh(Below) && Contents == other.Contents[..i]
      {
        assert other.Holds(other.items[i], other.Contents[i]);
        var e := new IPv4Address.Clone(other.items[i]);
        Append(e);
      }
    }

    method Append(e: IPv4Address)
      requires Valid() && e.Valid()
      modifies this
      ensures Valid() && Contents == old(Contents) + [old(e.Value())]
      ensures Below == old(Below + {e})
    {
      hide IPv4Address.Valid, IPv4Address.Value, ElementsOk, MsgOk;
      items, Contents, Below := items + [e], Contents + [e.Value()], Below + {e};
    }

    /** Add(other): the elements of the other list, shared. */
    method Add(other: IPv4AddressList)
      requires Valid() && other.Valid()
      modifies this
      ensures Valid() && Contents == old(Contents) + old(other.Contents) && Below == old(Below) + old(other.Below)
    {
      hide IPv4Address.Valid, IPv4Address.Value, ElementsOk, MsgOk;
      items, Contents, Below := items + other.items, Contents + other.Contents, Below + other.Below;
    }

    /** WriteTo: each element writes itself behind its tag and length. */
    method WriteTo(output: CodedOutputStream, tag: nat, ghost s: Schema, ghost m: Msg, ghost k: nat,
                   ghost base: seq<byte>)
      requires Valid() && MsgOk(s, m) && k < |s.cells| && Upto(s, m, k, base, output.buf)
      requires tag < 128 && tag % 8 == 2 && s.cells[k] == Msgs(tag / 8, IPV4_ADDRESS) && m.cells[k] == Ms(Contents)
      modifies output
      ensures Upto(s, m, k + 1, base, output.buf)
    {
      ghost var before := output.buf;
      WriteElements(output, tag, tag / 8);
      hide Upto, MsgOk, PutRecs, SubRecs, Valid;
      MsgsWritten(s, m, k, tag / 8, IPV4_ADDRESS, base, before, output.buf);
    }

    method WriteElements(output: CodedOutputStream, tag: nat, num: nat)
      requires Valid() && num <= 15 && tag == 8 * num + 2
      modifies output
      ensures output.buf == old(output.buf) + PutRecs(SubRecs(num, IPV4_ADDRESS, Contents))
    {
      hide PutRecs, PutRec, SubRecs, PutVarint, Bytes, MsgOk, IPv4Address.Valid, IPv4Address.Value;
      ghost var t, base, rs := IPV4_ADDRESS, output.buf, SubRecs(num, IPV4_ADDRESS, Contents);
      NoRecs(base, rs);
      SubRecsAt(num, t, Contents, 0);
      for i := 0 to |items|
        invariant Valid() && |rs| == |items| && output.buf == base + PutRecs(rs[..i])
      {
        SubRecsAt(num, t, Contents, i);
        assert Holds(items[i], Contents[i]);
        ghost var done := output.buf;
        output.WriteRawTag(tag);
        var size := items[i].CalculateSize();
        output.WriteVarint(size);
        items[i].WriteTo(output);
        LenWritten(done + PutVarint(tag), Bytes(t, Contents[i]));
        Emitted(done, Rec(num, Len(Bytes(t, Contents[i]))));
        Grow(base, done, rs, i);
      }
    }

    /** CalculateSize: each element's own size with its tag and length. */
    method CalculateSize() returns (size: nat)
      requires Valid()
      ensures size == MessagesSize(IPV4_ADDRESS, Contents)
    {
      AddressesWellFormed();
      hide MessagesSize, MsgOk, Bytes, WellFormed, IPv4Address.Valid, IPv4Address.Value;
      ghost var t := IPV4_ADDRESS;
      size := 0;
      MessagesSizeAt(t, Contents, 0);
      for i := 0 to |items|
        invariant size == MessagesSize(t, Contents[..i])
      {
        MessagesSizeAt(t, Contents, i + 1);
        assert Holds(items[i], Contents[i]);
        var n := items[i].CalculateSize();
        SizeIsLength(t, Contents[i]);
        size := size + 1 + ComputeLengthSize(n);
      }
      assert Contents[..|items|] == Contents;
    }

    /** AddEntriesFrom: one record, parsed into a new element. */
    method AddEntry(input: CodedInputStream) returns (r: Option<()>)
      requires Valid() && input.Valid()
      modifies this, input`pos, input`limit
      ensures Valid() && input.Valid() && fresh(Below - old(Below)) && (r.Some? ==> input.limit == old(input.limit))
      ensures r.None? ==> Contents == old(Contents)
      ensures r.Some? ==> Contents != [] && Contents == old(Contents) + [Contents[|Contents| - 1]]
      ensures MsgOk(IPV4_ADDRESS, Empty(IPV4_ADDRESS))
      ensures SubParsed(IPV4_ADDRESS, Empty(IPV4_ADDRESS), old(input.Rest()), r,
                if r.None? then None else Some(Contents[|Contents| - 1]), input.Rest())
    {
      EmptyOk(IPV4_ADDRESS);
      hide MsgOk, RunBytes, GetLen, Empty, ElementsOk, IPv4Address.Valid, IPv4Address.Value;
      var e := new IPv4Address();
      var outer :- input.PushLimit();
      var _ :- e.MergeFromStream(input);
      input.PopLimit(outer);
      Append(e);
      return Some(());
    }
  }

  /** RepeatedField of IPv6Address: a list object of element objects. */
  class IPv6AddressList {
    var items: seq<IPv6Address>
    ghost var Contents: seq<Msg>    // the values of the elements
    ghost var Below: set<object>    // the elements and the objects below them

    /** The element with all its objects is below the list, and its value is `m`. */
    ghost predicate Holds(e: IPv6Address, m: Msg)
      reads this`Below, Below
    {
      e in Below && e.Valid() && e.Value() == m
    }

    ghost predicate Valid()
      reads this, Below
      ensures Valid() ==> ElementsOk(IPV6_ADDRESS, Contents)
      ensures Valid() ==> forall o: object :: o in Below ==> o is IPv6Address
    {
      && |Contents| == |items|
      && (forall i :: 0 <= i < |items| ==> Holds(items[i], Contents[i]))
      && (forall o: object :: o in Below ==> o is IPv6Address)
    }

    constructor ()
      ensures Valid() && Contents == [] && Below == {}
    {
      items, Contents, Below := [], [], {};
    }

    /** Clone: a new list of a clone of each element. */
    constructor Clone(other: IPv6AddressList)
      requires other.Valid()
      ensures Valid() && fresh(Below) && Contents == other.Contents
    {
      items, Contents, Below := [], [], {};
      new;
      hide IPv6Address.Valid, IPv6Address.Value, ElementsOk, MsgOk;
      for i := 0 to |other.items|
        invariant Valid() && fresh(Below) && Contents == other.Contents[..i]
      {
        assert other.Holds(other.items[i], other.Contents[i]);
        var e := new IPv6Address.Clone(other.items[i]);
        Append(e);
      }
    }

    method Append(e: IPv6Address)
      requires Valid() && e.Valid()
      modifies this
      ensures Valid() && Contents == old(Contents) + [old(e.Value())]
      ensures Below == old(Below + {e})
    {
      hide IPv6Address.Valid, IPv6Address.Value, ElementsOk, MsgOk;
      items, Contents, Below := items + [e], Contents + [e.Value()], Below + {e};
    }

    /** Add(other): the elements of the other list, shared. */
    method Add(other: IPv6AddressList)
      requires Valid() && other.Valid()
      modifies this
      ensures Valid() && Contents == old(Contents) + old(other.Contents) && Below == old(Below) + old(other.Below)
    {
      hide IPv6Address.Valid, IPv6Address.Value, ElementsOk, MsgOk;
      items, Contents, Below := items + other.items, Contents + other.Contents, Below + other.Below;
    }

    /** WriteTo: each element writes itself behind its tag and length. */
    method WriteTo(output: CodedOutputStream, tag: nat, ghost s: Schema, ghost m: Msg, ghost k: nat,
                   ghost base: seq<byte>)
      requires Valid() && MsgOk(s, m) && k < |s.cells| && Upto(s, m, k, base, output.buf)
      requires tag < 128 && tag % 8 == 2 && s.cells[k] == Msgs(tag / 8, IPV6_ADDRESS) && m.cells[k] == Ms(Contents)
      modifies output
      ensures Upto(s, m, k + 1, base, output.buf)
    {
      ghost var before := output.buf;
      WriteElements(output, tag, tag / 8);
      hide Upto, MsgOk, PutRecs, SubRecs, Valid;
      MsgsWritten(s, m, k, tag / 8, IPV6_ADDRESS, base, before, output.buf);
    }

    method WriteElements(output: CodedOutputStream, tag: nat, num: nat)
      requires Valid() && num <= 15 && tag == 8 * num + 2
      modifies output
      ensures output.buf == old(output.buf) + PutRecs(SubRecs(num, IPV6_ADDRESS, Contents))
    {
      hide PutRecs, PutRec, SubRecs, PutVarint, Bytes, MsgOk, IPv6Address.Valid, IPv6Address.Value;
      ghost var t, base, rs := IPV6_ADDRESS, output.buf, SubRecs(num, IPV6_ADDRESS, Contents);
      NoRecs(base, rs);
      SubRecsAt(num, t, Contents, 0);
      for i := 0 to |items|
        invariant Valid() && |rs| == |items| && output.buf == base + PutRecs(rs[..i])
      {
        SubRecsAt(num, t, Contents, i);
        assert Holds(items[i], Contents[i]);
        ghost var done := output.buf;
        output.WriteRawTag(tag);
        var size := items[i].CalculateSize();
        output.WriteVarint(size);
        items[i].WriteTo(output);
        LenWritten(done + PutVarint(tag), Bytes(t, Contents[i]));
        Emitted(done, Rec(num, Len(Bytes(t, Contents[i]))));
        Grow(base, done, rs, i);
      }
    }

    /** CalculateSize: each element's own size with its tag and length. */
    method CalculateSize() returns (size: nat)
      requires Valid()
      ensures size == MessagesSize(IPV6_ADDRESS, Contents)
    {
      AddressesWellFormed();
      hide MessagesSize, MsgOk, Bytes, WellFormed, IPv6Address.Valid, IPv6Address.Value;
      ghost var t := IPV6_ADDRESS;
      size := 0;
      MessagesSizeAt(t, Contents, 0);
      for i := 0 to |items|
        invariant size == MessagesSize(t, Contents[..i])
      {
        MessagesSizeAt(t, Contents, i + 1);
        assert Holds(items[i], Contents[i]);
        var n := items[i].CalculateSize();
        SizeIsLength(t, Contents[i]);
        size := size + 1 + ComputeLengthSize(n);
      }
      assert Contents[..|items|] == Contents;
    }

    /** AddEntriesFrom: one record, parsed into a new element. */
    method AddEntry(input: CodedInputStream) returns (r: Option<()>)
      requires Valid() && input.Valid()
      modifies this, input`pos, input`limit
      ensures Valid() && input.Valid() && fresh(Below - old(Below)) && (r.Some? ==> input.limit == old(input.limit))
      ensures r.None? ==> Contents == old(Contents)
      ensures r.Some? ==> Contents != [] && Contents == old(Contents) + [Contents[|Contents| - 1]]
      ensures MsgOk(IPV6_ADDRESS, Empty(IPV6_ADDRESS))
      ensures SubParsed(IPV6_ADDRESS, Empty(IPV6_ADDRESS), old(input.Rest()), r,
                if r.None? then None else Some(Contents[|Contents| - 1]), input.Rest())
    {
      EmptyOk(IPV6_ADDRESS);
      hide MsgOk, RunBytes, GetLen, Empty, ElementsOk, IPv6Address.Valid, IPv6Address.Value;
      var e := new IPv6Address();
      var outer :- input.PushLimit();
      var _ :- e.MergeFromStream(input);
      input.PopLimit(outer);
      Append(e);
      return Some(());
    }
  }

  datatype AddressOneof =
    | AddressNone
    | V4(v4: IPv4Address)
    | V6(v6: IPv6Address)

  datatype AddressCase = AddressNoneCase | V4Case | V6Case

  /** An address of either family: a oneof of two messages. */
  class IPAddress {
    var address_: AddressOneof
    var addressCase_: AddressCase
    var unknownFields: seq<Rec>
    ghost var Held: set<object>    // the sub-message held, with its own objects

    /** The case agrees with the boxed value. */
    ghost predicate AddressValid()
      reads this`address_, this`addressCase_, this`Held, Held
    {
      && (address_.AddressNone? <==> addressCase_.AddressNoneCase?)
      && (address_.V4? <==> addressCase_.V4Case?)
      && (address_.V6? <==> addressCase_.V6Case?)
      && (address_.V4? ==>
            && address_.v4 in Held
            && Held == {address_.v4}
            && address_.v4.Valid())
      && (address_.V6? ==>
            && address_.v6 in Held
            && Held == {address_.v6}
            && address_.v6.Valid())
      && (address_.V4? || address_.V6? || Held == {})
      && this !in Held
    }

    ghost function AddressContent(): (c: Cont)
      requires AddressValid()
      reads this`address_, this`addressCase_, this`Held, Held
      ensures CellOk(Alt(ADDRESS_ARMS), c)
    {
      match address_
      case AddressNone => Unset
      case V4(sub) => PickM(0, sub.Value())
      case V6(sub) => PickM(1, sub.Value())
    }

    ghost predicate Valid()
      reads this, Held
      ensures Valid() ==> forall o: object :: o in Held ==> o is IPv4Address || o is IPv6Address
    {
      AddressValid() && UnknownOk(IP_ADDRESS, unknownFields)
    }

    ghost function Value(): (m: Msg)
      requires Valid()
      reads this, Held
      ensures MsgOk(IP_ADDRESS, m)
    {
      Msg([AddressContent()], unknownFields)
    }

    constructor ()
      ensures Valid() && fresh(Held) && Value() == Empty(IP_ADDRESS)
    {
      address_, addressCase_, unknownFields, Held := AddressNone, AddressNoneCase, [], {};
    }

    /** Clone: the copy constructor. */
    constructor Clone(other: IPAddress)
      requires other.Valid()
      ensures Valid() && fresh(Held) && Value() == other.Value()
    {
      address_, addressCase_, unknownFields, Held := AddressNone, AddressNoneCase, other.unknownFields, {};
      new;
      hide MsgOk, UnknownOk, IPv4Address.Valid, IPv6Address.Valid, IPv4Address.Value, IPv6Address.Value;
      CopyAddress(other);
    }

    method SetV4(v4: IPv4Address)
      modifies this`address_, this`addressCase_, this`Held
      ensures address_ == V4(v4) && addressCase_ == V4Case && Held == {v4}
    {
      address_, addressCase_, Held := V4(v4), V4Case, {v4};
    }

    method SetV6(v6: IPv6Address)
      modifies this`address_, this`addressCase_, this`Held
      ensures address_ == V6(v6) && addressCase_ == V6Case && Held == {v6}
    {
      address_, addressCase_, Held := V6(v6), V6Case, {v6};
    }

    /** The switch of the copy constructor. */
    method CopyAddress(other: IPAddress)
      requires address_.AddressNone? && AddressValid() && other.AddressValid()
      modifies this`address_, this`addressCase_, this`Held
      ensures AddressValid() && fresh(Held) && AddressContent() == other.AddressContent()
    {
      hide MsgOk, UnknownOk, IPv4Address.Valid, IPv6Address.Valid, IPv4Address.Value, IPv6Address.Value;
      if other.addressCase_ == V4Case {
        var copy := new IPv4Address.Clone(other.address_.v4);
        SetV4(copy);
      } else if other.addressCase_ == V6Case {
        var copy := new IPv6Address.Clone(other.address_.v6);
        SetV6(copy);
      }
    }

    method WriteTo(output: CodedOutputStream)
      requires Valid()
      modifies output
      ensures output.buf == old(output.buf) + Bytes(IP_ADDRESS, Value())
    {
      hide Upto, MsgOk, Bytes, PutRecs, PutVarint, ToWire, UnknownOk, IPv4Address.Valid, IPv6Address.Valid,
        IPv4Address.Value, IPv6Address.Value;
      ghost var s, v, base := IP_ADDRESS, Value(), output.buf;
      StartWrite(s, v, base);
      WriteAddress(output, s, v, base);
      ghost var done := output.buf;
      output.WriteUnknown(unknownFields);
      EndWrite(s, v, base, done, output.buf);
    }

    method WriteAddress(output: CodedOutputStream, ghost s: Schema, ghost m: Msg, ghost base: seq<byte>)
      requires AddressValid() && MsgOk(s, m) && 0 < |s.cells| && s.cells[0] == Alt(ADDRESS_ARMS)
      requires m.cells[0] == AddressContent() && Upto(s, m, 0, base, output.buf)
      modifies output
      ensures Upto(s, m, 1, base, output.buf)
    {
      hide Upto, MsgOk, Bytes, PutVarint, ToWire, UnknownOk, IPv4Address.Valid, IPv6Address.Valid,
        IPv4Address.Value, IPv6Address.Value;
      ghost var before := output.buf;
      if addressCase_ == V4Case {
        output.WriteRawTag(10);
        var size := address_.v4.CalculateSize();
        output.WriteVarint(size);
        address_.v4.WriteTo(output);
        LenWritten(before + PutVarint(10), Bytes(IPV4_ADDRESS, address_.v4.Value()));
      } else if addressCase_ == V6Case {
        output.WriteRawTag(18);
        var size := address_.v6.CalculateSize();
        output.WriteVarint(size);
        address_.v6.WriteTo(output);
        LenWritten(before + PutVarint(18), Bytes(IPV6_ADDRESS, address_.v6.Value()));
      }
      AltWritten(s, m, 0, ADDRESS_ARMS, base, before, output.buf);
    }

    method CalculateSize() returns (size: nat)
      requires Valid()
      ensures size == |Bytes(IP_ADDRESS, Value())|
    {
      AddressesWellFormed();
      hide MsgOk, Bytes, WellFormed, PrefixSize, VarintSize, UnknownOk, IPv4Address.Valid, IPv6Address.Valid,
        IPv4Address.Value, IPv6Address.Value;
      ghost var s, v := IP_ADDRESS, Value();
      size := 0;
      StartSize(s, v);
      var n := AddressSize();
      size := size + n;
      NextSize(s, v, 0);
      size := size + UnknownSize(unknownFields);
      SizeIsLength(s, v);
    }

    method AddressSize() returns (size: nat)
      requires AddressValid()
      ensures size == CellSize(Alt(ADDRESS_ARMS), AddressContent())
    {
      AddressesWellFormed();
      hide MsgOk, Bytes, WellFormed, VarintSize, IPv4Address.Valid, IPv6Address.Valid, IPv4Address.Value,
        IPv6Address.Value;
      size := 0;
      if addressCase_ == V4Case {
        var n := address_.v4.CalculateSize();
        SizeIsLength(IPV4_ADDRESS, address_.v4.Value());
        size := size + 1 + ComputeLengthSize(n);
      } else if addressCase_ == V6Case {
        var n := address_.v6.CalculateSize();
        SizeIsLength(IPV6_ADDRESS, address_.v6.Value());
        size := size + 1 + ComputeLengthSize(n);
      }
    }

    method MergeFrom(other: IPAddress)
      requires Valid() && other.Valid()
      modifies this, Held
      ensures Valid() && fresh(Held - old(Held))
      ensures Value() == Merge(IP_ADDRESS, old(Value()), old(other.Value()))
    {
      hide MsgOk, Merge, Union, UnknownOk, MergedUpto, CellMerge, CellOk, IPv4Address.Valid, IPv6Address.Valid,
        IPv4Address.Value, IPv6Address.Value;
      ghost var s, a, b := IP_ADDRESS, Value(), other.Value();
      UnionOk(s, unknownFields, other.unknownFields);
      unknownFields := Union(unknownFields, other.unknownFields);
      MergeAddress(other);
      ghost var v := Value();
      StartMerge(s, a, b, v);
      AltMerged(s, a, b, v, 0, ADDRESS_ARMS, old(AddressContent()), old(other.AddressContent()));
      EndMerge(s, a, b, v);
    }

    /** The switch of MergeFrom on the other object's oneof case. */
    method MergeAddress(other: IPAddress)
      requires AddressValid() && other.AddressValid()
      modifies this`address_, this`addressCase_, this`Held, Held
      ensures AddressValid() && fresh(Held - old(Held))
      ensures AddressContent() == CellMerge(Alt(ADDRESS_ARMS), old(AddressContent()), old(other.AddressContent()))
    {
      hide MsgOk, Merge, UnknownOk, IPv4Address.Valid, IPv6Address.Valid, IPv4Address.Value, IPv6Address.Value;
      if other.addressCase_ == V4Case {
        if addressCase_ != V4Case {
          var empty := new IPv4Address();
          SetV4(empty);
        }
        address_.v4.MergeFrom(other.address_.v4);
      } else if other.addressCase_ == V6Case {
        if addressCase_ != V6Case {
          var empty := new IPv6Address();
          SetV6(empty);
        }
        address_.v6.MergeFrom(other.address_.v6);
      }
    }

    method MergeFromStream(input: CodedInputStream) returns (r: Option<()>)
      requires Valid() && input.Valid()
      modifies this, Held, input`pos, input`limit
      ensures Valid() && input.Valid() && fresh(Held - old(Held))
      ensures r.None? ==> RunBytes(IP_ADDRESS, old(Value()), old(input.Rest())).None?
      ensures r.Some? ==> RunBytes(IP_ADDRESS, old(Value()), old(input.Rest())) == Some(Value())
      ensures r.Some? ==> input.Rest() == [] && input.limit == old(input.limit)
    {
      hide RunBytes, MsgOk, GetTag, GetBody, Rejects, Accepts, UnknownOk, IPv4Address.Valid, IPv6Address.Valid,
        IPv4Address.Value, IPv6Address.Value;
      ghost var s, start := IP_ADDRESS, RunBytes(IP_ADDRESS, Value(), input.Rest());
      while true
        invariant Valid() && input.Valid() && input.limit == old(input.limit)
        invariant fresh(Held - old(Held))
        invariant RunBytes(s, Value(), input.Rest()) == start
        decreases |input.Rest()|
      {
        ghost var b, m := input.Rest(), Value();
        PassTag(s, m, b);
        var tag :- input.ReadTag();
        if tag == 0 { break; }
        if tag % 8 == 4 { return None; }
        var ok := ReadField(tag, input);
        if ok.None? {
          PassRejected(s, m, b, GetTag(b).value);
          return None;
        }
        PassAccepted(s, m, b, GetTag(b).value, Value(), input.Rest());
      }
      return Some(());
    }

    /** The switch of the parse loop. */
    method ReadField(tag: nat, input: CodedInputStream) returns (r: Option<()>)
      requires Valid() && input.Valid() && 8 <= tag < TWO_32
      modifies this, Held, input`pos, input`limit
      ensures Valid() && input.Valid() && (r.Some? ==> input.limit == old(input.limit))
      ensures fresh(Held - old(Held))
      ensures r.None? ==> Rejects(IP_ADDRESS, old(Value()), tag, old(input.Rest()))
      ensures r.Some? ==> Accepts(IP_ADDRESS, old(Value()), tag, old(input.Rest()), Value(), input.Rest())
    {
      AddressesWellFormed();
      hide Rejects, Accepts, MsgOk, WellFormed, GetLen, GetUInt64, GetBody, UnknownOk, Insert, Signed,
        RunBytes, SubBuilder, IPv4Address.Valid, IPv6Address.Valid, IPv4Address.Value, IPv6Address.Value;
      ghost var s, m, b := IP_ADDRESS, Value(), input.Rest();
      if tag == 10 {
        ArmMsgRead(s, m, 0, ADDRESS_ARMS, 0, 1, IPV4_ADDRESS, b);
        var _ :- ReadV4(input);
        Updated(m, 0, Value());
        return Some(());
      } else if tag == 18 {
        ArmMsgRead(s, m, 0, ADDRESS_ARMS, 1, 2, IPV6_ADDRESS, b);
        var _ :- ReadV6(input);
        Updated(m, 0, Value());
        return Some(());
      } else {
        DefaultRead(s, m, tag, b);
        var p :- input.ReadUnknown(tag);
        unknownFields := Insert(unknownFields, Rec(tag / 8, p));
        return Some(());
      }
    }

    /** Parse a record of the oneof member into a fresh sub-builder, then install it. */
    method ReadV4(input: CodedInputStream) returns (r: Option<()>)
      requires AddressValid() && input.Valid()
      modifies this`address_, this`addressCase_, this`Held, input`pos, input`limit
      ensures AddressValid() && input.Valid() && fresh(Held - old(Held))
      ensures r.Some? ==> input.limit == old(input.limit)
      ensures r.Some? ==> address_.V4?
      ensures SubParsed(IPV4_ADDRESS, SubBuilder(ADDRESS_ARMS, old(AddressContent()), 0), old(input.Rest()), r,
                        if r.None? then None else Some(address_.v4.Value()), input.Rest())
    {
      hide MsgOk, RunBytes, GetLen, Empty, Merge, IPv4Address.Valid, IPv6Address.Valid, IPv4Address.Value,
        IPv6Address.Value;
      var held := if addressCase_ == V4Case then address_.v4 else null;
      var subBuilder :- BuildV4(held, input);
      SetV4(subBuilder);
      return Some(());
    }

    /** Parse a record of the oneof member into a fresh sub-builder, then install it. */
    method ReadV6(input: CodedInputStream) returns (r: Option<()>)
      requires AddressValid() && input.Valid()
      modifies this`address_, this`addressCase_, this`Held, input`pos, input`limit
      ensures AddressValid() && input.Valid() && fresh(Held - old(Held))
      ensures r.Some? ==> input.limit == old(input.limit)
      ensures r.Some? ==> address_.V6?
      ensures SubParsed(IPV6_ADDRESS, SubBuilder(ADDRESS_ARMS, old(AddressContent()), 1), old(input.Rest()), r,
                        if r.None? then None else Some(address_.v6.Value()), input.Rest())
    {
      hide MsgOk, RunBytes, GetLen, Empty, Merge, IPv4Address.Valid, IPv6Address.Valid, IPv4Address.Value,
        IPv6Address.Value;
      var held := if addressCase_ == V6Case then address_.v6 else null;
      var subBuilder :- BuildV6(held, input);
      SetV6(subBuilder);
      return Some(());
    }

    /** The sub-builder of a case label: new, merged from the member held, then parsed into. */
    static method BuildV4(held: IPv4Address?, input: CodedInputStream) returns (r: Option<IPv4Address>)
      requires (held != null ==> held.Valid()) && input.Valid()
      modifies input`pos, input`limit
      ensures input.Valid() && (r.Some? ==> input.limit == old(input.limit))
      ensures r.Some? ==> r.value.Valid() && fresh({r.value})
      ensures SubParsed(IPV4_ADDRESS, Copied(IPV4_ADDRESS, if held == null then None else Some(old(held.Value()))),
                        old(input.Rest()), if r.None? then None else Some(()),
                        if r.None? then None else Some(r.value.Value()), input.Rest())
    {
      hide MsgOk, RunBytes, GetLen, Empty, Merge, IPv4Address.Valid, IPv6Address.Valid, IPv4Address.Value,
        IPv6Address.Value;
      var subBuilder := new IPv4Address();
      if held != null { subBuilder.MergeFrom(held); }
      var outer :- input.PushLimit();
      var _ :- subBuilder.MergeFromStream(input);
      input.PopLimit(outer);
      return Some(subBuilder);
    }

    /** The sub-builder of a case label: new, merged from the member held, then parsed into. */
    static method BuildV6(held: IPv6Address?, input: CodedInputStream) returns (r: Option<IPv6Address>)
      requires (held != null ==> held.Valid()) && input.Valid()
      modifies input`pos, input`limit
      ensures input.Valid() && (r.Some? ==> input.limit == old(input.limit))
      ensures r.Some? ==> r.value.Valid() && fresh({r.value})
      ensures SubParsed(IPV6_ADDRESS, Copied(IPV6_ADDRESS, if held == null then None else Some(old(held.Value()))),
                        old(input.Rest()), if r.None? then None else Some(()),
                        if r.None? then None else Some(r.value.Value()), input.Rest())
    {
      hide MsgOk, RunBytes, GetLen, Empty, Merge, IPv4Address.Valid, IPv6Address.Valid, IPv4Address.Value,
        IPv6Address.Value;
      var subBuilder := new IPv6Address();
      if held != null { subBuilder.MergeFrom(held); }
      var outer :- input.PushLimit();
      var _ :- subBuilder.MergeFromStream(input);
      input.PopLimit(outer);
      return Some(subBuilder);
    }
  }

  /** An address and a prefix length. */
  class IPPrefix {
    var address_: IPAddress?
    var prefixLen_: uint
    var unknownFields: seq<Rec>
    ghost var Held: set<object>    // the sub-message held, with its own objects

    ghost predicate AddressValid()
      reads this`address_, this`Held, Held
    {
      this !in Held &&
      if address_ == null then Held == {}
      else (address_ in Held && Held == {address_} + address_.Held && address_.Valid())
    }

    ghost function AddressValue(): (o: Option<Msg>)
      requires AddressValid()
      reads this`address_, this`Held, Held
      ensures o.Some? ==> MsgOk(IP_ADDRESS, o.value)
    {
      if address_ == null then None else Some(address_.Value())
    }

    ghost predicate Valid()
      reads this, Held
      ensures Valid() ==> forall o: object :: o in Held ==>
              o is IPAddress || o is IPv4Address || o is IPv6Address
    {
      AddressValid() && UnknownOk(IP_PREFIX, unknownFields)
    }

    ghost function Value(): (m: Msg)
      requires Valid()
      reads this, Held
      ensures MsgOk(IP_PREFIX, m)
    {
      Msg([S(AddressValue()), V(N(prefixLen_))], unknownFields)
    }

    constructor ()
      ensures Valid() && fresh(Held) && Value() == Empty(IP_PREFIX)
    {
      address_, prefixLen_, unknownFields, Held := null, 0, [], {};
    }

    /** Clone: the copy constructor. */
    constructor Clone(other: IPPrefix)
      requires other.Valid()
      ensures Valid() && fresh(Held) && Value() == other.Value()
    {
      address_, prefixLen_, unknownFields, Held := null, other.prefixLen_, other.unknownFields, {};
      new;
      hide MsgOk, UnknownOk, IPAddress.Valid, IPAddress.Value;
      CopyAddress(other);
    }

    method CopyAddress(other: IPPrefix)
      requires address_ == null && AddressValid() && other.AddressValid()
      modifies this`address_, this`Held
      ensures AddressValid() && fresh(Held) && AddressValue() == other.AddressValue()
    {
      hide MsgOk, IPAddress.Valid, IPAddress.Value;
      if other.address_ != null {
        address_ := new IPAddress.Clone(other.address_);
        Held := {address_} + address_.Held;
      }
    }

    method WriteTo(output: CodedOutputStream)
      requires Valid()
      modifies output
      ensures output.buf == old(output.buf) + Bytes(IP_PREFIX, Value())
    {
      hide Upto, MsgOk, Bytes, PutRecs, PutVarint, ToWire, UnknownOk, IPAddress.Valid, IPAddress.Value;
      ghost var s, v, base := IP_PREFIX, Value(), output.buf;
      StartWrite(s, v, base);
      WriteAddress(output, s, v, base);
      WriteNumber(output, 16, U32, prefixLen_, s, v, 1, base);
      ghost var done := output.buf;
      output.WriteUnknown(unknownFields);
      EndWrite(s, v, base, done, output.buf);
    }

    method WriteAddress(output: CodedOutputStream, ghost s: Schema, ghost m: Msg, ghost base: seq<byte>)
      requires AddressValid() && MsgOk(s, m) && 0 < |s.cells| && s.cells[0] == Sub(1, IP_ADDRESS)
      requires m.cells[0] == S(AddressValue()) && Upto(s, m, 0, base, output.buf)
      modifies output
      ensures Upto(s, m, 1, base, output.buf)
    {
      hide Upto, Bytes, PutVarint, MsgOk, IPAddress.Valid, IPAddress.Value;
      ghost var before := output.buf;
      if address_ != null {
        output.WriteRawTag(10);
        var size := address_.CalculateSize();
        output.WriteVarint(size);
        address_.WriteTo(output);
        LenWritten(before + PutVarint(10), Bytes(IP_ADDRESS, address_.Value()));
      }
      SubWritten(s, m, 0, 1, IP_ADDRESS, AddressValue(), base, before, output.buf);
    }

    method CalculateSize() returns (size: nat)
      requires Valid()
      ensures size == |Bytes(IP_PREFIX, Value())|
    {
      AddressesWellFormed();
      hide MsgOk, Bytes, WellFormed, PrefixSize, VarintSize, UnknownOk, NumberSize, BlobSize, IPAddress.Valid,
        IPAddress.Value;
      ghost var s, v := IP_PREFIX, Value();
      size := 0;
      StartSize(s, v);
      var n := AddressSize();
      size := size + n;
      NextSize(s, v, 0);
      size := size + NumberSize(U32, prefixLen_);
      NumberSized(s, v, 1, 2, U32, prefixLen_);
      size := size + UnknownSize(unknownFields);
      SizeIsLength(s, v);
    }

    method AddressSize() returns (size: nat)
      requires AddressValid()
      ensures size == CellSize(Sub(1, IP_ADDRESS), S(AddressValue()))
    {
      AddressesWellFormed();
      hide MsgOk, Bytes, WellFormed, VarintSize, IPAddress.Valid, IPAddress.Value;
      if address_ == null { return 0; }
      var n := address_.CalculateSize();
      SizeIsLength(IP_ADDRESS, address_.Value());
      return 1 + ComputeLengthSize(n);
    }

    method MergeFrom(other: IPPrefix)
      requires Valid() && other.Valid()
      modifies this, Held
      ensures Valid() && fresh(Held - old(Held))
      ensures Value() == Merge(IP_PREFIX, old(Value()), old(other.Value()))
    {
      hide MsgOk, Merge, Union, UnknownOk, MergedUpto, Newer, NewerBool, NewerBlob, Bit, NewerSub,
        IPAddress.Valid, IPAddress.Value;
      ghost var s, a, b := IP_PREFIX, Value(), other.Value();
      UnionOk(s, unknownFields, other.unknownFields);
      MergePlain(other);
      MergeAddress(other);
      ghost var v := Value();
      StartMerge(s, a, b, v);
      SubMerged(s, a, b, v, 0, 1, IP_ADDRESS, old(AddressValue()), old(other.AddressValue()));
      NumberMerged(s, a, b, v, 1, 2, U32, old(prefixLen_), old(other.prefixLen_));
      EndMerge(s, a, b, v);
    }

    /** The fields that are not sub-messages, and the unknown fields. */
    method MergePlain(other: IPPrefix)
      modifies this`prefixLen_, this`unknownFields
      ensures prefixLen_ == Newer(old(prefixLen_), old(other.prefixLen_))
      ensures unknownFields == Union(old(unknownFields), old(other.unknownFields))
    {
      if other.prefixLen_ != 0 { prefixLen_ := other.prefixLen_; }
      unknownFields := Union(unknownFields, other.unknownFields);
    }

    method MergeAddress(other: IPPrefix)
      requires AddressValid() && other.AddressValid()
      modifies this`address_, this`Held, Held
      ensures AddressValid() && fresh(Held - old(Held))
      ensures AddressValue() == NewerSub(IP_ADDRESS, old(AddressValue()), old(other.AddressValue()))
    {
      hide MsgOk, Merge, Empty, IPAddress.Valid, IPAddress.Value;
      if other.address_ != null {
        if address_ == null {
          address_ := new IPAddress();
          Held := {address_} + address_.Held;
        }
        address_.MergeFrom(other.address_);
        Held := {address_} + address_.Held;
      }
    }

    method MergeFromStream(input: CodedInputStream) returns (r: Option<()>)
      requires Valid() && input.Valid()
      modifies this, Held, input`pos, input`limit
      ensures Valid() && input.Valid() && fresh(Held - old(Held))
      ensures r.None? ==> RunBytes(IP_PREFIX, old(Value()), old(input.Rest())).None?
      ensures r.Some? ==> RunBytes(IP_PREFIX, old(Value()), old(input.Rest())) == Some(Value())
      ensures r.Some? ==> input.Rest() == [] && input.limit == old(input.limit)
    {
      hide RunBytes, MsgOk, GetTag, GetBody, Rejects, Accepts, UnknownOk, IPAddress.Valid, IPAddress.Value;
      ghost var s, start := IP_PREFIX, RunBytes(IP_PREFIX, Value(), input.Rest());
      while true
        invariant Valid() && input.Valid() && input.limit == old(input.limit)
        invariant fresh(Held - old(Held))
        invariant RunBytes(s, Value(), input.Rest()) == start
        decreases |input.Rest()|
      {
        ghost var b, m := input.Rest(), Value();
        PassTag(s, m, b);
        var tag :- input.ReadTag();
        if tag == 0 { break; }
        if tag % 8 == 4 { return None; }
        var ok := ReadField(tag, input);
        if ok.None? {
          PassRejected(s, m, b, GetTag(b).value);
          return None;
        }
        PassAccepted(s, m, b, GetTag(b).value, Value(), input.Rest());
      }
      return Some(());
    }

    /** The switch of the parse loop. */
    method ReadField(tag: nat, input: CodedInputStream) returns (r: Option<()>)
      requires Valid() && input.Valid() && 8 <= tag < TWO_32
      modifies this, Held, input`pos, input`limit
      ensures Valid() && input.Valid() && (r.Some? ==> input.limit == old(input.limit))
      ensures fresh(Held - old(Held))
      ensures r.None? ==> Rejects(IP_PREFIX, old(Value()), tag, old(input.Rest()))
      ensures r.Some? ==> Accepts(IP_PREFIX, old(Value()), tag, old(input.Rest()), Value(), input.Rest())
    {
      AddressesWellFormed();
      hide Rejects, Accepts, MsgOk, WellFormed, GetLen, GetUInt64, GetBody, UnknownOk, Insert, Signed,
        RunBytes, OrEmpty, IPAddress.Valid, IPAddress.Value;
      ghost var s, m, b := IP_PREFIX, Value(), input.Rest();
      if tag == 10 {
        SubRead(s, m, 0, 1, IP_ADDRESS, AddressValue(), b);
        var _ :- ReadAddress(input);
        Updated(m, 0, Value());
        return Some(());
      } else if tag == 16 {
        NumberRead(s, m, 1, 2, U32, b);
        prefixLen_ :- input.ReadUInt32();
        Updated(m, 1, Value());
        return Some(());
      } else {
        DefaultRead(s, m, tag, b);
        var p :- input.ReadUnknown(tag);
        unknownFields := Insert(unknownFields, Rec(tag / 8, p));
        return Some(());
      }
    }

    /** Parse a record of the field into the sub-message held, or a new one. */
    method ReadAddress(input: CodedInputStream) returns (r: Option<()>)
      requires AddressValid() && input.Valid()
      modifies this`address_, this`Held, Held, input`pos, input`limit
      ensures AddressValid() && input.Valid() && fresh(Held - old(Held))
      ensures r.Some? ==> input.limit == old(input.limit)
      ensures SubParsed(IP_ADDRESS, OrEmpty(IP_ADDRESS, old(AddressValue())), old(input.Rest()), r,
                        AddressValue(), input.Rest())
    {
      hide MsgOk, RunBytes, GetLen, Empty, IPAddress.Valid, IPAddress.Value;
      if address_ == null {
        address_ := new IPAddress();
        Held := {address_} + address_.Held;
      }
      var outer :- input.PushLimit();
      var ok := address_.MergeFromStream(input);
      Held := {address_} + address_.Held;
      if ok.None? { return None; }
      input.PopLimit(outer);
      return Some(());
    }
  }

  /** The proof a sender attaches to a message. */
  class Auth {
    var channelBinding_: seq<byte>
    var detachedSig_: seq<byte>
    var signedPayload_: seq<byte>
    var signerKeyId_: seq<byte>
    var notBeforeMs_: ulong
    var notAfterMs_: ulong
    var unknownFields: seq<Rec>

    ghost predicate Valid()
      reads this
    {
      UnknownOk(AUTH, unknownFields)
    }

    ghost function Value(): (m: Msg)
      requires Valid()
      reads this
      ensures MsgOk(AUTH, m)
    {
      Msg(Six(
        V(B(channelBinding_)), V(B(detachedSig_)), V(B(signedPayload_)), V(B(signerKeyId_)),
        V(N(notBeforeMs_)), V(N(notAfterMs_))), unknownFields)
    }

    constructor ()
      ensures Valid() && Value() == Empty(AUTH)
    {
      channelBinding_, detachedSig_, signedPayload_, signerKeyId_ := [], [], [], [];
      notBeforeMs_, notAfterMs_, unknownFields := 0, 0, [];
    }

    /** Clone: the copy constructor. */
    constructor Clone(other: Auth)
      requires other.Valid()
      ensures Valid() && Value() == other.Value()
    {
      channelBinding_, detachedSig_, signedPayload_, signerKeyId_ := other.channelBinding_, other.detachedSig_,
        other.signedPayload_, other.signerKeyId_;
      notBeforeMs_, notAfterMs_, unknownFields := other.notBeforeMs_, other.notAfterMs_, other.unknownFields;
    }

    method WriteTo(output: CodedOutputStream)
      requires Valid()
      modifies output
      ensures output.buf == old(output.buf) + Bytes(AUTH, Value())
    {
      hide Upto, MsgOk, Bytes, PutRecs, PutVarint, ToWire, UnknownOk, Six;
      ghost var s, v, base := AUTH, Value(), output.buf;
      StartWrite(s, v, base);
      WriteBlob(output, 10, channelBinding_, s, v, 0, base);
      WriteBlob(output, 18, detachedSig_, s, v, 1, base);
      WriteBlob(output, 26, signedPayload_, s, v, 2, base);
      WriteBlob(output, 34, signerKeyId_, s, v, 3, base);
      WriteNumber(output, 40, U64, notBeforeMs_, s, v, 4, base);
      WriteNumber(output, 48, U64, notAfterMs_, s, v, 5, base);
      ghost var done := output.buf;
      output.WriteUnknown(unknownFields);
      EndWrite(s, v, base, done, output.buf);
    }

    method CalculateSize() returns (size: nat)
      requires Valid()
      ensures size == |Bytes(AUTH, Value())|
    {
      MetadataWellFormed();
      hide MsgOk, Bytes, WellFormed, PrefixSize, VarintSize, UnknownOk, NumberSize, BlobSize, Six;
      ghost var s, v := AUTH, Value();
      size := 0;
      StartSize(s, v);
      size := size + BlobSize(channelBinding_);
      BlobSized(s, v, 0, 1, channelBinding_);
      size := size + BlobSize(detachedSig_);
      BlobSized(s, v, 1, 2, detachedSig_);
      size := size + BlobSize(signedPayload_);
      BlobSized(s, v, 2, 3, signedPayload_);
      size := size + BlobSize(signerKeyId_);
      BlobSized(s, v, 3, 4, signerKeyId_);
      size := size + NumberSize(U64, notBeforeMs_);
      NumberSized(s, v, 4, 5, U64, notBeforeMs_);
      size := size + NumberSize(U64, notAfterMs_);
      NumberSized(s, v, 5, 6, U64, notAfterMs_);
      size := size + UnknownSize(unknownFields);
      SizeIsLength(s, v);
    }

    method MergeFrom(other: Auth)
      requires Valid() && other.Valid()
      modifies this
      ensures Valid()
      ensures Value() == Merge(AUTH, old(Value()), old(other.Value()))
    {
      hide MsgOk, Merge, Union, UnknownOk, MergedUpto, Newer, NewerBool, NewerBlob, Bit, Six;
      ghost var s, a, b := AUTH, Value(), other.Value();
      UnionOk(s, unknownFields, other.unknownFields);
      MergeProof(other);
      MergeSigner(other);
      unknownFields := Union(unknownFields, other.unknownFields);
      ghost var v := Value();
      assert MergedUpto(s, a, b, v, 3) by {
        StartMerge(s, a, b, v);
        BlobMerged(s, a, b, v, 0, 1, old(channelBinding_), old(other.channelBinding_));
        BlobMerged(s, a, b, v, 1, 2, old(detachedSig_), old(other.detachedSig_));
        BlobMerged(s, a, b, v, 2, 3, old(signedPayload_), old(other.signedPayload_));
      }
      assert MergedUpto(s, a, b, v, 6) by {
        BlobMerged(s, a, b, v, 3, 4, old(signerKeyId_), old(other.signerKeyId_));
        NumberMerged(s, a, b, v, 4, 5, U64, old(notBeforeMs_), old(other.notBeforeMs_));
        NumberMerged(s, a, b, v, 5, 6, U64, old(notAfterMs_), old(other.notAfterMs_));
      }
      EndMerge(s, a, b, v);
    }

    method MergeProof(other: Auth)
      modifies this`channelBinding_, this`detachedSig_, this`signedPayload_
      ensures channelBinding_ == NewerBlob(old(channelBinding_), old(other.channelBinding_))
      ensures detachedSig_ == NewerBlob(old(detachedSig_), old(other.detachedSig_))
      ensures signedPayload_ == NewerBlob(old(signedPayload_), old(other.signedPayload_))
    {
      if |other.channelBinding_| != 0 { channelBinding_ := other.channelBinding_; }
      if |other.detachedSig_| != 0 { detachedSig_ := other.detachedSig_; }
      if |other.signedPayload_| != 0 { signedPayload_ := other.signedPayload_; }
    }

    method MergeSigner(other: Auth)
      modifies this`signerKeyId_, this`notBeforeMs_, this`notAfterMs_
      ensures signerKeyId_ == NewerBlob(old(signerKeyId_), old(other.signerKeyId_))
      ensures notBeforeMs_ == Newer(old(notBeforeMs_), old(other.notBeforeMs_))
      ensures notAfterMs_ == Newer(old(notAfterMs_), old(other.notAfterMs_))
    {
      if |other.signerKeyId_| != 0 { signerKeyId_ := other.signerKeyId_; }
      if other.notBeforeMs_ != 0 { notBeforeMs_ := other.notBeforeMs_; }
      if other.notAfterMs_ != 0 { notAfterMs_ := other.notAfterMs_; }
    }

    method MergeFromStream(input: CodedInputStream) returns (r: Option<()>)
      requires Valid() && input.Valid()
      modifies this, input`pos, input`limit
      ensures Valid() && input.Valid()
      ensures r.None? ==> RunBytes(AUTH, old(Value()), old(input.Rest())).None?
      ensures r.Some? ==> RunBytes(AUTH, old(Value()), old(input.Rest())) == Some(Value())
      ensures r.Some? ==> input.Rest() == [] && input.limit == old(input.limit)
    {
      hide RunBytes, MsgOk, GetTag, GetBody, Rejects, Accepts, UnknownOk, Six;
      ghost var s, start := AUTH, RunBytes(AUTH, Value(), input.Rest());
      while true
        invariant Valid() && input.Valid() && input.limit == old(input.limit)
        invariant RunBytes(s, Value(), input.Rest()) == start
        decreases |input.Rest()|
      {
        ghost var b, m := input.Rest(), Value();
        PassTag(s, m, b);
        var tag :- input.ReadTag();
        if tag == 0 { break; }
        if tag % 8 == 4 { return None; }
        var ok := ReadField(tag, input);
        if ok.None? {
          PassRejected(s, m, b, GetTag(b).value);
          return None;
        }
        PassAccepted(s, m, b, GetTag(b).value, Value(), input.Rest());
      }
      return Some(());
    }

    /** The switch of the parse loop. */
    method ReadField(tag: nat, input: CodedInputStream) returns (r: Option<()>)
      requires Valid() && input.Valid() && 8 <= tag < TWO_32
      modifies this, input`pos, input`limit
      ensures Valid() && input.Valid() && (r.Some? ==> input.limit == old(input.limit))
      ensures r.None? ==> Rejects(AUTH, old(Value()), tag, old(input.Rest()))
      ensures r.Some? ==> Accepts(AUTH, old(Value()), tag, old(input.Rest()), Value(), input.Rest())
    {
      MetadataWellFormed();
      hide Rejects, Accepts, MsgOk, WellFormed, GetLen, GetUInt64, GetBody, UnknownOk, Insert, Signed, Six;
      ghost var s, m, b := AUTH, Value(), input.Rest();
      if tag == 10 {
        BlobRead(s, m, 0, 1, b);
        channelBinding_ :- input.ReadBytes();
        Updated(m, 0, Value());
        return Some(());
      } else if tag == 18 {
        BlobRead(s, m, 1, 2, b);
        detachedSig_ :- input.ReadBytes();
        Updated(m, 1, Value());
        return Some(());
      } else if tag == 26 {
        BlobRead(s, m, 2, 3, b);
        signedPayload_ :- input.ReadBytes();
        Updated(m, 2, Value());
        return Some(());
      } else {
        r := ReadField2(tag, input);
      }
    }

    /** The rest of the switch. */
    method ReadField2(tag: nat, input: CodedInputStream) returns (r: Option<()>)
      requires Valid() && input.Valid() && 8 <= tag < TWO_32
      requires tag !in {10, 18, 26}
      modifies this, input`pos, input`limit
      ensures Valid() && input.Valid() && (r.Some? ==> input.limit == old(input.limit))
      ensures r.None? ==> Rejects(AUTH, old(Value()), tag, old(input.Rest()))
      ensures r.Some? ==> Accepts(AUTH, old(Value()), tag, old(input.Rest()), Value(), input.Rest())
    {
      MetadataWellFormed();
      hide Rejects, Accepts, MsgOk, WellFormed, GetLen, GetUInt64, GetBody, UnknownOk, Insert, Signed, Six;
      ghost var s, m, b := AUTH, Value(), input.Rest();
      if tag == 34 {
        BlobRead(s, m, 3, 4, b);
        signerKeyId_ :- input.ReadBytes();
        Updated(m, 3, Value());
        return Some(());
      } else if tag == 40 {
        NumberRead(s, m, 4, 5, U64, b);
        notBeforeMs_ :- input.ReadUInt64();
        Updated(m, 4, Value());
        return Some(());
      } else if tag == 48 {
        NumberRead(s, m, 5, 6, U64, b);
        notAfterMs_ :- input.ReadUInt64();
        Updated(m, 5, Value());
        return Some(());
      } else {
        r := ReadUnknown(tag, input);
      }
    }

    /** The default label. */
    method ReadUnknown(tag: nat, input: CodedInputStream) returns (r: Option<()>)
      requires Valid() && input.Valid() && 8 <= tag < TWO_32
      requires tag !in {10, 18, 26, 34, 40, 48}
      modifies this, input`pos, input`limit
      ensures Valid() && input.Valid() && (r.Some? ==> input.limit == old(input.limit))
      ensures r.None? ==> Rejects(AUTH, old(Value()), tag, old(input.Rest()))
      ensures r.Some? ==> Accepts(AUTH, old(Value()), tag, old(input.Rest()), Value(), input.Rest())
    {
      MetadataWellFormed();
      hide Rejects, Accepts, MsgOk, WellFormed, GetLen, GetUInt64, GetBody, UnknownOk, Insert, Signed, NoLabel, Six;
      ghost var s, m, b := AUTH, Value(), input.Rest();
      Unlabelled(tag);
      DefaultRead(s, m, tag, b);
      var p :- input.ReadUnknown(tag);
      unknownFields := Insert(unknownFields, Rec(tag / 8, p));
      return Some(());
    }

    /** A tag that is none of the case labels. */
    static lemma Unlabelled(tag: nat)
      requires tag !in {10, 18, 26, 34, 40, 48}
      ensures |AUTH.cells| <= 14 && NoLabel(AUTH, tag)
    {
      hide Six;
    }
  }

  /** What every message carries: identifiers, times and the sender's proof. */
  class MessageMetadata {
    var protoVersion_: uint
    var messageId_: seq<byte>
    var correlationId_: seq<byte>
    var causationId_: seq<byte>
    var causalityToken_: seq<byte>
    var senderTimeMs_: ulong
    var twinnetId_: seq<byte>
    var senderId_: seq<byte>
    var netSeq_: ulong
    var idempotencyKey_: seq<byte>
    var auth_: Auth?
    var unknownFields: seq<Rec>
    ghost var Held: set<object>    // the sub-message held, with its own objects

    ghost predicate AuthValid()
      reads this`auth_, this`Held, Held
    {
      this !in Held &&
      if auth_ == null then Held == {}
      else (auth_ in Held && Held == {auth_} && auth_.Valid())
    }

    ghost function AuthValue(): (o: Option<Msg>)
      requires AuthValid()
      reads this`auth_, this`Held, Held
      ensures o.Some? ==> MsgOk(AUTH, o.value)
    {
      if auth_ == null then None else Some(auth_.Value())
    }

    ghost predicate Valid()
      reads this, Held
      ensures Valid() ==> forall o: object :: o in Held ==> o is Auth
    {
      AuthValid() && UnknownOk(MESSAGE_METADATA, unknownFields)
    }

    ghost function Value(): (m: Msg)
      requires Valid()
      reads this, Held
      ensures MsgOk(MESSAGE_METADATA, m)
    {
      hide Eleven, MsgOk, UnknownOk, OkUpto, CellOk, Auth.Valid, Auth.Value;
      var s := MESSAGE_METADATA;
      var m := Msg(Eleven(
        V(N(protoVersion_)), V(B(messageId_)), V(B(correlationId_)), V(B(causationId_)),
        V(B(causalityToken_)), V(N(senderTimeMs_)), V(B(twinnetId_)), V(B(senderId_)), V(N(netSeq_)),
        V(B(idempotencyKey_)), S(AuthValue())), unknownFields);
      assert OkUpto(s, m, 4) by {
        StartOk(s, m);
        NumberOk(s, m, 0, 1, U32, protoVersion_);
        BlobOk(s, m, 1, 2, messageId_);
        BlobOk(s, m, 2, 3, correlationId_);
        BlobOk(s, m, 3, 4, causationId_);
      }
      assert OkUpto(s, m, 8) by {
        BlobOk(s, m, 4, 5, causalityToken_);
        NumberOk(s, m, 5, 6, U64, senderTimeMs_);
        BlobOk(s, m, 6, 7, twinnetId_);
        BlobOk(s, m, 7, 8, senderId_);
      }
      assert OkUpto(s, m, 11) by {
        NumberOk(s, m, 8, 9, U64, netSeq_);
        BlobOk(s, m, 9, 10, idempotencyKey_);
        SubOk(s, m, 10, 11, AUTH, AuthValue());
      }
      EndOk(s, m);
      m
    }

    constructor ()
      ensures Valid() && fresh(Held) && Value() == Empty(MESSAGE_METADATA)
    {
      protoVersion_, messageId_, correlationId_, causationId_ := 0, [], [], [];
      causalityToken_, senderTimeMs_, twinnetId_, senderId_ := [], 0, [], [];
      netSeq_, idempotencyKey_, auth_, unknownFields := 0, [], null, [];
      Held := {};
      new;
      hide Value, Empty, Auth.Valid, Auth.Value;
      NewValue();
    }

    /** The value when every field is at its default. */
    lemma NewValue()
      requires Valid()
      requires protoVersion_ == 0 && messageId_ == [] && correlationId_ == [] && causationId_ == []
      requires causalityToken_ == [] && senderTimeMs_ == 0 && twinnetId_ == [] && senderId_ == []
      requires netSeq_ == 0 && idempotencyKey_ == [] && auth_ == null && unknownFields == []
      ensures Value() == Empty(MESSAGE_METADATA)
    {
      hide MsgOk, Empty, UnknownOk, Eleven, Auth.Valid, Auth.Value;
      EmptyValue(MESSAGE_METADATA, Value());
    }

    /** Clone: the copy constructor. */
    constructor Clone(other: MessageMetadata)
      requires other.Valid()
      ensures Valid() && fresh(Held) && Value() == other.Value()
    {
      protoVersion_, messageId_, correlationId_, causationId_ := other.protoVersion_, other.messageId_,
        other.correlationId_, other.causationId_;
      causalityToken_, senderTimeMs_, twinnetId_, senderId_ := other.causalityToken_, other.senderTimeMs_,
        other.twinnetId_, other.senderId_;
      netSeq_, idempotencyKey_, auth_, unknownFields := other.netSeq_, other.idempotencyKey_, null,
        other.unknownFields;
      Held := {};
      new;
      hide MsgOk, UnknownOk, Value, Auth.Valid, Auth.Value;
      CopyAuth(other);
      SameValue(other);
    }

    /** The value is made of the fields. */
    lemma SameValue(other: MessageMetadata)
      requires Valid() && other.Valid()
      requires protoVersion_ == other.protoVersion_ && messageId_ == other.messageId_
        && correlationId_ == other.correlationId_
      requires causationId_ == other.causationId_ && causalityToken_ == other.causalityToken_
        && senderTimeMs_ == other.senderTimeMs_
      requires twinnetId_ == other.twinnetId_ && senderId_ == other.senderId_ && netSeq_ == other.netSeq_
      requires idempotencyKey_ == other.idempotencyKey_ && AuthValue() == other.AuthValue()
        && unknownFields == other.unknownFields
      ensures Value() == other.Value()
    {
      hide MsgOk, UnknownOk, Eleven, Auth.Valid, Auth.Value;
    }

    method CopyAuth(other: MessageMetadata)
      requires auth_ == null && AuthValid() && other.AuthValid()
      modifies this`auth_, this`Held
      ensures AuthValid() && fresh(Held) && AuthValue() == other.AuthValue()
    {
      hide MsgOk, Auth.Valid, Auth.Value;
      if other.auth_ != null {
        auth_ := new Auth.Clone(other.auth_);
        Held := {auth_};
      }
    }

    method WriteTo(output: CodedOutputStream)
      requires Valid()
      modifies output
      ensures output.buf == old(output.buf) + Bytes(MESSAGE_METADATA, Value())
    {
      hide Upto, MsgOk, Bytes, PutRecs, PutVarint, ToWire, UnknownOk, Eleven, Auth.Valid, Auth.Value;
      ghost var s, v, base := MESSAGE_METADATA, Value(), output.buf;
      StartWrite(s, v, base);
      WriteFirst(output, s, v, base);
      WriteSecond(output, s, v, base);
      ghost var done := output.buf;
      output.WriteUnknown(unknownFields);
      EndWrite(s, v, base, done, output.buf);
    }

    /** The first fields of WriteTo. */
    method WriteFirst(output: CodedOutputStream, ghost s: Schema, ghost v: Msg, ghost base: seq<byte>)
      requires Valid() && s == MESSAGE_METADATA && v == Value() && Upto(s, v, 0, base, output.buf)
      modifies output
      ensures Upto(s, v, 6, base, output.buf)
    {
      hide Upto, MsgOk, UnknownOk, Eleven, Auth.Valid, Auth.Value;
      WriteNumber(output, 8, U32, protoVersion_, s, v, 0, base);
      WriteBlob(output, 18, messageId_, s, v, 1, base);
      WriteBlob(output, 26, correlationId_, s, v, 2, base);
      WriteBlob(output, 34, causationId_, s, v, 3, base);
      WriteBlob(output, 42, causalityToken_, s, v, 4, base);
      WriteNumber(output, 48, U64, senderTimeMs_, s, v, 5, base);
    }

    /** The other fields of WriteTo. */
    method WriteSecond(output: CodedOutputStream, ghost s: Schema, ghost v: Msg, ghost base: seq<byte>)
      requires Valid() && s == MESSAGE_METADATA && v == Value() && Upto(s, v, 6, base, output.buf)
      modifies output
      ensures Upto(s, v, 11, base, output.buf)
    {
      hide Upto, MsgOk, UnknownOk, Eleven, Auth.Valid, Auth.Value;
      WriteBlob(output, 58, twinnetId_, s, v, 6, base);
      WriteBlob(output, 66, senderId_, s, v, 7, base);
      WriteNumber(output, 72, U64, netSeq_, s, v, 8, base);
      WriteBlob(output, 82, idempotencyKey_, s, v, 9, base);
      WriteAuth(output, s, v, base);
    }

    method WriteAuth(output: CodedOutputStream, ghost s: Schema, ghost m: Msg, ghost base: seq<byte>)
      requires AuthValid() && MsgOk(s, m) && 10 < |s.cells| && s.cells[10] == Sub(11, AUTH)
      requires m.cells[10] == S(AuthValue()) && Upto(s, m, 10, base, output.buf)
      modifies output
      ensures Upto(s, m, 11, base, output.buf)
    {
      hide Upto, Bytes, PutVarint, MsgOk, Auth.Valid, Auth.Value;
      ghost var before := output.buf;
      if auth_ != null {
        output.WriteRawTag(90);
        var size := auth_.CalculateSize();
        output.WriteVarint(size);
        auth_.WriteTo(output);
        LenWritten(before + PutVarint(90), Bytes(AUTH, auth_.Value()));
      }
      SubWritten(s, m, 10, 11, AUTH, AuthValue(), base, before, output.buf);
    }

    method CalculateSize() returns (size: nat)
      requires Valid()
      ensures size == |Bytes(MESSAGE_METADATA, Value())|
    {
      MetadataWellFormed();
      hide MsgOk, Bytes, WellFormed, PrefixSize, VarintSize, UnknownOk, NumberSize, BlobSize, Eleven,
        Auth.Valid, Auth.Value;
      ghost var s, v := MESSAGE_METADATA, Value();
      size := 0;
      var first := FirstSize(s, v);
      var second := SecondSize(s, v);
      size := first + second;
      size := size + UnknownSize(unknownFields);
      SizeIsLength(s, v);
    }

    /** What the first fields add to the size. */
    method FirstSize(ghost s: Schema, ghost v: Msg) returns (size: nat)
      requires Valid() && s == MESSAGE_METADATA && v == Value()
      ensures size == PrefixSize(s, v, 6)
    {
      hide MsgOk, UnknownOk, PrefixSize, VarintSize, NumberSize, BlobSize, Eleven, Auth.Valid, Auth.Value;
      size := 0;
      size := size + NumberSize(U32, protoVersion_);
      size := size + BlobSize(messageId_);
      size := size + BlobSize(correlationId_);
      assert size == PrefixSize(s, v, 3) by {
        StartSize(s, v);
        NumberSized(s, v, 0, 1, U32, protoVersion_);
        BlobSized(s, v, 1, 2, messageId_);
        BlobSized(s, v, 2, 3, correlationId_);
      }
      size := size + BlobSize(causationId_);
      size := size + BlobSize(causalityToken_);
      size := size + NumberSize(U64, senderTimeMs_);
      assert size == PrefixSize(s, v, 6) by {
        BlobSized(s, v, 3, 4, causationId_);
        BlobSized(s, v, 4, 5, causalityToken_);
        NumberSized(s, v, 5, 6, U64, senderTimeMs_);
      }
    }

    /** What the other fields add to the size. */
    method SecondSize(ghost s: Schema, ghost v: Msg) returns (size: nat)
      requires Valid() && s == MESSAGE_METADATA && v == Value()
      ensures size == PrefixSize(s, v, 11) - PrefixSize(s, v, 6)
    {
      hide MsgOk, UnknownOk, PrefixSize, VarintSize, NumberSize, BlobSize, Eleven, Auth.Valid, Auth.Value;
      size := 0;
      size := size + BlobSize(twinnetId_);
      size := size + BlobSize(senderId_);
      size := size + NumberSize(U64, netSeq_);
      assert size == PrefixSize(s, v, 9) - PrefixSize(s, v, 6) by {
        BlobSized(s, v, 6, 7, twinnetId_);
        BlobSized(s, v, 7, 8, senderId_);
        NumberSized(s, v, 8, 9, U64, netSeq_);
      }
      size := size + BlobSize(idempotencyKey_);
      var n := AuthSize();
      size := size + n;
      assert size == PrefixSize(s, v, 11) - PrefixSize(s, v, 6) by {
        BlobSized(s, v, 9, 10, idempotencyKey_);
        NextSize(s, v, 10);
      }
    }

    method AuthSize() returns (size: nat)
      requires AuthValid()
      ensures size == CellSize(Sub(11, AUTH), S(AuthValue()))
    {
      MetadataWellFormed();
      hide MsgOk, Bytes, WellFormed, VarintSize, Auth.Valid, Auth.Value;
      if auth_ == null { return 0; }
      var n := auth_.CalculateSize();
      SizeIsLength(AUTH, auth_.Value());
      return 1 + ComputeLengthSize(n);
    }

    method MergeFrom(other: MessageMetadata)
      requires Valid() && other.Valid()
      modifies this, Held
      ensures Valid() && fresh(Held - old(Held))
      ensures Value() == Merge(MESSAGE_METADATA, old(Value()), old(other.Value()))
    {
      hide Value, MsgOk, Merge, Union, UnknownOk, Newer, NewerBool, NewerBlob, NewerSub, Auth.Valid, Auth.Value;
      UnionOk(MESSAGE_METADATA, unknownFields, other.unknownFields);
      MergePlain(other);
      MergeAuth(other);
      MergedValue(other);
    }

    /** The fields merged one by one make the merged value. */
    twostate lemma MergedValue(other: MessageMetadata)
      requires old(Valid()) && old(other.Valid()) && Valid()
      requires protoVersion_ == Newer(old(protoVersion_), old(other.protoVersion_))
      requires messageId_ == NewerBlob(old(messageId_), old(other.messageId_))
      requires correlationId_ == NewerBlob(old(correlationId_), old(other.correlationId_))
      requires causationId_ == NewerBlob(old(causationId_), old(other.causationId_))
      requires causalityToken_ == NewerBlob(old(causalityToken_), old(other.causalityToken_))
      requires senderTimeMs_ == Newer(old(senderTimeMs_), old(other.senderTimeMs_))
      requires twinnetId_ == NewerBlob(old(twinnetId_), old(other.twinnetId_))
      requires senderId_ == NewerBlob(old(senderId_), old(other.senderId_))
      requires netSeq_ == Newer(old(netSeq_), old(other.netSeq_))
      requires idempotencyKey_ == NewerBlob(old(idempotencyKey_), old(other.idempotencyKey_))
      requires AuthValue() == NewerSub(AUTH, old(AuthValue()), old(other.AuthValue()))
      requires unknownFields == Union(old(unknownFields), old(other.unknownFields))
      ensures Value() == Merge(MESSAGE_METADATA, old(Value()), old(other.Value()))
    {
      hide MsgOk, Merge, Union, UnknownOk, MergedUpto, Newer, NewerBool, NewerBlob, Bit, NewerSub, Eleven,
        Auth.Valid, Auth.Value;
      var s, a, b := MESSAGE_METADATA, old(Value()), old(other.Value());
      var v := Value();
      assert MergedUpto(s, a, b, v, 3) by {
        StartMerge(s, a, b, v);
        NumberMerged(s, a, b, v, 0, 1, U32, old(protoVersion_), old(other.protoVersion_));
        BlobMerged(s, a, b, v, 1, 2, old(messageId_), old(other.messageId_));
        BlobMerged(s, a, b, v, 2, 3, old(correlationId_), old(other.correlationId_));
      }
      assert MergedUpto(s, a, b, v, 6) by {
        BlobMerged(s, a, b, v, 3, 4, old(causationId_), old(other.causationId_));
        BlobMerged(s, a, b, v, 4, 5, old(causalityToken_), old(other.causalityToken_));
        NumberMerged(s, a, b, v, 5, 6, U64, old(senderTimeMs_), old(other.senderTimeMs_));
      }
      assert MergedUpto(s, a, b, v, 9) by {
        BlobMerged(s, a, b, v, 6, 7, old(twinnetId_), old(other.twinnetId_));
        BlobMerged(s, a, b, v, 7, 8, old(senderId_), old(other.senderId_));
        NumberMerged(s, a, b, v, 8, 9, U64, old(netSeq_), old(other.netSeq_));
      }
      assert MergedUpto(s, a, b, v, 11) by {
        BlobMerged(s, a, b, v, 9, 10, old(idempotencyKey_), old(other.idempotencyKey_));
        SubMerged(s, a, b, v, 10, 11, AUTH, old(AuthValue()), old(other.AuthValue()));
      }
      EndMerge(s, a, b, v);
    }

    /** The fields that are not sub-messages, and the unknown fields. */
    method MergePlain(other: MessageMetadata)
      modifies
               this`protoVersion_, this`messageId_, this`correlationId_, this`causationId_,
               this`causalityToken_, this`senderTimeMs_, this`twinnetId_, this`senderId_, this`netSeq_,
               this`idempotencyKey_, this`unknownFields
      ensures protoVersion_ == Newer(old(protoVersion_), old(other.protoVersion_))
      ensures messageId_ == NewerBlob(old(messageId_), old(other.messageId_))
      ensures correlationId_ == NewerBlob(old(correlationId_), old(other.correlationId_))
      ensures causationId_ == NewerBlob(old(causationId_), old(other.causationId_))
      ensures causalityToken_ == NewerBlob(old(causalityToken_), old(other.causalityToken_))
      ensures senderTimeMs_ == Newer(old(senderTimeMs_), old(other.senderTimeMs_))
      ensures twinnetId_ == NewerBlob(old(twinnetId_), old(other.twinnetId_))
      ensures senderId_ == NewerBlob(old(senderId_), old(other.senderId_))
      ensures netSeq_ == Newer(old(netSeq_), old(other.netSeq_))
      ensures idempotencyKey_ == NewerBlob(old(idempotencyKey_), old(other.idempotencyKey_))
      ensures unknownFields == Union(old(unknownFields), old(other.unknownFields))
    {
      hide Newer, NewerBool, NewerBlob, Union, Auth.Valid, Auth.Value;
      MergeIds(other);
      MergeSender(other);
      MergeNumbers(other);
      unknownFields := Union(unknownFields, other.unknownFields);
    }

    method MergeIds(other: MessageMetadata)
      modifies this`messageId_, this`correlationId_, this`causationId_, this`causalityToken_
      ensures messageId_ == NewerBlob(old(messageId_), old(other.messageId_))
      ensures correlationId_ == NewerBlob(old(correlationId_), old(other.correlationId_))
      ensures causationId_ == NewerBlob(old(causationId_), old(other.causationId_))
      ensures causalityToken_ == NewerBlob(old(causalityToken_), old(other.causalityToken_))
    {
      if |other.messageId_| != 0 { messageId_ := other.messageId_; }
      if |other.correlationId_| != 0 { correlationId_ := other.correlationId_; }
      if |other.causationId_| != 0 { causationId_ := other.causationId_; }
      if |other.causalityToken_| != 0 { causalityToken_ := other.causalityToken_; }
    }

    method MergeSender(other: MessageMetadata)
      modifies this`twinnetId_, this`senderId_, this`idempotencyKey_
      ensures twinnetId_ == NewerBlob(old(twinnetId_), old(other.twinnetId_))
      ensures senderId_ == NewerBlob(old(senderId_), old(other.senderId_))
      ensures idempotencyKey_ == NewerBlob(old(idempotencyKey_), old(other.idempotencyKey_))
    {
      if |other.twinnetId_| != 0 { twinnetId_ := other.twinnetId_; }
      if |other.senderId_| != 0 { senderId_ := other.senderId_; }
      if |other.idempotencyKey_| != 0 { idempotencyKey_ := other.idempotencyKey_; }
    }

    method MergeNumbers(other: MessageMetadata)
      modifies this`protoVersion_, this`senderTimeMs_, this`netSeq_
      ensures protoVersion_ == Newer(old(protoVersion_), old(other.protoVersion_))
      ensures senderTimeMs_ == Newer(old(senderTimeMs_), old(other.senderTimeMs_))
      ensures netSeq_ == Newer(old(netSeq_), old(other.netSeq_))
    {
      if other.protoVersion_ != 0 { protoVersion_ := other.protoVersion_; }
      if other.senderTimeMs_ != 0 { senderTimeMs_ := other.senderTimeMs_; }
      if other.netSeq_ != 0 { netSeq_ := other.netSeq_; }
    }

    method MergeAuth(other: MessageMetadata)
      requires AuthValid() && other.AuthValid()
      modifies this`auth_, this`Held, Held
      ensures AuthValid() && fresh(Held - old(Held))
      ensures AuthValue() == NewerSub(AUTH, old(AuthValue()), old(other.AuthValue()))
    {
      hide MsgOk, Merge, Empty, Auth.Valid, Auth.Value;
      if other.auth_ != null {
        if auth_ == null {
          auth_ := new Auth();
          Held := {auth_};
        }
        auth_.MergeFrom(other.auth_);
      }
    }

    method MergeFromStream(input: CodedInputStream) returns (r: Option<()>)
      requires Valid() && input.Valid()
      modifies this, Held, input`pos, input`limit
      ensures Valid() && input.Valid() && fresh(Held - old(Held))
      ensures r.None? ==> RunBytes(MESSAGE_METADATA, old(Value()), old(input.Rest())).None?
      ensures r.Some? ==> RunBytes(MESSAGE_METADATA, old(Value()), old(input.Rest())) == Some(Value())
      ensures r.Some? ==> input.Rest() == [] && input.limit == old(input.limit)
    {
      hide RunBytes, MsgOk, GetTag, GetBody, Rejects, Accepts, UnknownOk, Eleven, Auth.Valid, Auth.Value;
      ghost var s, start := MESSAGE_METADATA, RunBytes(MESSAGE_METADATA, Value(), input.Rest());
      while true
        invariant Valid() && input.Valid() && input.limit == old(input.limit)
        invariant fresh(Held - old(Held))
        invariant RunBytes(s, Value(), input.Rest()) == start
        decreases |input.Rest()|
      {
        ghost var b, m := input.Rest(), Value();
        PassTag(s, m, b);
        var tag :- input.ReadTag();
        if tag == 0 { break; }
        if tag % 8 == 4 { return None; }
        var ok := ReadField(tag, input);
        if ok.None? {
          PassRejected(s, m, b, GetTag(b).value);
          return None;
        }
        PassAccepted(s, m, b, GetTag(b).value, Value(), input.Rest());
      }
      return Some(());
    }

    /** The switch of the parse loop. */
    method ReadField(tag: nat, input: CodedInputStream) returns (r: Option<()>)
      requires Valid() && input.Valid() && 8 <= tag < TWO_32
      modifies this, Held, input`pos, input`limit
      ensures Valid() && input.Valid() && (r.Some? ==> input.limit == old(input.limit))
      ensures fresh(Held - old(Held))
      ensures r.None? ==> Rejects(MESSAGE_METADATA, old(Value()), tag, old(input.Rest()))
      ensures r.Some? ==> Accepts(MESSAGE_METADATA, old(Value()), tag, old(input.Rest()), Value(), input.Rest())
    {
      MetadataWellFormed();
      hide Rejects, Accepts, MsgOk, WellFormed, GetLen, GetUInt64, GetBody, UnknownOk, Insert, Signed,
        RunBytes, OrEmpty, Eleven, Auth.Valid, Auth.Value;
      ghost var s, m, b := MESSAGE_METADATA, Value(), input.Rest();
      if tag == 8 {
        NumberRead(s, m, 0, 1, U32, b);
        protoVersion_ :- input.ReadUInt32();
        Updated(m, 0, Value());
        return Some(());
      } else if tag == 18 {
        BlobRead(s, m, 1, 2, b);
        messageId_ :- input.ReadBytes();
        Updated(m, 1, Value());
        return Some(());
      } else if tag == 26 {
        BlobRead(s, m, 2, 3, b);
        correlationId_ :- input.ReadBytes();
        Updated(m, 2, Value());
        return Some(());
      } else {
        r := ReadField2(tag, input);
      }
    }

    /** The rest of the switch. */
    method ReadField2(tag: nat, input: CodedInputStream) returns (r: Option<()>)
      requires Valid() && input.Valid() && 8 <= tag < TWO_32
      requires tag !in {8, 18, 26}
      modifies this, Held, input`pos, input`limit
      ensures Valid() && input.Valid() && (r.Some? ==> input.limit == old(input.limit))
      ensures fresh(Held - old(Held))
      ensures r.None? ==> Rejects(MESSAGE_METADATA, old(Value()), tag, old(input.Rest()))
      ensures r.Some? ==> Accepts(MESSAGE_METADATA, old(Value()), tag, old(input.Rest()), Value(), input.Rest())
    {
      MetadataWellFormed();
      hide Rejects, Accepts, MsgOk, WellFormed, GetLen, GetUInt64, GetBody, UnknownOk, Insert, Signed,
        RunBytes, OrEmpty, Eleven, Auth.Valid, Auth.Value;
      ghost var s, m, b := MESSAGE_METADATA, Value(), input.Rest();
      if tag == 34 {
        BlobRead(s, m, 3, 4, b);
        causationId_ :- input.ReadBytes();
        Updated(m, 3, Value());
        return Some(());
      } else if tag == 42 {
        BlobRead(s, m, 4, 5, b);
        causalityToken_ :- input.ReadBytes();
        Updated(m, 4, Value());
        return Some(());
      } else if tag == 48 {
        NumberRead(s, m, 5, 6, U64, b);
        senderTimeMs_ :- input.ReadUInt64();
        Updated(m, 5, Value());
        return Some(());
      } else {
        r := ReadField3(tag, input);
      }
    }

    /** The rest of the switch. */
    method ReadField3(tag: nat, input: CodedInputStream) returns (r: Option<()>)
      requires Valid() && input.Valid() && 8 <= tag < TWO_32
      requires tag !in {8, 18, 26, 34, 42, 48}
      modifies this, Held, input`pos, input`limit
      ensures Valid() && input.Valid() && (r.Some? ==> input.limit == old(input.limit))
      ensures fresh(Held - old(Held))
      ensures r.None? ==> Rejects(MESSAGE_METADATA, old(Value()), tag, old(input.Rest()))
      ensures r.Some? ==> Accepts(MESSAGE_METADATA, old(Value()), tag, old(input.Rest()), Value(), input.Rest())
    {
      MetadataWellFormed();
      hide Rejects, Accepts, MsgOk, WellFormed, GetLen, GetUInt64, GetBody, UnknownOk, Insert, Signed,
        RunBytes, OrEmpty, Eleven, Auth.Valid, Auth.Value;
      ghost var s, m, b := MESSAGE_METADATA, Value(), input.Rest();
      if tag == 58 {
        BlobRead(s, m, 6, 7, b);
        twinnetId_ :- input.ReadBytes();
        Updated(m, 6, Value());
        return Some(());
      } else if tag == 66 {
        BlobRead(s, m, 7, 8, b);
        senderId_ :- input.ReadBytes();
        Updated(m, 7, Value());
        return Some(());
      } else if tag == 72 {
        NumberRead(s, m, 8, 9, U64, b);
        netSeq_ :- input.ReadUInt64();
        Updated(m, 8, Value());
        return Some(());
      } else {
        r := ReadField4(tag, input);
      }
    }

    /** The rest of the switch. */
    method ReadField4(tag: nat, input: CodedInputStream) returns (r: Option<()>)
      requires Valid() && input.Valid() && 8 <= tag < TWO_32
      requires tag !in {8, 18, 26, 34, 42, 48, 58, 66, 72}
      modifies this, Held, input`pos, input`limit
      ensures Valid() && input.Valid() && (r.Some? ==> input.limit == old(input.limit))
      ensures fresh(Held - old(Held))
      ensures r.None? ==> Rejects(MESSAGE_METADATA, old(Value()), tag, old(input.Rest()))
      ensures r.Some? ==> Accepts(MESSAGE_METADATA, old(Value()), tag, old(input.Rest()), Value(), input.Rest())
    {
      MetadataWellFormed();
      hide Rejects, Accepts, MsgOk, WellFormed, GetLen, GetUInt64, GetBody, UnknownOk, Insert, Signed,
        RunBytes, OrEmpty, Eleven, Auth.Valid, Auth.Value;
      ghost var s, m, b := MESSAGE_METADATA, Value(), input.Rest();
      if tag == 82 {
        BlobRead(s, m, 9, 10, b);
        idempotencyKey_ :- input.ReadBytes();
        Updated(m, 9, Value());
        return Some(());
      } else if tag == 90 {
        SubRead(s, m, 10, 11, AUTH, AuthValue(), b);
        var _ :- ReadAuth(input);
        Updated(m, 10, Value());
        return Some(());
      } else {
        r := ReadUnknown(tag, input);
      }
    }

    /** The default label. */
    method ReadUnknown(tag: nat, input: CodedInputStream) returns (r: Option<()>)
      requires Valid() && input.Valid() && 8 <= tag < TWO_32
      requires tag !in {8, 18, 26, 34, 42, 48, 58, 66, 72, 82, 90}
      modifies this, Held, input`pos, input`limit
      ensures Valid() && input.Valid() && (r.Some? ==> input.limit == old(input.limit))
      ensures fresh(Held - old(Held))
      ensures r.None? ==> Rejects(MESSAGE_METADATA, old(Value()), tag, old(input.Rest()))
      ensures r.Some? ==> Accepts(MESSAGE_METADATA, old(Value()), tag, old(input.Rest()), Value(), input.Rest())
    {
      MetadataWellFormed();
      hide Rejects, Accepts, MsgOk, WellFormed, GetLen, GetUInt64, GetBody, UnknownOk, Insert, Signed,
        RunBytes, OrEmpty, NoLabel, Eleven, Auth.Valid, Auth.Value;
      ghost var s, m, b := MESSAGE_METADATA, Value(), input.Rest();
      Unlabelled(tag);
      DefaultRead(s, m, tag, b);
      var p :- input.ReadUnknown(tag);
      unknownFields := Insert(unknownFields, Rec(tag / 8, p));
      return Some(());
    }

    /** A tag that is none of the case labels. */
    static lemma Unlabelled(tag: nat)
      requires tag !in {8, 18, 26, 34, 42, 48, 58, 66, 72, 82, 90}
      ensures |MESSAGE_METADATA.cells| <= 14 && NoLabel(MESSAGE_METADATA, tag)
    {
      hide Eleven, Auth.Valid, Auth.Value;
    }

    /** Parse a record of the field into the sub-message held, or a new one. */
    method ReadAuth(input: CodedInputStream) returns (r: Option<()>)
      requires AuthValid() && input.Valid()
      modifies this`auth_, this`Held, Held, input`pos, input`limit
      ensures AuthValid() && input.Valid() && fresh(Held - old(Held))
      ensures r.Some? ==> input.limit == old(input.limit)
      ensures SubParsed(AUTH, OrEmpty(AUTH, old(AuthValue())), old(input.Rest()), r,
                        AuthValue(), input.Rest())
    {
      hide MsgOk, RunBytes, GetLen, Empty, Auth.Valid, Auth.Value;
      if auth_ == null {
        auth_ := new Auth();
        Held := {auth_};
      }
      var outer :- input.PushLimit();
      var ok := auth_.MergeFromStream(input);
      if ok.None? { return None; }
      input.PopLimit(outer);
      return Some(());
    }
  }
}
