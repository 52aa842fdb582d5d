/** dns.proto: the policy with four explicit-presence fields. */
module Dns {
  import opened Seqs
  import opened Wire
  import opened Unknown
  import opened Codec
  import opened Refinement
  import opened Sizes
  import opened Schemas
  import opened Streams
  import opened Classes
  import opened Repeated
  import opened Merging
  import opened Presence
  import opened Common

  /** WriteTo on an explicit-presence field. */
  method WriteFlag(output: CodedOutputStream, tag: nat, o: Option<bool>,
                   ghost s: Schema, ghost m: Msg, ghost k: nat, ghost base: seq<byte>)
    requires MsgOk(s, m) && k < |s.cells| && Upto(s, m, k, base, output.buf)
    requires tag < 128 && tag % 8 == 0 && s.cells[k] == Opt(tag / 8, Bool) && m.cells[k] == O(Shown(o))
    modifies output
    ensures Upto(s, m, k + 1, base, output.buf)
  {
    hide Upto, MsgOk, PutVarint;
    ghost var before := output.buf;
    if o.Some? {
      output.WriteRawTag(tag);
      output.WriteBool(o.value);
    }
    OptWritten(s, m, k, tag / 8, Bool, Shown(o), base, before, output.buf);
  }

  /** CalculateSize on an explicit-presence field. */
  function FlagSize(o: Option<bool>): nat { if o.None? then 0 else 1 + 1 }

  lemma FlagSized(s: Schema, m: Msg, k: nat, num: nat, o: Option<bool>)
    requires MsgOk(s, m) && k < |s.cells| && s.cells[k] == Opt(num, Bool) && m.cells[k] == O(Shown(o))
    ensures PrefixSize(s, m, k + 1) == PrefixSize(s, m, k) + FlagSize(o)
  {
    hide MsgOk, PrefixSize;
    NextSize(s, m, k);
  }

  lemma FlagMerged(s: Schema, a: Msg, b: Msg, m: Msg, k: nat, num: nat, f: Flags, g: Flags, i: nat)
    requires MsgOk(s, a) && MsgOk(s, b) && k < |s.cells| == |m.cells| && MergedUpto(s, a, b, m, k)
    requires i < 4 && s.cells[k] == Opt(num, Bool)
    requires a.cells[k] == O(Shown(f.View(i))) && b.cells[k] == O(Shown(g.View(i)))
    requires m.cells[k] == O(Shown(f.Merge(g).View(i)))
    ensures MergedUpto(s, a, b, m, k + 1)
  {
    MergeView(f, g, i);
    hide MergedUpto, UnknownOk, Flags.View, Flags.Merge;
    FieldMerged(s, a, b, m, k);
  }

  /** Where queries under one suffix go. */
  class SplitDomainRule {
    var suffix_: seq<byte>
    var exactMatch_: bool
    var disposition_: enum
    var unknownFields: seq<Rec>

    ghost predicate Valid()
      reads this
    {
      UnknownOk(SPLIT_DOMAIN_RULE, unknownFields)
    }

    ghost function Value(): (m: Msg)
      requires Valid()
      reads this
      ensures MsgOk(SPLIT_DOMAIN_RULE, m)
    {
      Msg([V(B(suffix_)), V(N(Bit(exactMatch_))), V(N(disposition_))], unknownFields)
    }

    constructor ()
      ensures Valid() && Value() == Empty(SPLIT_DOMAIN_RULE)
    {
      suffix_, exactMatch_, disposition_, unknownFields := [], false, 0, [];
    }

    /** Clone: the copy constructor. */
    constructor Clone(other: SplitDomainRule)
      requires other.Valid()
      ensures Valid() && Value() == other.Value()
    {
      suffix_, exactMatch_, disposition_, unknownFields := other.suffix_, other.exactMatch_,
        other.disposition_, other.unknownFields;
    }

    method WriteTo(output: CodedOutputStream)
      requires Valid()
      modifies output
      ensures output.buf == old(output.buf) + Bytes(SPLIT_DOMAIN_RULE, Value())
    {
      hide Upto, MsgOk, Bytes, PutRecs, PutVarint, ToWire, UnknownOk;
      ghost var s, v, base := SPLIT_DOMAIN_RULE, Value(), output.buf;
      StartWrite(s, v, base);
      WriteBlob(output, 10, suffix_, s, v, 0, base);
      WriteNumber(output, 16, Bool, Bit(exactMatch_), s, v, 1, base);
      WriteNumber(output, 24, Enum, disposition_, s, v, 2, base);
      ghost var done := output.buf;
      output.WriteUnknown(unknownFields);
      EndWrite(s, v, base, done, output.buf);
    }

    method CalculateSize() returns (size: nat)
      requires Valid()
      ensures size == |Bytes(SPLIT_DOMAIN_RULE, Value())|
    {
      DnsWellFormed();
      hide MsgOk, Bytes, WellFormed, PrefixSize, VarintSize, UnknownOk, NumberSize, BlobSize, Flags.View, FlagSize;
      ghost var s, v := SPLIT_DOMAIN_RULE, Value();
      size := 0;
      StartSize(s, v);
      size := size + BlobSize(suffix_);
      BlobSized(s, v, 0, 1, suffix_);
      size := size + NumberSize(Bool, Bit(exactMatch_));
      NumberSized(s, v, 1, 2, Bool, Bit(exactMatch_));
      size := size + NumberSize(Enum, disposition_);
      NumberSized(s, v, 2, 3, Enum, disposition_);
      size := size + UnknownSize(unknownFields);
      SizeIsLength(s, v);
    }

    method MergeFrom(other: SplitDomainRule)
      requires Valid() && other.Valid()
      modifies this
      ensures Valid()
      ensures Value() == Merge(SPLIT_DOMAIN_RULE, old(Value()), old(other.Value()))
    {
      hide MsgOk, Merge, Union, UnknownOk, MergedUpto, Newer, NewerBool, NewerBlob, Bit;
      ghost var s, a, b := SPLIT_DOMAIN_RULE, Value(), other.Value();
      UnionOk(s, unknownFields, other.unknownFields);
      MergeScalars(other);
      unknownFields := Union(unknownFields, other.unknownFields);
      ghost var v := Value();
      assert MergedUpto(s, a, b, v, 2) by {
        StartMerge(s, a, b, v);
        BlobMerged(s, a, b, v, 0, 1, old(suffix_), old(other.suffix_));
        BoolMerged(s, a, b, v, 1, 2, old(exactMatch_), old(other.exactMatch_));
      }
      assert MergedUpto(s, a, b, v, 3) by {
        NumberMerged(s, a, b, v, 2, 3, Enum, old(disposition_), old(other.disposition_));
      }
      EndMerge(s, a, b, v);
    }

    method MergeScalars(other: SplitDomainRule)
      modifies this`suffix_, this`exactMatch_, this`disposition_
      ensures suffix_ == NewerBlob(old(suffix_), old(other.suffix_))
      ensures exactMatch_ == NewerBool(old(exactMatch_), old(other.exactMatch_))
      ensures disposition_ == Newer(old(disposition_), old(other.disposition_))
    {
      if |other.suffix_| != 0 { suffix_ := other.suffix_; }
      if other.exactMatch_ { exactMatch_ := other.exactMatch_; }
      if other.disposition_ != 0 { disposition_ := other.disposition_; }
    }

    method MergeFromStream(input: CodedInputStream) returns (r: Option<()>)
      requires Valid() && input.Valid()
      modifies this, input`pos, input`limit
      ensures Valid() && input.Valid()
      ensures r.None? ==> RunBytes(SPLIT_DOMAIN_RULE, old(Value()), old(input.Rest())).None?
      ensures r.Some? ==> RunBytes(SPLIT_DOMAIN_RULE, old(Value()), old(input.Rest())) == Some(Value())
      ensures r.Some? ==> input.Rest() == [] && input.limit == old(input.limit)
    {
      hide RunBytes, MsgOk, GetTag, GetBody, Rejects, Accepts, UnknownOk;
      ghost var s, start := SPLIT_DOMAIN_RULE, RunBytes(SPLIT_DOMAIN_RULE, Value(), input.Rest());
      while true
        invariant Valid() && input.Valid() && input.limit == old(input.limit)
        invariant RunBytes(s, Value(), input.Rest()) == start
        decreases |input.Rest()|
      {
        ghost var b, m := input.Rest(), Value();
        PassTag(s, m, b);
        var tag :- input.ReadTag();
        if tag == 0 { break; }
        if tag % 8 == 4 { return None; }
        var ok := ReadField(tag, input);
        if ok.None? {
          PassRejected(s, m, b, GetTag(b).value);
          return None;
        }
        PassAccepted(s, m, b, GetTag(b).value, Value(), input.Rest());
      }
      return Some(());
    }

    /** The switch of the parse loop. */
    method ReadField(tag: nat, input: CodedInputStream) returns (r: Option<()>)
      requires Valid() && input.Valid() && 8 <= tag < TWO_32
      modifies this, input`pos, input`limit
      ensures Valid() && input.Valid() && (r.Some? ==> input.limit == old(input.limit))
      ensures r.None? ==> Rejects(SPLIT_DOMAIN_RULE, old(Value()), tag, old(input.Rest()))
      ensures r.Some? ==> Accepts(SPLIT_DOMAIN_RULE, old(Value()), tag, old(input.Rest()), Value(), input.Rest())
    {
      DnsWellFormed();
      hide Rejects, Accepts, MsgOk, WellFormed, GetLen, GetUInt64, GetBody, UnknownOk, Insert, Signed;
      ghost var s, m, b := SPLIT_DOMAIN_RULE, Value(), input.Rest();
      if tag == 10 {
        BlobRead(s, m, 0, 1, b);
        suffix_ :- input.ReadBytes();
        Updated(m, 0, Value());
        return Some(());
      } else if tag == 16 {
        NumberRead(s, m, 1, 2, Bool, b);
        exactMatch_ :- input.ReadBool();
        Updated(m, 1, Value());
        return Some(());
      } else if tag == 24 {
        NumberRead(s, m, 2, 3, Enum, b);
        disposition_ :- input.ReadEnum();
        Updated(m, 2, Value());
        return Some(());
      } else {
        DefaultRead(s, m, tag, b);
        var p :- input.ReadUnknown(tag);
        unknownFields := Insert(unknownFields, Rec(tag / 8, p));
        return Some(());
      }
    }
  }

  /** RepeatedField of SplitDomainRule: a list object of element objects. */
  class SplitDomainRuleList {
    var items: seq<SplitDomainRule>
    ghost var Contents: seq<Msg>    // the values of the elements
    ghost var Below: set<object>    // the elements and the objects below them

    /** The element with all its objects is below the list, and its value is `m`. */
    ghost predicate Holds(e: SplitDomainRule, m: Msg)
      reads this`Below, Below
    {
      e in Below && e.Valid() && e.Value() == m
    }

    ghost predicate Valid()
      reads this, Below
      ensures Valid() ==> ElementsOk(SPLIT_DOMAIN_RULE, Contents)
      ensures Valid() ==> forall o: object :: o in Below ==> o is SplitDomainRule
    {
      && |Contents| == |items|
      && (forall i :: 0 <= i < |items| ==> Holds(items[i], Contents[i]))
      && (forall o: object :: o in Below ==> o is SplitDomainRule)
    }

    constructor ()
      ensures Valid() && Contents == [] && Below == {}
    {
      items, Contents, Below := [], [], {};
    }

    /** Clone: a new list of a clone of each element. */
    constructor Clone(other: SplitDomainRuleList)
      requires other.Valid()
      ensures Valid() && fresh(Below) && Contents == other.Contents
    {
      items, Contents, Below := [], [], {};
      new;
      hide SplitDomainRule.Valid, SplitDomainRule.Value, ElementsOk, MsgOk;
      for i := 0 to |other.items|
        invariant Valid() && fresh(Below) && Contents == other.Contents[..i]
      {
        assert other.Holds(other.items[i], other.Contents[i]);
        var e := new SplitDomainRule.Clone(other.items[i]);
        Append(e);
      }
    }

    method Append(e: SplitDomainRule)
      requires Valid() && e.Valid()
      modifies this
      ensures Valid() && Contents == old(Contents) + [old(e.Value())]
      ensures Below == old(Below + {e})
    {
      hide SplitDomainRule.Valid, SplitDomainRule.Value, ElementsOk, MsgOk;
      items, Contents, Below := items + [e], Contents + [e.Value()], Below + {e};
    }

    /** Add(other): the elements of the other list, shared. */
    method Add(other: SplitDomainRuleList)
      requires Valid() && other.Valid()
      modifies this
      ensures Valid() && Contents == old(Contents) + old(other.Contents) && Below == old(Below) + old(other.Below)
    {
      hide SplitDomainRule.Valid, SplitDomainRule.Value, ElementsOk, MsgOk;
      items, Contents, Below := items + other.items, Contents + other.Contents, Below + other.Below;
    }

    /** WriteTo: each element writes itself behind its tag and length. */
    method WriteTo(output: CodedOutputStream, tag: nat, ghost s: Schema, ghost m: Msg, ghost k: nat,
                   ghost base: seq<byte>)
      requires Valid() && MsgOk(s, m) && k < |s.cells| && Upto(s, m, k, base, output.buf)
      requires tag < 128 && tag % 8 == 2 && s.cells[k] == Msgs(tag / 8, SPLIT_DOMAIN_RULE)
        && m.cells[k] == Ms(Contents)
      modifies output
      ensures Upto(s, m, k + 1, base, output.buf)
    {
      ghost var before := output.buf;
      WriteElements(output, tag, tag / 8);
      hide Upto, MsgOk, PutRecs, SubRecs, Valid;
      MsgsWritten(s, m, k, tag / 8, SPLIT_DOMAIN_RULE, base, before, output.buf);
    }

    method WriteElements(output: CodedOutputStream, tag: nat, num: nat)
      requires Valid() && num <= 15 && tag == 8 * num + 2
      modifies output
      ensures output.buf == old(output.buf) + PutRecs(SubRecs(num, SPLIT_DOMAIN_RULE, Contents))
    {
      hide PutRecs, PutRec, SubRecs, PutVarint, Bytes, MsgOk, SplitDomainRule.Valid, SplitDomainRule.Value;
      ghost var t, base, rs := SPLIT_DOMAIN_RULE, output.buf, SubRecs(num, SPLIT_DOMAIN_RULE, Contents);
      NoRecs(base, rs);
      SubRecsAt(num, t, Contents, 0);
      for i := 0 to |items|
        invariant Valid() && |rs| == |items| && output.buf == base + PutRecs(rs[..i])
      {
        SubRecsAt(num, t, Contents, i);
        assert Holds(items[i], Contents[i]);
        ghost var done := output.buf;
        output.WriteRawTag(tag);
        var size := items[i].CalculateSize();
        output.WriteVarint(size);
        items[i].WriteTo(output);
        LenWritten(done + PutVarint(tag), Bytes(t, Contents[i]));
        Emitted(done, Rec(num, Len(Bytes(t, Contents[i]))));
        Grow(base, done, rs, i);
      }
    }

    /** CalculateSize: each element's own size with its tag and length. */
    method CalculateSize() returns (size: nat)
      requires Valid()
      ensures size == MessagesSize(SPLIT_DOMAIN_RULE, Contents)
    {
      DnsWellFormed();
      hide MessagesSize, MsgOk, Bytes, WellFormed, SplitDomainRule.Valid, SplitDomainRule.Value;
      ghost var t := SPLIT_DOMAIN_RULE;
      size := 0;
      MessagesSizeAt(t, Contents, 0);
      for i := 0 to |items|
        invariant size == MessagesSize(t, Contents[..i])
      {
        MessagesSizeAt(t, Contents, i + 1);
        assert Holds(items[i], Contents[i]);
        var n := items[i].CalculateSize();
        SizeIsLength(t, Contents[i]);
        size := size + 1 + ComputeLengthSize(n);
      }
      assert Contents[..|items|] == Contents;
    }

    /** AddEntriesFrom: one record, parsed into a new element. */
    method AddEntry(input: CodedInputStream) returns (r: Option<()>)
      requires Valid() && input.Valid()
      modifies this, input`pos, input`limit
      ensures Valid() && input.Valid() && fresh(Below - old(Below)) && (r.Some? ==> input.limit == old(input.limit))
      ensures r.None? ==> Contents == old(Contents)
      ensures r.Some? ==> Contents != [] && Contents == old(Contents) + [Contents[|Contents| - 1]]
      ensures MsgOk(SPLIT_DOMAIN_RULE, Empty(SPLIT_DOMAIN_RULE))
      ensures SubParsed(SPLIT_DOMAIN_RULE, Empty(SPLIT_DOMAIN_RULE), old(input.Rest()), r,
                if r.None? then None else Some(Contents[|Contents| - 1]), input.Rest())
    {
      EmptyOk(SPLIT_DOMAIN_RULE);
      hide MsgOk, RunBytes, GetLen, Empty, ElementsOk, SplitDomainRule.Valid, SplitDomainRule.Value;
      var e := new SplitDomainRule();
      var outer :- input.PushLimit();
      var _ :- e.MergeFromStream(input);
      input.PopLimit(outer);
      Append(e);
      return Some(());
    }
  }

  /** A DNS policy. Four of its fields have explicit presence and share one word of bits. */
  class DNSPolicy {
    var dnspolicyId_: seq<byte>
    var version_: ulong
    var mode_: enum
    const serversV4_: IPv4AddressList
    const serversV6_: IPv6AddressList
    var serversDeclaredV4_: bool
    var serversDeclaredV6_: bool
    const splitDomains_: SplitDomainRuleList
    const searchDomains_: RepeatedValues
    var blockFallbackV4_: bool
    var blockFallbackV6_: bool
    var dnssecValidate_: bool
    var upstreamDot_: bool
    var notAfterMs_: ulong
    var hasBits0: Bits
    var unknownFields: seq<Rec>

    /** The presence bits with the four stored values. */
    function Present(): Flags
      reads this`hasBits0, this`serversDeclaredV4_, this`serversDeclaredV6_, this`blockFallbackV4_,
        this`blockFallbackV6_
    {
      Flags(hasBits0, serversDeclaredV4_, serversDeclaredV6_, blockFallbackV4_, blockFallbackV6_)
    }

    ghost predicate Valid()
      reads this, serversV4_, serversV6_, splitDomains_, searchDomains_, serversV4_.Below, serversV6_.Below,
        splitDomains_.Below
      ensures Valid() ==> forall o: object :: o in serversV4_.Below ==> o is IPv4Address
      ensures Valid() ==> forall o: object :: o in serversV6_.Below ==> o is IPv6Address
      ensures Valid() ==> forall o: object :: o in splitDomains_.Below ==> o is SplitDomainRule
    {
      && serversV4_.Valid()
      && serversV6_.Valid()
      && splitDomains_.Valid()
      && AllIn(Blob, searchDomains_.items)
      && UnknownOk(DNS_POLICY, unknownFields)
    }

    ghost function Value(): (m: Msg)
      requires Valid()
      reads this, serversV4_, serversV6_, splitDomains_, searchDomains_, serversV4_.Below, serversV6_.Below,
        splitDomains_.Below
      ensures MsgOk(DNS_POLICY, m)
    {
      hide Fourteen, MsgOk, UnknownOk, OkUpto, CellOk, Bit, Flags.View, IPv4AddressList.Valid,
        IPv6AddressList.Valid, SplitDomainRuleList.Valid;
      var s := DNS_POLICY;
      var m := Msg(Fourteen(
        V(B(dnspolicyId_)), V(N(version_)), V(N(mode_)), Ms(serversV4_.Contents), Ms(serversV6_.Contents),
        O(Shown(Present().View(0))), O(Shown(Present().View(1))), Ms(splitDomains_.Contents),
        Vs(searchDomains_.items), O(Shown(Present().View(2))), O(Shown(Present().View(3))),
        V(N(Bit(dnssecValidate_))), V(N(Bit(upstreamDot_))), V(N(notAfterMs_))), unknownFields);
      assert OkUpto(s, m, 5) by {
        StartOk(s, m);
        BlobOk(s, m, 0, 1, dnspolicyId_);
        NumberOk(s, m, 1, 2, U64, version_);
        NumberOk(s, m, 2, 3, Enum, mode_);
        MsgsOk(s, m, 3, 4, IPV4_ADDRESS, serversV4_.Contents);
        MsgsOk(s, m, 4, 5, IPV6_ADDRESS, serversV6_.Contents);
      }
      assert OkUpto(s, m, 10) by {
        FlagOk(s, m, 5, 6, Present().View(0));
        FlagOk(s, m, 6, 7, Present().View(1));
        MsgsOk(s, m, 7, 8, SPLIT_DOMAIN_RULE, splitDomains_.Contents);
        RepOk(s, m, 8, 9, searchDomains_.items);
        FlagOk(s, m, 9, 10, Present().View(2));
      }
      assert OkUpto(s, m, 14) by {
        FlagOk(s, m, 10, 11, Present().View(3));
        BoolOk(s, m, 11, 12, dnssecValidate_);
        BoolOk(s, m, 12, 13, upstreamDot_);
        NumberOk(s, m, 13, 14, U64, notAfterMs_);
      }
      EndOk(s, m);
      m
    }

    constructor ()
      ensures Valid() && fresh(serversV4_) && fresh(serversV6_) && fresh(splitDomains_)
        && fresh(searchDomains_) && serversV4_.Below == {} && serversV6_.Below == {}
        && splitDomains_.Below == {} && Value() == Empty(DNS_POLICY)
    {
      serversV4_ := new IPv4AddressList();
      serversV6_ := new IPv6AddressList();
      splitDomains_ := new SplitDomainRuleList();
      searchDomains_ := new RepeatedValues();
      dnspolicyId_, version_, mode_, serversDeclaredV4_ := [], 0, 0, false;
      serversDeclaredV6_, blockFallbackV4_, blockFallbackV6_, dnssecValidate_ := false, false, false, false;
      upstreamDot_, notAfterMs_, hasBits0, unknownFields := false, 0, 0, [];
      new;
      hide Value, Empty, IPv4AddressList.Valid, IPv6AddressList.Valid, SplitDomainRuleList.Valid;
      NewValue();
    }

    /** The value when every field is at its default. */
    lemma NewValue()
      requires Valid()
      requires dnspolicyId_ == [] && version_ == 0 && mode_ == 0 && serversV4_.Contents == []
      requires serversV6_.Contents == [] && splitDomains_.Contents == [] && searchDomains_.items == []
        && !dnssecValidate_
      requires !upstreamDot_ && notAfterMs_ == 0 && Present() == NO_FLAGS && unknownFields == []
      ensures Value() == Empty(DNS_POLICY)
    {
      hide MsgOk, Empty, UnknownOk, Has, Flags.View, Fourteen, IPv4AddressList.Valid, IPv6AddressList.Valid,
        SplitDomainRuleList.Valid;
      NoFlags();
      EmptyValue(DNS_POLICY, Value());
    }

    /** Clone: the copy constructor. */
    constructor Clone(other: DNSPolicy)
      requires other.Valid()
      ensures Valid() && fresh(serversV4_) && fresh(serversV6_) && fresh(splitDomains_)
        && fresh(searchDomains_) && fresh(serversV4_.Below) && fresh(serversV6_.Below)
        && fresh(splitDomains_.Below) && Value() == other.Value()
      ensures Present() == other.Present()
    {
      serversV4_ := new IPv4AddressList.Clone(other.serversV4_);
      serversV6_ := new IPv6AddressList.Clone(other.serversV6_);
      splitDomains_ := new SplitDomainRuleList.Clone(other.splitDomains_);
      searchDomains_ := new RepeatedValues.Clone(other.searchDomains_);
      dnspolicyId_, version_, mode_, serversDeclaredV4_ := other.dnspolicyId_, other.version_, other.mode_,
        other.serversDeclaredV4_;
      serversDeclaredV6_, blockFallbackV4_, blockFallbackV6_, dnssecValidate_ := other.serversDeclaredV6_,
        other.blockFallbackV4_, other.blockFallbackV6_, other.dnssecValidate_;
      upstreamDot_, notAfterMs_, hasBits0, unknownFields := other.upstreamDot_, other.notAfterMs_,
        other.hasBits0, other.unknownFields;
      new;
      hide MsgOk, UnknownOk, Value, IPv4AddressList.Valid, IPv6AddressList.Valid, SplitDomainRuleList.Valid;
      SameValue(other);
    }

    /** The value is made of the fields. */
    lemma SameValue(other: DNSPolicy)
      requires Valid() && other.Valid()
      requires dnspolicyId_ == other.dnspolicyId_ && version_ == other.version_ && mode_ == other.mode_
      requires serversV4_.Contents == other.serversV4_.Contents
        && serversV6_.Contents == other.serversV6_.Contents
        && splitDomains_.Contents == other.splitDomains_.Contents
      requires searchDomains_.items == other.searchDomains_.items
        && dnssecValidate_ == other.dnssecValidate_ && upstreamDot_ == other.upstreamDot_
      requires notAfterMs_ == other.notAfterMs_ && Present() == other.Present()
        && unknownFields == other.unknownFields
      ensures Value() == other.Value()
    {
      hide MsgOk, UnknownOk, Flags.View, Fourteen, IPv4AddressList.Valid, IPv6AddressList.Valid,
        SplitDomainRuleList.Valid;
    }

    predicate HasServersDeclaredV4()
      reads this`hasBits0
    {
      Has(hasBits0, 0)
    }

    predicate ServersDeclaredV4()
      reads this`hasBits0, this`serversDeclaredV4_
    {
      if Has(hasBits0, 0) then serversDeclaredV4_ else false
    }

    method SetServersDeclaredV4(v: bool)
      modifies this`hasBits0, this`serversDeclaredV4_
      ensures Present() == old(Present()).Set(0, v)
    {
      hasBits0, serversDeclaredV4_ := Raise(hasBits0, 0), v;
    }

    method ClearServersDeclaredV4()
      modifies this`hasBits0
      ensures Present() == old(Present()).Clear(0)
    {
      hasBits0 := Lower(hasBits0, 0);
    }

    predicate HasServersDeclaredV6()
      reads this`hasBits0
    {
      Has(hasBits0, 1)
    }

    predicate ServersDeclaredV6()
      reads this`hasBits0, this`serversDeclaredV6_
    {
      if Has(hasBits0, 1) then serversDeclaredV6_ else false
    }

    method SetServersDeclaredV6(v: bool)
      modifies this`hasBits0, this`serversDeclaredV6_
      ensures Present() == old(Present()).Set(1, v)
    {
      hasBits0, serversDeclaredV6_ := Raise(hasBits0, 1), v;
    }

    method ClearServersDeclaredV6()
      modifies this`hasBits0
      ensures Present() == old(Present()).Clear(1)
    {
      hasBits0 := Lower(hasBits0, 1);
    }

    predicate HasBlockFallbackV4()
      reads this`hasBits0
    {
      Has(hasBits0, 2)
    }

    predicate BlockFallbackV4()
      reads this`hasBits0, this`blockFallbackV4_
    {
      if Has(hasBits0, 2) then blockFallbackV4_ else false
    }

    method SetBlockFallbackV4(v: bool)
      modifies this`hasBits0, this`blockFallbackV4_
      ensures Present() == old(Present()).Set(2, v)
    {
      hasBits0, blockFallbackV4_ := Raise(hasBits0, 2), v;
    }

    method ClearBlockFallbackV4()
      modifies this`hasBits0
      ensures Present() == old(Present()).Clear(2)
    {
      hasBits0 := Lower(hasBits0, 2);
    }

    predicate HasBlockFallbackV6()
      reads this`hasBits0
    {
      Has(hasBits0, 3)
    }

    predicate BlockFallbackV6()
      reads this`hasBits0, this`blockFallbackV6_
    {
      if Has(hasBits0, 3) then blockFallbackV6_ else false
    }

    method SetBlockFallbackV6(v: bool)
      modifies this`hasBits0, this`blockFallbackV6_
      ensures Present() == old(Present()).Set(3, v)
    {
      hasBits0, blockFallbackV6_ := Raise(hasBits0, 3), v;
    }

    method ClearBlockFallbackV6()
      modifies this`hasBits0
      ensures Present() == old(Present()).Clear(3)
    {
      hasBits0 := Lower(hasBits0, 3);
    }

    method WriteTo(output: CodedOutputStream)
      requires Valid()
      modifies output
      ensures output.buf == old(output.buf) + Bytes(DNS_POLICY, Value())
    {
      hide Upto, MsgOk, Bytes, PutRecs, PutVarint, ToWire, UnknownOk, Fourteen, IPv4AddressList.Valid,
        IPv6AddressList.Valid, SplitDomainRuleList.Valid;
      ghost var s, v, base := DNS_POLICY, Value(), output.buf;
      StartWrite(s, v, base);
      WriteFirst(output, s, v, base);
      WriteSecond(output, s, v, base);
      ghost var done := output.buf;
      output.WriteUnknown(unknownFields);
      EndWrite(s, v, base, done, output.buf);
    }

    /** The first fields of WriteTo. */
    method WriteFirst(output: CodedOutputStream, ghost s: Schema, ghost v: Msg, ghost base: seq<byte>)
      requires Valid() && s == DNS_POLICY && v == Value() && Upto(s, v, 0, base, output.buf)
      modifies output
      ensures Upto(s, v, 7, base, output.buf)
    {
      hide Upto, MsgOk, UnknownOk, Flags.View, Fourteen, IPv4AddressList.Valid, IPv6AddressList.Valid,
        SplitDomainRuleList.Valid;
      WriteBlob(output, 10, dnspolicyId_, s, v, 0, base);
      WriteNumber(output, 16, U64, version_, s, v, 1, base);
      WriteNumber(output, 24, Enum, mode_, s, v, 2, base);
      serversV4_.WriteTo(output, 34, s, v, 3, base);
      serversV6_.WriteTo(output, 42, s, v, 4, base);
      WriteFlag(output, 48, Present().View(0), s, v, 5, base);
      WriteFlag(output, 56, Present().View(1), s, v, 6, base);
    }

    /** The other fields of WriteTo. */
    method WriteSecond(output: CodedOutputStream, ghost s: Schema, ghost v: Msg, ghost base: seq<byte>)
      requires Valid() && s == DNS_POLICY && v == Value() && Upto(s, v, 7, base, output.buf)
      modifies output
      ensures Upto(s, v, 14, base, output.buf)
    {
      hide Upto, MsgOk, UnknownOk, Flags.View, Fourteen, IPv4AddressList.Valid, IPv6AddressList.Valid,
        SplitDomainRuleList.Valid;
      splitDomains_.WriteTo(output, 66, s, v, 7, base);
      searchDomains_.WriteStrings(output, 74, s, v, 8, base);
      WriteFlag(output, 80, Present().View(2), s, v, 9, base);
      WriteFlag(output, 88, Present().View(3), s, v, 10, base);
      WriteNumber(output, 96, Bool, Bit(dnssecValidate_), s, v, 11, base);
      WriteNumber(output, 104, Bool, Bit(upstreamDot_), s, v, 12, base);
      WriteNumber(output, 112, U64, notAfterMs_, s, v, 13, base);
    }

    method CalculateSize() returns (size: nat)
      requires Valid()
      ensures size == |Bytes(DNS_POLICY, Value())|
    {
      DnsWellFormed();
      hide MsgOk, Bytes, WellFormed, PrefixSize, VarintSize, UnknownOk, NumberSize, BlobSize, Flags.View,
        FlagSize, Fourteen, IPv4AddressList.Valid, IPv6AddressList.Valid, SplitDomainRuleList.Valid;
      ghost var s, v := DNS_POLICY, Value();
      size := 0;
      var first := FirstSize(s, v);
      var second := SecondSize(s, v);
      size := first + second;
      size := size + UnknownSize(unknownFields);
      SizeIsLength(s, v);
    }

    /** What the first fields add to the size. */
    method FirstSize(ghost s: Schema, ghost v: Msg) returns (size: nat)
      requires Valid() && s == DNS_POLICY && v == Value()
      ensures size == PrefixSize(s, v, 7)
    {
      hide MsgOk, UnknownOk, PrefixSize, VarintSize, NumberSize, BlobSize, Flags.View, FlagSize, Fourteen,
        IPv4AddressList.Valid, IPv6AddressList.Valid, SplitDomainRuleList.Valid;
      size := 0;
      size := size + BlobSize(dnspolicyId_);
      size := size + NumberSize(U64, version_);
      size := size + NumberSize(Enum, mode_);
      var serversV4Size := serversV4_.CalculateSize();
      size := size + serversV4Size;
      assert size == PrefixSize(s, v, 4) by {
        StartSize(s, v);
        BlobSized(s, v, 0, 1, dnspolicyId_);
        NumberSized(s, v, 1, 2, U64, version_);
        NumberSized(s, v, 2, 3, Enum, mode_);
        MsgsSized(s, v, 3, 4, IPV4_ADDRESS, serversV4_.Contents);
      }
      var serversV6Size := serversV6_.CalculateSize();
      size := size + serversV6Size;
      size := size + FlagSize(Present().View(0));
      size := size + FlagSize(Present().View(1));
      assert size == PrefixSize(s, v, 7) by {
        MsgsSized(s, v, 4, 5, IPV6_ADDRESS, serversV6_.Contents);
        FlagSized(s, v, 5, 6, Present().View(0));
        FlagSized(s, v, 6, 7, Present().View(1));
      }
    }

    /** What the other fields add to the size. */
    method SecondSize(ghost s: Schema, ghost v: Msg) returns (size: nat)
      requires Valid() && s == DNS_POLICY && v == Value()
      ensures size == PrefixSize(s, v, 14) - PrefixSize(s, v, 7)
    {
      hide MsgOk, UnknownOk, PrefixSize, VarintSize, NumberSize, BlobSize, Flags.View, FlagSize, Fourteen,
        IPv4AddressList.Valid, IPv6AddressList.Valid, SplitDomainRuleList.Valid;
      size := 0;
      var splitDomainsSize := splitDomains_.CalculateSize();
      size := size + splitDomainsSize;
      size := size + ScalarsSize(Blob, searchDomains_.items);
      size := size + FlagSize(Present().View(2));
      size := size + FlagSize(Present().View(3));
      assert size == PrefixSize(s, v, 11) - PrefixSize(s, v, 7) by {
        MsgsSized(s, v, 7, 8, SPLIT_DOMAIN_RULE, splitDomains_.Contents);
        RepSized(s, v, 8, 9, searchDomains_.items);
        FlagSized(s, v, 9, 10, Present().View(2));
        FlagSized(s, v, 10, 11, Present().View(3));
      }
      size := size + NumberSize(Bool, Bit(dnssecValidate_));
      size := size + NumberSize(Bool, Bit(upstreamDot_));
      size := size + NumberSize(U64, notAfterMs_);
      assert size == PrefixSize(s, v, 14) - PrefixSize(s, v, 7) by {
        NumberSized(s, v, 11, 12, Bool, Bit(dnssecValidate_));
        NumberSized(s, v, 12, 13, Bool, Bit(upstreamDot_));
        NumberSized(s, v, 13, 14, U64, notAfterMs_);
      }
    }

    method MergeFrom(other: DNSPolicy)
      requires Valid() && other.Valid()
      modifies this, serversV4_, serversV6_, splitDomains_, searchDomains_
      ensures Valid()
      ensures serversV4_.Below == old(serversV4_.Below) + old(other.serversV4_.Below)
        && serversV6_.Below == old(serversV6_.Below) + old(other.serversV6_.Below)
        && splitDomains_.Below == old(splitDomains_.Below) + old(other.splitDomains_.Below)
      ensures Present() == old(Present()).Merge(old(other.Present()))
      ensures Value() == Merge(DNS_POLICY, old(Value()), old(other.Value()))
    {
      hide Value, MsgOk, Merge, Union, UnknownOk, Newer, NewerBool, NewerBlob, Flags.Merge,
        IPv4AddressList.Valid, IPv6AddressList.Valid, SplitDomainRuleList.Valid;
      UnionOk(DNS_POLICY, unknownFields, other.unknownFields);
      MergePlain(other);
      MergeFlags(other);
      MergeLists(other);
      MergedValue(other);
    }

    /** The fields merged one by one make the merged value. */
    twostate lemma MergedValue(other: DNSPolicy)
      requires old(Valid()) && old(other.Valid()) && Valid()
      requires dnspolicyId_ == NewerBlob(old(dnspolicyId_), old(other.dnspolicyId_))
      requires version_ == Newer(old(version_), old(other.version_))
      requires mode_ == Newer(old(mode_), old(other.mode_))
      requires serversV4_.Contents == old(serversV4_.Contents) + old(other.serversV4_.Contents)
      requires serversV6_.Contents == old(serversV6_.Contents) + old(other.serversV6_.Contents)
      requires splitDomains_.Contents == old(splitDomains_.Contents) + old(other.splitDomains_.Contents)
      requires searchDomains_.items == old(searchDomains_.items) + old(other.searchDomains_.items)
      requires dnssecValidate_ == NewerBool(old(dnssecValidate_), old(other.dnssecValidate_))
      requires upstreamDot_ == NewerBool(old(upstreamDot_), old(other.upstreamDot_))
      requires notAfterMs_ == Newer(old(notAfterMs_), old(other.notAfterMs_))
      requires Present() == old(Present()).Merge(old(other.Present()))
      requires unknownFields == Union(old(unknownFields), old(other.unknownFields))
      ensures Value() == Merge(DNS_POLICY, old(Value()), old(other.Value()))
    {
      hide MsgOk, Merge, Union, UnknownOk, MergedUpto, Newer, NewerBool, NewerBlob, Bit, Flags.View,
        Flags.Merge, Fourteen, IPv4AddressList.Valid, IPv6AddressList.Valid, SplitDomainRuleList.Valid;
      var s, a, b := DNS_POLICY, old(Value()), old(other.Value());
      var v := Value();
      assert MergedUpto(s, a, b, v, 3) by {
        StartMerge(s, a, b, v);
        BlobMerged(s, a, b, v, 0, 1, old(dnspolicyId_), old(other.dnspolicyId_));
        NumberMerged(s, a, b, v, 1, 2, U64, old(version_), old(other.version_));
        NumberMerged(s, a, b, v, 2, 3, Enum, old(mode_), old(other.mode_));
      }
      assert MergedUpto(s, a, b, v, 6) by {
        MsgsMerged(s, a, b, v, 3, 4, IPV4_ADDRESS, old(serversV4_.Contents), old(other.serversV4_.Contents));
        MsgsMerged(s, a, b, v, 4, 5, IPV6_ADDRESS, old(serversV6_.Contents), old(other.serversV6_.Contents));
        FlagMerged(s, a, b, v, 5, 6, old(Present()), old(other.Present()), 0);
      }
      assert MergedUpto(s, a, b, v, 9) by {
        FlagMerged(s, a, b, v, 6, 7, old(Present()), old(other.Present()), 1);
        MsgsMerged(s, a, b, v, 7, 8, SPLIT_DOMAIN_RULE, old(splitDomains_.Contents),
          old(other.splitDomains_.Contents));
        RepMerged(s, a, b, v, 8, 9, old(searchDomains_.items), old(other.searchDomains_.items));
      }
      assert MergedUpto(s, a, b, v, 12) by {
        FlagMerged(s, a, b, v, 9, 10, old(Present()), old(other.Present()), 2);
        FlagMerged(s, a, b, v, 10, 11, old(Present()), old(other.Present()), 3);
        BoolMerged(s, a, b, v, 11, 12, old(dnssecValidate_), old(other.dnssecValidate_));
      }
      assert MergedUpto(s, a, b, v, 14) by {
        BoolMerged(s, a, b, v, 12, 13, old(upstreamDot_), old(other.upstreamDot_));
        NumberMerged(s, a, b, v, 13, 14, U64, old(notAfterMs_), old(other.notAfterMs_));
      }
      EndMerge(s, a, b, v);
    }

    /** The numbers and strings, and the unknown fields. */
    method MergePlain(other: DNSPolicy)
      modifies
               this`dnspolicyId_, this`version_, this`mode_, this`dnssecValidate_, this`upstreamDot_,
               this`notAfterMs_, this`unknownFields
      ensures dnspolicyId_ == NewerBlob(old(dnspolicyId_), old(other.dnspolicyId_))
      ensures version_ == Newer(old(version_), old(other.version_))
      ensures mode_ == Newer(old(mode_), old(other.mode_))
      ensures dnssecValidate_ == NewerBool(old(dnssecValidate_), old(other.dnssecValidate_))
      ensures upstreamDot_ == NewerBool(old(upstreamDot_), old(other.upstreamDot_))
      ensures notAfterMs_ == Newer(old(notAfterMs_), old(other.notAfterMs_))
      ensures unknownFields == Union(old(unknownFields), old(other.unknownFields))
    {
      hide Newer, NewerBool, NewerBlob, Union, IPv4AddressList.Valid, IPv6AddressList.Valid,
        SplitDomainRuleList.Valid;
      MergeHead(other);
      MergeTail(other);
      unknownFields := Union(unknownFields, other.unknownFields);
    }

    method MergeLists(other: DNSPolicy)
      requires serversV4_.Valid() && other.serversV4_.Valid() && serversV6_.Valid()
        && other.serversV6_.Valid() && splitDomains_.Valid() && other.splitDomains_.Valid()
      modifies serversV4_, serversV6_, splitDomains_, searchDomains_
      ensures serversV4_.Valid() && serversV4_.Contents == old(serversV4_.Contents) + old(other.serversV4_.Contents)
      ensures serversV4_.Below == old(serversV4_.Below) + old(other.serversV4_.Below)
      ensures serversV6_.Valid() && serversV6_.Contents == old(serversV6_.Contents) + old(other.serversV6_.Contents)
      ensures serversV6_.Below == old(serversV6_.Below) + old(other.serversV6_.Below)
      ensures splitDomains_.Valid() && splitDomains_.Contents == old(splitDomains_.Contents)
        + old(other.splitDomains_.Contents)
      ensures splitDomains_.Below == old(splitDomains_.Below) + old(other.splitDomains_.Below)
      ensures searchDomains_.items == old(searchDomains_.items) + old(other.searchDomains_.items)
    {
      hide MsgOk, ElementsOk, IPv4AddressList.Valid, IPv6AddressList.Valid, SplitDomainRuleList.Valid;
      serversV4_.Add(other.serversV4_);
      serversV6_.Add(other.serversV6_);
      splitDomains_.Add(other.splitDomains_);
      searchDomains_.Add(other.searchDomains_);
    }

    method MergeFlags(other: DNSPolicy)
      modifies this`hasBits0, this`serversDeclaredV4_, this`serversDeclaredV6_, this`blockFallbackV4_,
        this`blockFallbackV6_
      ensures Present() == old(Present()).Merge(old(other.Present()))
    {
      hide Has, Raise, Flags.Set, IPv4AddressList.Valid, IPv6AddressList.Valid, SplitDomainRuleList.Valid;
      ghost var g := other.Present();
      SetSame(g, 0);
      if other.HasServersDeclaredV4() { SetServersDeclaredV4(other.ServersDeclaredV4()); }
      SetSame(g, 1);
      if other.HasServersDeclaredV6() { SetServersDeclaredV6(other.ServersDeclaredV6()); }
      SetSame(g, 2);
      if other.HasBlockFallbackV4() { SetBlockFallbackV4(other.BlockFallbackV4()); }
      SetSame(g, 3);
      if other.HasBlockFallbackV6() { SetBlockFallbackV6(other.BlockFallbackV6()); }
    }

    method MergeHead(other: DNSPolicy)
      modifies this`dnspolicyId_, this`version_, this`mode_
      ensures dnspolicyId_ == NewerBlob(old(dnspolicyId_), old(other.dnspolicyId_))
      ensures version_ == Newer(old(version_), old(other.version_))
      ensures mode_ == Newer(old(mode_), old(other.mode_))
    {
      if |other.dnspolicyId_| != 0 { dnspolicyId_ := other.dnspolicyId_; }
      if other.version_ != 0 { version_ := other.version_; }
      if other.mode_ != 0 { mode_ := other.mode_; }
    }

    method MergeTail(other: DNSPolicy)
      modifies this`dnssecValidate_, this`upstreamDot_, this`notAfterMs_
      ensures dnssecValidate_ == NewerBool(old(dnssecValidate_), old(other.dnssecValidate_))
      ensures upstreamDot_ == NewerBool(old(upstreamDot_), old(other.upstreamDot_))
      ensures notAfterMs_ == Newer(old(notAfterMs_), old(other.notAfterMs_))
    {
      if other.dnssecValidate_ { dnssecValidate_ := other.dnssecValidate_; }
      if other.upstreamDot_ { upstreamDot_ := other.upstreamDot_; }
      if other.notAfterMs_ != 0 { notAfterMs_ := other.notAfterMs_; }
    }

    method MergeFromStream(input: CodedInputStream) returns (r: Option<()>)
      requires Valid() && input.Valid()
      modifies this, serversV4_, serversV6_, splitDomains_, searchDomains_, input`pos, input`limit
      ensures Valid() && input.Valid() && fresh(serversV4_.Below - old(serversV4_.Below))
        && fresh(serversV6_.Below - old(serversV6_.Below))
        && fresh(splitDomains_.Below - old(splitDomains_.Below))
      ensures r.None? ==> RunBytes(DNS_POLICY, old(Value()), old(input.Rest())).None?
      ensures r.Some? ==> RunBytes(DNS_POLICY, old(Value()), old(input.Rest())) == Some(Value())
      ensures r.Some? ==> input.Rest() == [] && input.limit == old(input.limit)
    {
      hide RunBytes, MsgOk, GetTag, GetBody, Rejects, Accepts, UnknownOk, Fourteen, IPv4AddressList.Valid,
        IPv6AddressList.Valid, SplitDomainRuleList.Valid;
      ghost var s, start := DNS_POLICY, RunBytes(DNS_POLICY, Value(), input.Rest());
      while true
        invariant Valid() && input.Valid() && input.limit == old(input.limit)
        invariant fresh(serversV4_.Below - old(serversV4_.Below))
          && fresh(serversV6_.Below - old(serversV6_.Below))
          && fresh(splitDomains_.Below - old(splitDomains_.Below))
        invariant RunBytes(s, Value(), input.Rest()) == start
        decreases |input.Rest()|
      {
        ghost var b, m := input.Rest(), Value();
        PassTag(s, m, b);
        var tag :- input.ReadTag();
        if tag == 0 { break; }
        if tag % 8 == 4 { return None; }
        var ok := ReadField(tag, input);
        if ok.None? {
          PassRejected(s, m, b, GetTag(b).value);
          return None;
        }
        PassAccepted(s, m, b, GetTag(b).value, Value(), input.Rest());
      }
      return Some(());
    }

    /** The switch of the parse loop. */
    method ReadField(tag: nat, input: CodedInputStream) returns (r: Option<()>)
      requires Valid() && input.Valid() && 8 <= tag < TWO_32
      modifies this, serversV4_, serversV6_, splitDomains_, searchDomains_, input`pos, input`limit
      ensures Valid() && input.Valid() && (r.Some? ==> input.limit == old(input.limit))
      ensures fresh(serversV4_.Below - old(serversV4_.Below))
        && fresh(serversV6_.Below - old(serversV6_.Below))
        && fresh(splitDomains_.Below - old(splitDomains_.Below))
      ensures r.None? ==> Rejects(DNS_POLICY, old(Value()), tag, old(input.Rest()))
      ensures r.Some? ==> Accepts(DNS_POLICY, old(Value()), tag, old(input.Rest()), Value(), input.Rest())
    {
      DnsWellFormed();
      hide Rejects, Accepts, MsgOk, WellFormed, GetLen, GetUInt64, GetBody, UnknownOk, Insert, Signed, Has,
        Raise, Flags.Set, Flags.View, Fourteen, IPv4AddressList.Valid, IPv6AddressList.Valid,
        SplitDomainRuleList.Valid;
      ghost var s, m, b := DNS_POLICY, Value(), input.Rest();
      if tag == 10 {
        BlobRead(s, m, 0, 1, b);
        dnspolicyId_ :- input.ReadBytes();
        Updated(m, 0, Value());
        return Some(());
      } else if tag == 16 {
        NumberRead(s, m, 1, 2, U64, b);
        version_ :- input.ReadUInt64();
        Updated(m, 1, Value());
        return Some(());
      } else {
        r := ReadField2(tag, input);
      }
    }

    /** The rest of the switch. */
    method ReadField2(tag: nat, input: CodedInputStream) returns (r: Option<()>)
      requires Valid() && input.Valid() && 8 <= tag < TWO_32
      requires tag !in {10, 16}
      modifies this, serversV4_, serversV6_, splitDomains_, searchDomains_, input`pos, input`limit
      ensures Valid() && input.Valid() && (r.Some? ==> input.limit == old(input.limit))
      ensures fresh(serversV4_.Below - old(serversV4_.Below))
        && fresh(serversV6_.Below - old(serversV6_.Below))
        && fresh(splitDomains_.Below - old(splitDomains_.Below))
      ensures r.None? ==> Rejects(DNS_POLICY, old(Value()), tag, old(input.Rest()))
      ensures r.Some? ==> Accepts(DNS_POLICY, old(Value()), tag, old(input.Rest()), Value(), input.Rest())
    {
      DnsWellFormed();
      hide Rejects, Accepts, MsgOk, WellFormed, GetLen, GetUInt64, GetBody, UnknownOk, Insert, Signed,
        RunBytes, Empty, Has, Raise, Flags.Set, Flags.View, Fourteen, IPv4AddressList.Valid,
        IPv6AddressList.Valid, SplitDomainRuleList.Valid;
      ghost var s, m, b := DNS_POLICY, Value(), input.Rest();
      if tag == 24 {
        NumberRead(s, m, 2, 3, Enum, b);
        mode_ :- input.ReadEnum();
        Updated(m, 2, Value());
        return Some(());
      } else if tag == 34 {
        MsgsRead(s, m, 3, 4, IPV4_ADDRESS, serversV4_.Contents, b);
        var _ :- serversV4_.AddEntry(input);
        Updated(m, 3, Value());
        return Some(());
      } else {
        r := ReadField3(tag, input);
      }
    }

    /** The rest of the switch. */
    method ReadField3(tag: nat, input: CodedInputStream) returns (r: Option<()>)
      requires Valid() && input.Valid() && 8 <= tag < TWO_32
      requires tag !in {10, 16, 24, 34}
      modifies this, serversV4_, serversV6_, splitDomains_, searchDomains_, input`pos, input`limit
      ensures Valid() && input.Valid() && (r.Some? ==> input.limit == old(input.limit))
      ensures fresh(serversV4_.Below - old(serversV4_.Below))
        && fresh(serversV6_.Below - old(serversV6_.Below))
        && fresh(splitDomains_.Below - old(splitDomains_.Below))
      ensures r.None? ==> Rejects(DNS_POLICY, old(Value()), tag, old(input.Rest()))
      ensures r.Some? ==> Accepts(DNS_POLICY, old(Value()), tag, old(input.Rest()), Value(), input.Rest())
    {
      DnsWellFormed();
      hide Rejects, Accepts, MsgOk, WellFormed, GetLen, GetUInt64, GetBody, UnknownOk, Insert, Signed,
        RunBytes, Empty, Has, Raise, Flags.Set, Flags.View, Fourteen, IPv4AddressList.Valid,
        IPv6AddressList.Valid, SplitDomainRuleList.Valid;
      ghost var s, m, b := DNS_POLICY, Value(), input.Rest();
      if tag == 42 {
        MsgsRead(s, m, 4, 5, IPV6_ADDRESS, serversV6_.Contents, b);
        var _ :- serversV6_.AddEntry(input);
        Updated(m, 4, Value());
        return Some(());
      } else if tag == 48 {
        OptRead(s, m, 5, 6, Bool, b);
        var v :- input.ReadBool();
        SetServersDeclaredV4(v);
        SetViews(old(Present()), 0, v);
        Updated(m, 5, Value());
        return Some(());
      } else {
        r := ReadField4(tag, input);
      }
    }

    /** The rest of the switch. */
    method ReadField4(tag: nat, input: CodedInputStream) returns (r: Option<()>)
      requires Valid() && input.Valid() && 8 <= tag < TWO_32
      requires tag !in {10, 16, 24, 34, 42, 48}
      modifies this, serversV4_, serversV6_, splitDomains_, searchDomains_, input`pos, input`limit
      ensures Valid() && input.Valid() && (r.Some? ==> input.limit == old(input.limit))
      ensures fresh(serversV4_.Below - old(serversV4_.Below))
        && fresh(serversV6_.Below - old(serversV6_.Below))
        && fresh(splitDomains_.Below - old(splitDomains_.Below))
      ensures r.None? ==> Rejects(DNS_POLICY, old(Value()), tag, old(input.Rest()))
      ensures r.Some? ==> Accepts(DNS_POLICY, old(Value()), tag, old(input.Rest()), Value(), input.Rest())
    {
      DnsWellFormed();
      hide Rejects, Accepts, MsgOk, WellFormed, GetLen, GetUInt64, GetBody, UnknownOk, Insert, Signed,
        RunBytes, Empty, Has, Raise, Flags.Set, Flags.View, Fourteen, IPv4AddressList.Valid,
        IPv6AddressList.Valid, SplitDomainRuleList.Valid;
      ghost var s, m, b := DNS_POLICY, Value(), input.Rest();
      if tag == 56 {
        OptRead(s, m, 6, 7, Bool, b);
        var v :- input.ReadBool();
        SetServersDeclaredV6(v);
        SetViews(old(Present()), 1, v);
        Updated(m, 6, Value());
        return Some(());
      } else if tag == 66 {
        MsgsRead(s, m, 7, 8, SPLIT_DOMAIN_RULE, splitDomains_.Contents, b);
        var _ :- splitDomains_.AddEntry(input);
        Updated(m, 7, Value());
        return Some(());
      } else {
        r := ReadField5(tag, input);
      }
    }

    /** The rest of the switch. */
    method ReadField5(tag: nat, input: CodedInputStream) returns (r: Option<()>)
      requires Valid() && input.Valid() && 8 <= tag < TWO_32
      requires tag !in {10, 16, 24, 34, 42, 48, 56, 66}
      modifies this, serversV4_, serversV6_, splitDomains_, searchDomains_, input`pos, input`limit
      ensures Valid() && input.Valid() && (r.Some? ==> input.limit == old(input.limit))
      ensures fresh(serversV4_.Below - old(serversV4_.Below))
        && fresh(serversV6_.Below - old(serversV6_.Below))
        && fresh(splitDomains_.Below - old(splitDomains_.Below))
      ensures r.None? ==> Rejects(DNS_POLICY, old(Value()), tag, old(input.Rest()))
      ensures r.Some? ==> Accepts(DNS_POLICY, old(Value()), tag, old(input.Rest()), Value(), input.Rest())
    {
      DnsWellFormed();
      hide Rejects, Accepts, MsgOk, WellFormed, GetLen, GetUInt64, GetBody, UnknownOk, Insert, Signed, Has,
        Raise, Flags.Set, Flags.View, Fourteen, IPv4AddressList.Valid, IPv6AddressList.Valid,
        SplitDomainRuleList.Valid;
      ghost var s, m, b := DNS_POLICY, Value(), input.Rest();
      if tag == 74 {
        RepRead(s, m, 8, 9, searchDomains_.items, b);
        var e :- input.ReadBytes();
        searchDomains_.Append(B(e));
        Updated(m, 8, Value());
        return Some(());
      } else if tag == 80 {
        OptRead(s, m, 9, 10, Bool, b);
        var v :- input.ReadBool();
        SetBlockFallbackV4(v);
        SetViews(old(Present()), 2, v);
        Updated(m, 9, Value());
        return Some(());
      } else {
        r := ReadField6(tag, input);
      }
    }

    /** The rest of the switch. */
    method ReadField6(tag: nat, input: CodedInputStream) returns (r: Option<()>)
      requires Valid() && input.Valid() && 8 <= tag < TWO_32
      requires tag !in {10, 16, 24, 34, 42, 48, 56, 66, 74, 80}
      modifies this, serversV4_, serversV6_, splitDomains_, searchDomains_, input`pos, input`limit
      ensures Valid() && input.Valid() && (r.Some? ==> input.limit == old(input.limit))
      ensures fresh(serversV4_.Below - old(serversV4_.Below))
        && fresh(serversV6_.Below - old(serversV6_.Below))
        && fresh(splitDomains_.Below - old(splitDomains_.Below))
      ensures r.None? ==> Rejects(DNS_POLICY, old(Value()), tag, old(input.Rest()))
      ensures r.Some? ==> Accepts(DNS_POLICY, old(Value()), tag, old(input.Rest()), Value(), input.Rest())
    {
      DnsWellFormed();
      hide Rejects, Accepts, MsgOk, WellFormed, GetLen, GetUInt64, GetBody, UnknownOk, Insert, Signed, Has,
        Raise, Flags.Set, Flags.View, Fourteen, IPv4AddressList.Valid, IPv6AddressList.Valid,
        SplitDomainRuleList.Valid;
      ghost var s, m, b := DNS_POLICY, Value(), input.Rest();
      if tag == 88 {
        OptRead(s, m, 10, 11, Bool, b);
        var v :- input.ReadBool();
        SetBlockFallbackV6(v);
        SetViews(old(Present()), 3, v);
        Updated(m, 10, Value());
        return Some(());
      } else if tag == 96 {
        NumberRead(s, m, 11, 12, Bool, b);
        dnssecValidate_ :- input.ReadBool();
        Updated(m, 11, Value());
        return Some(());
      } else {
        r := ReadField7(tag, input);
      }
    }

    /** The rest of the switch. */
    method ReadField7(tag: nat, input: CodedInputStream) returns (r: Option<()>)
      requires Valid() && input.Valid() && 8 <= tag < TWO_32
      requires tag !in {10, 16, 24, 34, 42, 48, 56, 66, 74, 80, 88, 96}
      modifies this, serversV4_, serversV6_, splitDomains_, searchDomains_, input`pos, input`limit
      ensures Valid() && input.Valid() && (r.Some? ==> input.limit == old(input.limit))
      ensures fresh(serversV4_.Below - old(serversV4_.Below))
        && fresh(serversV6_.Below - old(serversV6_.Below))
        && fresh(splitDomains_.Below - old(splitDomains_.Below))
      ensures r.None? ==> Rejects(DNS_POLICY, old(Value()), tag, old(input.Rest()))
      ensures r.Some? ==> Accepts(DNS_POLICY, old(Value()), tag, old(input.Rest()), Value(), input.Rest())
    {
      DnsWellFormed();
      hide Rejects, Accepts, MsgOk, WellFormed, GetLen, GetUInt64, GetBody, UnknownOk, Insert, Signed, Has,
        Raise, Flags.Set, Flags.View, Fourteen, IPv4AddressList.Valid, IPv6AddressList.Valid,
        SplitDomainRuleList.Valid;
      ghost var s, m, b := DNS_POLICY, Value(), input.Rest();
      if tag == 104 {
        NumberRead(s, m, 12, 13, Bool, b);
        upstreamDot_ :- input.ReadBool();
        Updated(m, 12, Value());
        return Some(());
      } else if tag == 112 {
        NumberRead(s, m, 13, 14, U64, b);
        notAfterMs_ :- input.ReadUInt64();
        Updated(m, 13, Value());
        return Some(());
      } else {
        r := ReadUnknown(tag, input);
      }
    }

    /** The default label. */
    method ReadUnknown(tag: nat, input: CodedInputStream) returns (r: Option<()>)
      requires Valid() && input.Valid() && 8 <= tag < TWO_32
      requires tag !in {10, 16, 24, 34, 42, 48, 56, 66, 74, 80, 88, 96, 104, 112}
      modifies this, serversV4_, serversV6_, splitDomains_, searchDomains_, input`pos, input`limit
      ensures Valid() && input.Valid() && (r.Some? ==> input.limit == old(input.limit))
      ensures fresh(serversV4_.Below - old(serversV4_.Below))
        && fresh(serversV6_.Below - old(serversV6_.Below))
        && fresh(splitDomains_.Below - old(splitDomains_.Below))
      ensures r.None? ==> Rejects(DNS_POLICY, old(Value()), tag, old(input.Rest()))
      ensures r.Some? ==> Accepts(DNS_POLICY, old(Value()), tag, old(input.Rest()), Value(), input.Rest())
    {
      DnsWellFormed();
      hide Rejects, Accepts, MsgOk, WellFormed, GetLen, GetUInt64, GetBody, UnknownOk, Insert, Signed, Has,
        Raise, Flags.Set, Flags.View, NoLabel, Fourteen, IPv4AddressList.Valid, IPv6AddressList.Valid,
        SplitDomainRuleList.Valid;
      ghost var s, m, b := DNS_POLICY, Value(), input.Rest();
      Unlabelled(tag);
      DefaultRead(s, m, tag, b);
      var p :- input.ReadUnknown(tag);
      unknownFields := Insert(unknownFields, Rec(tag / 8, p));
      return Some(());
    }

    /** A tag that is none of the case labels. */
    static lemma Unlabelled(tag: nat)
      requires tag !in {10, 16, 24, 34, 42, 48, 56, 66, 74, 80, 88, 96, 104, 112}
      ensures |DNS_POLICY.cells| <= 14 && NoLabel(DNS_POLICY, tag)
    {
      hide Fourteen, IPv4AddressList.Valid, IPv6AddressList.Valid, SplitDomainRuleList.Valid;
    }
  }
}
