/** What WriteTo of each class puts on the wire, field by field and number by number: the records
    under each tag, read back from the bytes. */
module Written {
  import opened Seqs
  import opened Wire
  import opened Unknown
  import opened Codec
  import opened Refinement
  import opened Sizes
  import opened Format
  import opened Fields
  import opened Schemas
  import opened Streams
  import opened Classes
  import opened Presence
  import opened Repeated
  import opened Capability
  import opened Common
  import opened Errors
  import opened Dns
  import opened Candidate

  /** The records the message writes under the number with the wire type. */
  ghost function Under(s: Schema, m: Msg, num: nat, wt: nat): seq<Rec>
    requires WellFormed(s) && MsgOk(s, m)
  {
    Tagged(Wrote(s, m), num, wt)
  }

  /** A number member of a oneof: written when it is the member held, zero too. */
  lemma NumberMember(s: Schema, m: Msg, k: nat, arms: seq<Arm>, i: nat, num: nat, kind: NumKind, held: bool, v: int)
    requires WellFormed(s) && MsgOk(s, m) && k < |s.cells| == |m.cells| && s.cells[k] == Alt(arms)
    requires CellOk(Alt(arms), m.cells[k]) && i < |arms| && arms[i] == ScalarArm(num, kind)
    requires held ==> m.cells[k] == PickV(i, N(v))
    requires !held ==> !m.cells[k].PickV? || m.cells[k].arm != i
    ensures Under(s, m, num, 0) == if held then [Rec(num, Varint(v % 0x1_0000_0000_0000_0000))] else []
  {
    hide WellFormed, MsgOk;
    WroteMember(s, m, k, arms, i, num, 0);
  }

  lemma FlagWritten(s: Schema, m: Msg, k: nat, num: nat, o: Option<bool>)
    requires WellFormed(s) && MsgOk(s, m) && k < |s.cells| == |m.cells|
    requires s.cells[k] == Opt(num, Bool) && m.cells[k] == O(Shown(o))
    ensures Under(s, m, num, 0) == if o.None? then [] else [Rec(num, Varint(if o.value then 1 else 0))]
  {
    hide WellFormed, MsgOk;
    WroteOptional(s, m, k, num, Bool, Shown(o));
  }

  /** Each explicit-presence field has its own bit of the word. */
  lemma PresenceMeans(f: Flags)
    ensures f.View(0) == if f.bits & 1 == 0 then None else Some(f.v0)
    ensures f.View(1) == if f.bits & 2 == 0 then None else Some(f.v1)
    ensures f.View(2) == if f.bits & 4 == 0 then None else Some(f.v2)
    ensures f.View(3) == if f.bits & 8 == 0 then None else Some(f.v3)
  {
  }


  lemma StringSetWritten(o: StringSet)
    requires o.Valid()
    ensures WellFormed(STRING_SET)
    ensures Under(STRING_SET, o.Value(), 1, 2) == StringRecs(1, o.values_.items)
  {
    StringSetWellFormed();
    hide WellFormed, MsgOk, Wrote, Tagged, Bytes, NumberRecs, BlobRecs, StringRecs, MessageRecs, PackedRecs;
    var s, m := STRING_SET, o.Value();
    WroteStrings(s, m, 0, 1, o.values_.items);
  }

  lemma CapabilityParameterWritten(o: CapabilityParameter)
    requires o.Valid()
    ensures WellFormed(CAPABILITY_PARAMETER)
    ensures Under(CAPABILITY_PARAMETER, o.Value(), 1, 2) == BlobRecs(1, o.name_)
    ensures Under(CAPABILITY_PARAMETER, o.Value(), 2, 0) == NumberRecs(2, o.reduction_)
    ensures Under(CAPABILITY_PARAMETER, o.Value(), 3, 0) ==
            if o.value_.UintValue? then [Rec(3, Varint(o.value_.uintValue))] else []
    ensures Under(CAPABILITY_PARAMETER, o.Value(), 4, 2) ==
            if o.value_.SetValue? then [Rec(4, Len(Bytes(STRING_SET, o.value_.setValue.Value())))] else []
  {
    CapabilityTreeWellFormed();
    hide WellFormed, MsgOk, Wrote, Tagged, Bytes, NumberRecs, BlobRecs, StringRecs, MessageRecs, PackedRecs,
      StringSet.Valid, StringSet.Value;
    var s, m := CAPABILITY_PARAMETER, o.Value();
    WroteBlob(s, m, 0, 1, o.name_);
    WroteNumber(s, m, 1, 2, Enum, o.reduction_);
    NumberMember(s, m, 2, PARAMETER_VALUE, 0, 3, U64, o.value_.UintValue?,
      if o.value_.UintValue? then o.value_.uintValue else 0);
    WroteMember(s, m, 2, PARAMETER_VALUE, 1, 4, 2);
  }

  lemma CapabilityWritten(o: Capability)
    requires o.Valid()
    ensures WellFormed(CAPABILITY)
    ensures Under(CAPABILITY, o.Value(), 1, 2) == BlobRecs(1, o.name_)
    ensures Under(CAPABILITY, o.Value(), 2, 0) == NumberRecs(2, o.major_)
    ensures Under(CAPABILITY, o.Value(), 3, 2) == MessageRecs(3, CAPABILITY_PARAMETER, o.parameters_.Contents)
  {
    CapabilityTreeWellFormed();
    hide WellFormed, MsgOk, Wrote, Tagged, Bytes, NumberRecs, BlobRecs, StringRecs, MessageRecs, PackedRecs,
      CapabilityParameterList.Valid;
    var s, m := CAPABILITY, o.Value();
    WroteBlob(s, m, 0, 1, o.name_);
    WroteNumber(s, m, 1, 2, U32, o.major_);
    WroteMessages(s, m, 2, 3, CAPABILITY_PARAMETER, o.parameters_.Contents);
  }

  lemma CapabilitySetWritten(o: CapabilitySet)
    requires o.Valid()
    ensures WellFormed(CAPABILITY_SET)
    ensures Under(CAPABILITY_SET, o.Value(), 1, 2) == MessageRecs(1, CAPABILITY, o.capabilities_.Contents)
  {
    CapabilityTreeWellFormed();
    hide WellFormed, MsgOk, Wrote, Tagged, Bytes, NumberRecs, BlobRecs, StringRecs, MessageRecs, PackedRecs,
      CapabilityList.Valid;
    var s, m := CAPABILITY_SET, o.Value();
    WroteMessages(s, m, 0, 1, CAPABILITY, o.capabilities_.Contents);
  }

  lemma NegotiationResultWritten(o: NegotiationResult)
    requires o.Valid()
    ensures WellFormed(NEGOTIATION_RESULT)
    ensures Under(NEGOTIATION_RESULT, o.Value(), 1, 0) == NumberRecs(1, o.selectedEpoch_)
    ensures Under(NEGOTIATION_RESULT, o.Value(), 2, 2) ==
            if o.selectedCapabilities_ == null then []
            else [Rec(2, Len(Bytes(CAPABILITY_SET, o.selectedCapabilities_.Value())))]
    ensures Under(NEGOTIATION_RESULT, o.Value(), 3, 2) == BlobRecs(3, o.negotiationHash_)
  {
    CapabilityTreeWellFormed();
    hide WellFormed, MsgOk, Wrote, Tagged, Bytes, NumberRecs, BlobRecs, StringRecs, MessageRecs, PackedRecs,
      CapabilitySet.Valid, CapabilitySet.Value;
    var s, m := NEGOTIATION_RESULT, o.Value();
    WroteNumber(s, m, 0, 1, U32, o.selectedEpoch_);
    WroteSub(s, m, 1, 2, CAPABILITY_SET, o.SelectedCapabilitiesValue());
    WroteBlob(s, m, 2, 3, o.negotiationHash_);
  }

  lemma IPv4AddressWritten(o: IPv4Address)
    requires o.Valid()
    ensures WellFormed(IPV4_ADDRESS)
    ensures Under(IPV4_ADDRESS, o.Value(), 1, 2) == BlobRecs(1, o.octets_)
  {
    AddressesWellFormed();
    hide WellFormed, MsgOk, Wrote, Tagged, Bytes, NumberRecs, BlobRecs, StringRecs, MessageRecs, PackedRecs;
    var s, m := IPV4_ADDRESS, o.Value();
    WroteBlob(s, m, 0, 1, o.octets_);
  }

  lemma IPv6AddressWritten(o: IPv6Address)
    requires o.Valid()
    ensures WellFormed(IPV6_ADDRESS)
    ensures Under(IPV6_ADDRESS, o.Value(), 1, 2) == BlobRecs(1, o.octets_)
    ensures Under(IPV6_ADDRESS, o.Value(), 2, 0) == NumberRecs(2, o.zoneIndex_)
  {
    AddressesWellFormed();
    hide WellFormed, MsgOk, Wrote, Tagged, Bytes, NumberRecs, BlobRecs, StringRecs, MessageRecs, PackedRecs;
    var s, m := IPV6_ADDRESS, o.Value();
    WroteBlob(s, m, 0, 1, o.octets_);
    WroteNumber(s, m, 1, 2, U32, o.zoneIndex_);
  }

  lemma IPAddressWritten(o: IPAddress)
    requires o.Valid()
    ensures WellFormed(IP_ADDRESS)
    ensures Under(IP_ADDRESS, o.Value(), 1, 2) ==
            if o.address_.V4? then [Rec(1, Len(Bytes(IPV4_ADDRESS, o.address_.v4.Value())))] else []
    ensures Under(IP_ADDRESS, o.Value(), 2, 2) ==
            if o.address_.V6? then [Rec(2, Len(Bytes(IPV6_ADDRESS, o.address_.v6.Value())))] else []
  {
    AddressesWellFormed();
    hide WellFormed, MsgOk, Wrote, Tagged, Bytes, NumberRecs, BlobRecs, StringRecs, MessageRecs, PackedRecs,
      IPv4Address.Valid, IPv4Address.Value, IPv6Address.Valid, IPv6Address.Value;
    var s, m := IP_ADDRESS, o.Value();
    WroteMember(s, m, 0, ADDRESS_ARMS, 0, 1, 2);
    WroteMember(s, m, 0, ADDRESS_ARMS, 1, 2, 2);
  }

  lemma IPPrefixWritten(o: IPPrefix)
    requires o.Valid()
    ensures WellFormed(IP_PREFIX)
    ensures Under(IP_PREFIX, o.Value(), 1, 2) ==
            if o.address_ == null then [] else [Rec(1, Len(Bytes(IP_ADDRESS, o.address_.Value())))]
    ensures Under(IP_PREFIX, o.Value(), 2, 0) == NumberRecs(2, o.prefixLen_)
  {
    AddressesWellFormed();
    hide WellFormed, MsgOk, Wrote, Tagged, Bytes, NumberRecs, BlobRecs, StringRecs, MessageRecs, PackedRecs,
      IPAddress.Valid, IPAddress.Value;
    var s, m := IP_PREFIX, o.Value();
    WroteSub(s, m, 0, 1, IP_ADDRESS, o.AddressValue());
    WroteNumber(s, m, 1, 2, U32, o.prefixLen_);
  }

  lemma AuthWritten(o: Auth)
    requires o.Valid()
    ensures WellFormed(AUTH)
    ensures Under(AUTH, o.Value(), 1, 2) == BlobRecs(1, o.channelBinding_)
    ensures Under(AUTH, o.Value(), 2, 2) == BlobRecs(2, o.detachedSig_)
    ensures Under(AUTH, o.Value(), 3, 2) == BlobRecs(3, o.signedPayload_)
    ensures Under(AUTH, o.Value(), 4, 2) == BlobRecs(4, o.signerKeyId_)
    ensures Under(AUTH, o.Value(), 5, 0) == NumberRecs(5, o.notBeforeMs_)
    ensures Under(AUTH, o.Value(), 6, 0) == NumberRecs(6, o.notAfterMs_)
  {
    AuthWellFormed();
    hide WellFormed, MsgOk, Wrote, Tagged, Bytes, NumberRecs, BlobRecs, StringRecs, MessageRecs, PackedRecs, Six;
    var s, m := AUTH, o.Value();
    WroteBlob(s, m, 0, 1, o.channelBinding_);
    WroteBlob(s, m, 1, 2, o.detachedSig_);
    WroteBlob(s, m, 2, 3, o.signedPayload_);
    WroteBlob(s, m, 3, 4, o.signerKeyId_);
    WroteNumber(s, m, 4, 5, U64, o.notBeforeMs_);
    WroteNumber(s, m, 5, 6, U64, o.notAfterMs_);
  }

  lemma MessageMetadataWritten(o: MessageMetadata)
    requires o.Valid()
    ensures WellFormed(MESSAGE_METADATA)
    ensures Under(MESSAGE_METADATA, o.Value(), 1, 0) == NumberRecs(1, o.protoVersion_)
    ensures Under(MESSAGE_METADATA, o.Value(), 2, 2) == BlobRecs(2, o.messageId_)
    ensures Under(MESSAGE_METADATA, o.Value(), 3, 2) == BlobRecs(3, o.correlationId_)
    ensures Under(MESSAGE_METADATA, o.Value(), 4, 2) == BlobRecs(4, o.causationId_)
    ensures Under(MESSAGE_METADATA, o.Value(), 5, 2) == BlobRecs(5, o.causalityToken_)
    ensures Under(MESSAGE_METADATA, o.Value(), 6, 0) == NumberRecs(6, o.senderTimeMs_)
    ensures Under(MESSAGE_METADATA, o.Value(), 7, 2) == BlobRecs(7, o.twinnetId_)
    ensures Under(MESSAGE_METADATA, o.Value(), 8, 2) == BlobRecs(8, o.senderId_)
    ensures Under(MESSAGE_METADATA, o.Value(), 9, 0) == NumberRecs(9, o.netSeq_)
    ensures Under(MESSAGE_METADATA, o.Value(), 10, 2) == BlobRecs(10, o.idempotencyKey_)
    ensures Under(MESSAGE_METADATA, o.Value(), 11, 2) ==
            if o.auth_ == null then [] else [Rec(11, Len(Bytes(AUTH, o.auth_.Value())))]
  {
    MetadataWellFormed();
    hide WellFormed, MsgOk, Wrote, Tagged, Bytes, NumberRecs, BlobRecs, StringRecs, MessageRecs, PackedRecs,
      Eleven, Auth.Valid, Auth.Value;
    var s, m := MESSAGE_METADATA, o.Value();
    WroteNumber(s, m, 0, 1, U32, o.protoVersion_);
    WroteBlob(s, m, 1, 2, o.messageId_);
    WroteBlob(s, m, 2, 3, o.correlationId_);
    WroteBlob(s, m, 3, 4, o.causationId_);
    WroteBlob(s, m, 4, 5, o.causalityToken_);
    WroteNumber(s, m, 5, 6, U64, o.senderTimeMs_);
    WroteBlob(s, m, 6, 7, o.twinnetId_);
    WroteBlob(s, m, 7, 8, o.senderId_);
    WroteNumber(s, m, 8, 9, U64, o.netSeq_);
    WroteBlob(s, m, 9, 10, o.idempotencyKey_);
    WroteSub(s, m, 10, 11, AUTH, o.AuthValue());
  }

  lemma EvidenceWritten(o: Evidence)
    requires o.Valid()
    ensures WellFormed(EVIDENCE)
    ensures Under(EVIDENCE, o.Value(), 1, 2) == BlobRecs(1, o.key_)
    ensures Under(EVIDENCE, o.Value(), 2, 0) == NumberRecs(2, o.classification_)
    ensures Under(EVIDENCE, o.Value(), 3, 2) ==
            if o.value_.StringValue? then [Rec(3, Len(o.value_.stringValue))] else []
    ensures Under(EVIDENCE, o.Value(), 7, 2) ==
            if o.value_.AddressValue? then [Rec(7, Len(Bytes(IP_ADDRESS, o.value_.addressValue.Value())))] else []
    ensures Under(EVIDENCE, o.Value(), 8, 2) ==
            if o.value_.PrefixValue? then [Rec(8, Len(Bytes(IP_PREFIX, o.value_.prefixValue.Value())))] else []
  {
    EvidenceWellFormed();
    hide WellFormed, MsgOk, Wrote, Tagged, Bytes, NumberRecs, BlobRecs, StringRecs, MessageRecs, PackedRecs,
      IPAddress.Valid, IPAddress.Value, IPPrefix.Valid, IPPrefix.Value;
    var s, m := EVIDENCE, o.Value();
    WroteBlob(s, m, 0, 1, o.key_);
    WroteNumber(s, m, 1, 2, Enum, o.classification_);
    WroteMember(s, m, 2, EVIDENCE_ARMS, 0, 3, 2);
    WroteMember(s, m, 2, EVIDENCE_ARMS, 4, 7, 2);
    WroteMember(s, m, 2, EVIDENCE_ARMS, 5, 8, 2);
  }

  lemma EvidenceNumber(o: Evidence, i: nat, num: nat, kind: NumKind, held: bool, v: int)
    requires o.Valid() && WellFormed(EVIDENCE) && i < |EVIDENCE_ARMS| && EVIDENCE_ARMS[i] == ScalarArm(num, kind)
    requires held ==> o.ValueContent() == PickV(i, N(v))
    requires !held ==> !o.ValueContent().PickV? || o.ValueContent().arm != i
    ensures Under(EVIDENCE, o.Value(), num, 0) ==
            if held then [Rec(num, Varint(v % 0x1_0000_0000_0000_0000))] else []
  {
    var x := o.ValueContent();
    hide WellFormed, MsgOk, Wrote, Tagged, CellOk, Evidence.ValueContent;
    NumberMember(EVIDENCE, o.Value(), 2, EVIDENCE_ARMS, i, num, kind, held, v);
  }

  lemma EvidenceNumbersWritten(o: Evidence)
    requires o.Valid()
    ensures WellFormed(EVIDENCE)
    ensures Under(EVIDENCE, o.Value(), 4, 0) ==
            if o.value_.IntValue? then [Rec(4, Varint(o.value_.intValue % 0x1_0000_0000_0000_0000))] else []
    ensures Under(EVIDENCE, o.Value(), 5, 0) ==
            if o.value_.UintValue? then [Rec(5, Varint(o.value_.uintValue))] else []
    ensures Under(EVIDENCE, o.Value(), 6, 0) ==
            if o.value_.BoolValue? then [Rec(6, Varint(if o.value_.boolValue then 1 else 0))] else []
    ensures Under(EVIDENCE, o.Value(), 9, 0) ==
            if o.value_.FamilyValue? then [Rec(9, Varint(o.value_.familyValue % 0x1_0000_0000_0000_0000))] else []
    ensures Under(EVIDENCE, o.Value(), 10, 0) ==
            if o.value_.DurationMsValue? then [Rec(10, Varint(o.value_.durationMsValue))] else []
  {
    EvidenceWellFormed();
    hide WellFormed, MsgOk, Wrote, Tagged, Bytes, NumberRecs, BlobRecs, StringRecs, MessageRecs, PackedRecs,
      IPAddress.Valid, IPAddress.Value, IPPrefix.Valid, IPPrefix.Value, CellOk, Evidence.Value, Evidence.Valid;
    EvidenceNumber(o, 1, 4, I64, o.value_.IntValue?, if o.value_.IntValue? then o.value_.intValue else 0);
    EvidenceNumber(o, 2, 5, U64, o.value_.UintValue?, if o.value_.UintValue? then o.value_.uintValue else 0);
    EvidenceNumber(o, 3, 6, Bool, o.value_.BoolValue?, if o.value_.BoolValue? then Bit(o.value_.boolValue) else 0);
    EvidenceNumber(o, 6, 9, Enum, o.value_.FamilyValue?, if o.value_.FamilyValue? then o.value_.familyValue else 0);
    EvidenceNumber(o, 7, 10, U64, o.value_.DurationMsValue?,
      if o.value_.DurationMsValue? then o.value_.durationMsValue else 0);
  }

  lemma ResolvedAttributesWritten(o: ResolvedAttributes)
    requires o.Valid()
    ensures WellFormed(RESOLVED_ATTRIBUTES)
    ensures Under(RESOLVED_ATTRIBUTES, o.Value(), 1, 0) == NumberRecs(1, o.class_)
    ensures Under(RESOLVED_ATTRIBUTES, o.Value(), 2, 0) == NumberRecs(2, o.severity_)
    ensures Under(RESOLVED_ATTRIBUTES, o.Value(), 3, 0) == NumberRecs(3, if o.terminal_ then 1 else 0)
    ensures Under(RESOLVED_ATTRIBUTES, o.Value(), 4, 0) == NumberRecs(4, if o.userActionable_ then 1 else 0)
    ensures Under(RESOLVED_ATTRIBUTES, o.Value(), 5, 0) == NumberRecs(5, o.remediationClass_)
    ensures Under(RESOLVED_ATTRIBUTES, o.Value(), 6, 0) == NumberRecs(6, o.scope_)
    ensures Under(RESOLVED_ATTRIBUTES, o.Value(), 7, 2) == BlobRecs(7, o.docAnchor_)
    ensures Under(RESOLVED_ATTRIBUTES, o.Value(), 8, 2) == BlobRecs(8, o.summaryKey_)
    ensures Under(RESOLVED_ATTRIBUTES, o.Value(), 9, 2) == BlobRecs(9, o.nextActionKey_)
  {
    ResolvedWellFormed();
    hide WellFormed, MsgOk, Wrote, Tagged, Bytes, NumberRecs, BlobRecs, StringRecs, MessageRecs, PackedRecs, Nine;
    var s, m := RESOLVED_ATTRIBUTES, o.Value();
    WroteNumber(s, m, 0, 1, Enum, o.class_);
    WroteNumber(s, m, 1, 2, Enum, o.severity_);
    WroteNumber(s, m, 2, 3, Bool, Bit(o.terminal_));
    WroteNumber(s, m, 3, 4, Bool, Bit(o.userActionable_));
    WroteNumber(s, m, 4, 5, Enum, o.remediationClass_);
    WroteNumber(s, m, 5, 6, Enum, o.scope_);
    WroteBlob(s, m, 6, 7, o.docAnchor_);
    WroteBlob(s, m, 7, 8, o.summaryKey_);
    WroteBlob(s, m, 8, 9, o.nextActionKey_);
  }

  lemma ErrorEnvelopeWritten(o: ErrorEnvelope)
    requires o.Valid()
    ensures WellFormed(ERROR_ENVELOPE)
    ensures Under(ERROR_ENVELOPE, o.Value(), 1, 2) == BlobRecs(1, o.reasonCode_)
    ensures Under(ERROR_ENVELOPE, o.Value(), 2, 2) == BlobRecs(2, o.domain_)
    ensures Under(ERROR_ENVELOPE, o.Value(), 3, 2) ==
            if o.resolved_ == null then [] else [Rec(3, Len(Bytes(RESOLVED_ATTRIBUTES, o.resolved_.Value())))]
    ensures Under(ERROR_ENVELOPE, o.Value(), 4, 0) == NumberRecs(4, o.component_)
    ensures Under(ERROR_ENVELOPE, o.Value(), 5, 2) == MessageRecs(5, EVIDENCE, o.evidence_.Contents)
    ensures Under(ERROR_ENVELOPE, o.Value(), 6, 0) == NumberRecs(6, o.occurredAtMs_)
    ensures Under(ERROR_ENVELOPE, o.Value(), 7, 2) == BlobRecs(7, o.correlationId_)
    ensures Under(ERROR_ENVELOPE, o.Value(), 8, 0) == NumberRecs(8, o.stateFrom_)
    ensures Under(ERROR_ENVELOPE, o.Value(), 9, 0) == NumberRecs(9, o.stateTo_)
    ensures Under(ERROR_ENVELOPE, o.Value(), 10, 2) == StringRecs(10, o.contributingReasonCodes_.items)
  {
    ErrorTreeWellFormed();
    hide WellFormed, MsgOk, Wrote, Tagged, Bytes, NumberRecs, BlobRecs, StringRecs, MessageRecs, PackedRecs, Ten,
      ResolvedAttributes.Valid, ResolvedAttributes.Value, EvidenceList.Valid;
    var s, m := ERROR_ENVELOPE, o.Value();
    WroteBlob(s, m, 0, 1, o.reasonCode_);
    WroteBlob(s, m, 1, 2, o.domain_);
    WroteSub(s, m, 2, 3, RESOLVED_ATTRIBUTES, o.ResolvedValue());
    WroteNumber(s, m, 3, 4, Enum, o.component_);
    WroteMessages(s, m, 4, 5, EVIDENCE, o.evidence_.Contents);
    WroteNumber(s, m, 5, 6, U64, o.occurredAtMs_);
    WroteBlob(s, m, 6, 7, o.correlationId_);
    WroteNumber(s, m, 7, 8, U32, o.stateFrom_);
    WroteNumber(s, m, 8, 9, U32, o.stateTo_);
    WroteStrings(s, m, 9, 10, o.contributingReasonCodes_.items);
  }

  lemma SplitDomainRuleWritten(o: SplitDomainRule)
    requires o.Valid()
    ensures WellFormed(SPLIT_DOMAIN_RULE)
    ensures Under(SPLIT_DOMAIN_RULE, o.Value(), 1, 2) == BlobRecs(1, o.suffix_)
    ensures Under(SPLIT_DOMAIN_RULE, o.Value(), 2, 0) == NumberRecs(2, if o.exactMatch_ then 1 else 0)
    ensures Under(SPLIT_DOMAIN_RULE, o.Value(), 3, 0) == NumberRecs(3, o.disposition_)
  {
    SplitRuleWellFormed();
    hide WellFormed, MsgOk, Wrote, Tagged, Bytes, NumberRecs, BlobRecs, StringRecs, MessageRecs, PackedRecs;
    var s, m := SPLIT_DOMAIN_RULE, o.Value();
    WroteBlob(s, m, 0, 1, o.suffix_);
    WroteNumber(s, m, 1, 2, Bool, Bit(o.exactMatch_));
    WroteNumber(s, m, 2, 3, Enum, o.disposition_);
  }

  lemma DNSPolicyWritten(o: DNSPolicy)
    requires o.Valid()
    ensures WellFormed(DNS_POLICY)
    ensures Under(DNS_POLICY, o.Value(), 1, 2) == BlobRecs(1, o.dnspolicyId_)
    ensures Under(DNS_POLICY, o.Value(), 2, 0) == NumberRecs(2, o.version_)
    ensures Under(DNS_POLICY, o.Value(), 3, 0) == NumberRecs(3, o.mode_)
    ensures Under(DNS_POLICY, o.Value(), 4, 2) == MessageRecs(4, IPV4_ADDRESS, o.serversV4_.Contents)
    ensures Under(DNS_POLICY, o.Value(), 5, 2) == MessageRecs(5, IPV6_ADDRESS, o.serversV6_.Contents)
    ensures Under(DNS_POLICY, o.Value(), 8, 2) == MessageRecs(8, SPLIT_DOMAIN_RULE, o.splitDomains_.Contents)
    ensures Under(DNS_POLICY, o.Value(), 9, 2) == StringRecs(9, o.searchDomains_.items)
    ensures Under(DNS_POLICY, o.Value(), 12, 0) == NumberRecs(12, if o.dnssecValidate_ then 1 else 0)
    ensures Under(DNS_POLICY, o.Value(), 13, 0) == NumberRecs(13, if o.upstreamDot_ then 1 else 0)
    ensures Under(DNS_POLICY, o.Value(), 14, 0) == NumberRecs(14, o.notAfterMs_)
  {
    DnsWellFormed();
    hide WellFormed, MsgOk, Wrote, Tagged, Bytes, NumberRecs, BlobRecs, StringRecs, MessageRecs, PackedRecs,
      Fourteen, IPv4AddressList.Valid, IPv6AddressList.Valid, SplitDomainRuleList.Valid, Flags.View, Shown;
    var s, m := DNS_POLICY, o.Value();
    WroteBlob(s, m, 0, 1, o.dnspolicyId_);
    WroteNumber(s, m, 1, 2, U64, o.version_);
    WroteNumber(s, m, 2, 3, Enum, o.mode_);
    WroteMessages(s, m, 3, 4, IPV4_ADDRESS, o.serversV4_.Contents);
    WroteMessages(s, m, 4, 5, IPV6_ADDRESS, o.serversV6_.Contents);
    WroteMessages(s, m, 7, 8, SPLIT_DOMAIN_RULE, o.splitDomains_.Contents);
    WroteStrings(s, m, 8, 9, o.searchDomains_.items);
    WroteNumber(s, m, 11, 12, Bool, Bit(o.dnssecValidate_));
    WroteNumber(s, m, 12, 13, Bool, Bit(o.upstreamDot_));
    WroteNumber(s, m, 13, 14, U64, o.notAfterMs_);
  }

  lemma DNSPolicyFlagsWritten(o: DNSPolicy)
    requires o.Valid()
    ensures WellFormed(DNS_POLICY)
    ensures Under(DNS_POLICY, o.Value(), 6, 0) ==
            if o.hasBits0 & 1 == 0 then [] else [Rec(6, Varint(if o.serversDeclaredV4_ then 1 else 0))]
    ensures Under(DNS_POLICY, o.Value(), 7, 0) ==
            if o.hasBits0 & 2 == 0 then [] else [Rec(7, Varint(if o.serversDeclaredV6_ then 1 else 0))]
    ensures Under(DNS_POLICY, o.Value(), 10, 0) ==
            if o.hasBits0 & 4 == 0 then [] else [Rec(10, Varint(if o.blockFallbackV4_ then 1 else 0))]
    ensures Under(DNS_POLICY, o.Value(), 11, 0) ==
            if o.hasBits0 & 8 == 0 then [] else [Rec(11, Varint(if o.blockFallbackV6_ then 1 else 0))]
  {
    DnsWellFormed();
    PresenceMeans(o.Present());
    hide WellFormed, MsgOk, Wrote, Tagged, Bytes, NumberRecs, BlobRecs, StringRecs, MessageRecs, PackedRecs,
      Fourteen, IPv4AddressList.Valid, IPv6AddressList.Valid, SplitDomainRuleList.Valid, Bit, Flags.View, Has;
    var s, m := DNS_POLICY, o.Value();
    FlagWritten(s, m, 5, 6, o.Present().View(0));
    FlagWritten(s, m, 6, 7, o.Present().View(1));
    FlagWritten(s, m, 9, 10, o.Present().View(2));
    FlagWritten(s, m, 10, 11, o.Present().View(3));
  }

  lemma CandidatePairWritten(o: CandidatePair)
    requires o.Valid()
    ensures WellFormed(CANDIDATE_PAIR)
    ensures Under(CANDIDATE_PAIR, o.Value(), 1, 0) == NumberRecs(1, o.localCandidateIndex_)
    ensures Under(CANDIDATE_PAIR, o.Value(), 2, 0) == NumberRecs(2, o.remoteCandidateIndex_)
  {
    CandidateWellFormed();
    hide WellFormed, MsgOk, Wrote, Tagged, Bytes, NumberRecs, BlobRecs, StringRecs, MessageRecs, PackedRecs;
    var s, m := CANDIDATE_PAIR, o.Value();
    WroteNumber(s, m, 0, 1, U32, o.localCandidateIndex_);
    WroteNumber(s, m, 1, 2, U32, o.remoteCandidateIndex_);
  }

  lemma PunchSyncWritten(o: PunchSync)
    requires o.Valid()
    ensures WellFormed(PUNCH_SYNC)
    ensures Under(PUNCH_SYNC, o.Value(), 1, 2) == BlobRecs(1, o.sessionNonce_)
    ensures Under(PUNCH_SYNC, o.Value(), 2, 0) == NumberRecs(2, o.generation_)
    ensures Under(PUNCH_SYNC, o.Value(), 3, 0) == NumberRecs(3, o.punchAtMsRelative_)
    ensures Under(PUNCH_SYNC, o.Value(), 4, 2) == MessageRecs(4, CANDIDATE_PAIR, o.pairs_.Contents)
    ensures PackedRecs(Under(PUNCH_SYNC, o.Value(), 5, 2), 5, o.birthdayPortHints_.items)
    ensures Under(PUNCH_SYNC, o.Value(), 5, 0) == []
  {
    CandidateWellFormed();
    hide WellFormed, MsgOk, Wrote, Tagged, Bytes, NumberRecs, BlobRecs, StringRecs, MessageRecs, PackedRecs,
      CandidatePairList.Valid;
    var s, m := PUNCH_SYNC, o.Value();
    WroteBlob(s, m, 0, 1, o.sessionNonce_);
    WroteNumber(s, m, 1, 2, U32, o.generation_);
    WroteNumber(s, m, 2, 3, U32, o.punchAtMsRelative_);
    WroteMessages(s, m, 3, 4, CANDIDATE_PAIR, o.pairs_.Contents);
    WrotePacked(s, m, 4, 5, U32, o.birthdayPortHints_.items);
  }
}
