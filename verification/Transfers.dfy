/** Whole transfers between objects: write with one, parse into another, clone and merge. */
module Transfers {
  import opened Seqs
  import opened Wire
  import opened Codec
  import opened Merging
  import opened Refinement
  import opened Equality
  import opened Schemas
  import opened Streams
  import opened Presence
  import opened Classes
  import opened Repeated
  import opened Capability
  import opened Common
  import opened Errors
  import opened Dns
  import opened Candidate

  /** Writing one object tree and parsing the bytes into another leaves what MergeFrom would leave,
      down to the elements of every list. */
  method SendNegotiationResult(source: NegotiationResult, target: NegotiationResult) returns (r: Option<()>)
    requires source.Valid() && target.Valid()
    modifies target, target.Held
    ensures r.Some? && target.Valid()
    ensures target.Value() == Merge(NEGOTIATION_RESULT, old(target.Value()), old(source.Value()))
  {
    hide NegotiationResult.Valid, NegotiationResult.Value, WellFormed, MsgOk, Merge, RunBytes, Bytes;
    ghost var a, b := target.Value(), source.Value();
    var output := new CodedOutputStream();
    source.WriteTo(output);
    var input := new CodedInputStream(output.buf);
    CapabilityTreeWellFormed();
    ParseWriteIsMerge(NEGOTIATION_RESULT, a, b);
    r := target.MergeFromStream(input);
  }

  method SendErrorEnvelope(source: ErrorEnvelope, target: ErrorEnvelope) returns (r: Option<()>)
    requires source.Valid() && target.Valid()
    modifies target, target.Held, target.evidence_, target.contributingReasonCodes_
    ensures r.Some? && target.Valid()
    ensures target.Value() == Merge(ERROR_ENVELOPE, old(target.Value()), old(source.Value()))
  {
    hide ErrorEnvelope.Valid, ErrorEnvelope.Value, WellFormed, MsgOk, Merge, RunBytes, Bytes;
    ghost var a, b := target.Value(), source.Value();
    var output := new CodedOutputStream();
    source.WriteTo(output);
    var input := new CodedInputStream(output.buf);
    ErrorTreeWellFormed();
    ParseWriteIsMerge(ERROR_ENVELOPE, a, b);
    r := target.MergeFromStream(input);
  }

  method SendEvidence(source: Evidence, target: Evidence) returns (r: Option<()>)
    requires source.Valid() && target.Valid()
    modifies target, target.Held
    ensures r.Some? && target.Valid()
    ensures target.Value() == Merge(EVIDENCE, old(target.Value()), old(source.Value()))
  {
    hide Evidence.Valid, Evidence.Value, WellFormed, MsgOk, Merge, RunBytes, Bytes;
    ghost var a, b := target.Value(), source.Value();
    var output := new CodedOutputStream();
    source.WriteTo(output);
    var input := new CodedInputStream(output.buf);
    EvidenceWellFormed();
    ParseWriteIsMerge(EVIDENCE, a, b);
    r := target.MergeFromStream(input);
  }

  method SendMetadata(source: MessageMetadata, target: MessageMetadata) returns (r: Option<()>)
    requires source.Valid() && target.Valid()
    modifies target, target.Held
    ensures r.Some? && target.Valid()
    ensures target.Value() == Merge(MESSAGE_METADATA, old(target.Value()), old(source.Value()))
  {
    hide MessageMetadata.Valid, MessageMetadata.Value, WellFormed, MsgOk, Merge, RunBytes, Bytes;
    ghost var a, b := target.Value(), source.Value();
    var output := new CodedOutputStream();
    source.WriteTo(output);
    var input := new CodedInputStream(output.buf);
    MetadataWellFormed();
    ParseWriteIsMerge(MESSAGE_METADATA, a, b);
    r := target.MergeFromStream(input);
  }

  method SendPunchSync(source: PunchSync, target: PunchSync) returns (r: Option<()>)
    requires source.Valid() && target.Valid()
    modifies target, target.pairs_, target.birthdayPortHints_
    ensures r.Some? && target.Valid()
    ensures target.Value() == Merge(PUNCH_SYNC, old(target.Value()), old(source.Value()))
  {
    hide PunchSync.Valid, PunchSync.Value, WellFormed, MsgOk, Merge, RunBytes, Bytes;
    ghost var a, b := target.Value(), source.Value();
    var output := new CodedOutputStream();
    source.WriteTo(output);
    var input := new CodedInputStream(output.buf);
    CandidateWellFormed();
    ParseWriteIsMerge(PUNCH_SYNC, a, b);
    r := target.MergeFromStream(input);
  }

  method SendPolicy(source: DNSPolicy, target: DNSPolicy) returns (r: Option<()>)
    requires source.Valid() && target.Valid()
    modifies target, target.serversV4_, target.serversV6_, target.splitDomains_, target.searchDomains_
    ensures r.Some? && target.Valid()
    ensures target.Value() == Merge(DNS_POLICY, old(target.Value()), old(source.Value()))
  {
    hide DNSPolicy.Valid, DNSPolicy.Value, WellFormed, MsgOk, Merge, RunBytes, Bytes;
    ghost var a, b := target.Value(), source.Value();
    var output := new CodedOutputStream();
    source.WriteTo(output);
    var input := new CodedInputStream(output.buf);
    DnsWellFormed();
    ParseWriteIsMerge(DNS_POLICY, a, b);
    r := target.MergeFromStream(input);
  }

  /** Merging into the original leaves its clone as it was. */
  method KeepEvidence(m: Evidence, other: Evidence) returns (c: Evidence)
    requires m.Valid() && other.Valid()
    modifies m, m.Held
    ensures fresh(c) && fresh(c.Held)
    ensures c.Valid() && c.Value() == old(m.Value())
    ensures m.Valid() && m.Value() == Merge(EVIDENCE, old(m.Value()), old(other.Value()))
  {
    hide Evidence.Valid, Evidence.Value, MsgOk, Merge;
    c := new Evidence.Clone(m);
    m.MergeFrom(other);
  }

  /** Merging into a clone leaves the original as it was. */
  method ForkEvidence(m: Evidence, other: Evidence) returns (c: Evidence)
    requires m.Valid() && other.Valid()
    ensures fresh(c) && c.Valid() && c.Value() == Merge(EVIDENCE, m.Value(), other.Value())
  {
    hide Evidence.Valid, Evidence.Value, MsgOk, Merge;
    c := new Evidence.Clone(m);
    c.MergeFrom(other);
  }

  /** Merging into the original leaves its clone as it was. */
  method KeepNegotiationResult(m: NegotiationResult, other: NegotiationResult) returns (c: NegotiationResult)
    requires m.Valid() && other.Valid()
    modifies m, m.Held
    ensures fresh(c) && fresh(c.Held) && fresh(c.Below)
    ensures c.Valid() && c.Value() == old(m.Value())
    ensures m.Valid() && m.Value() == Merge(NEGOTIATION_RESULT, old(m.Value()), old(other.Value()))
  {
    hide NegotiationResult.Valid, NegotiationResult.Value, MsgOk, Merge;
    c := new NegotiationResult.Clone(m);
    m.MergeFrom(other);
  }

  /** Merging into a clone leaves the original as it was. */
  method ForkNegotiationResult(m: NegotiationResult, other: NegotiationResult) returns (c: NegotiationResult)
    requires m.Valid() && other.Valid()
    ensures fresh(c) && c.Valid() && c.Value() == Merge(NEGOTIATION_RESULT, m.Value(), other.Value())
  {
    hide NegotiationResult.Valid, NegotiationResult.Value, MsgOk, Merge;
    c := new NegotiationResult.Clone(m);
    c.MergeFrom(other);
  }

  /** Merging into the original leaves its clone as it was. */
  method KeepErrorEnvelope(m: ErrorEnvelope, other: ErrorEnvelope) returns (c: ErrorEnvelope)
    requires m.Valid() && other.Valid()
    modifies m, m.Held, m.evidence_, m.contributingReasonCodes_
    ensures fresh(c) && fresh(c.Held) && fresh(c.evidence_) && fresh(c.evidence_.Below)
    ensures fresh(c.contributingReasonCodes_)
    ensures c.Valid() && c.Value() == old(m.Value())
    ensures m.Valid() && m.Value() == Merge(ERROR_ENVELOPE, old(m.Value()), old(other.Value()))
  {
    hide ErrorEnvelope.Valid, ErrorEnvelope.Value, MsgOk, Merge;
    c := new ErrorEnvelope.Clone(m);
    m.MergeFrom(other);
  }

  /** Merging into a clone leaves the original as it was. */
  method ForkErrorEnvelope(m: ErrorEnvelope, other: ErrorEnvelope) returns (c: ErrorEnvelope)
    requires m.Valid() && other.Valid()
    ensures fresh(c) && c.Valid() && c.Value() == Merge(ERROR_ENVELOPE, m.Value(), other.Value())
  {
    hide ErrorEnvelope.Valid, ErrorEnvelope.Value, MsgOk, Merge;
    c := new ErrorEnvelope.Clone(m);
    c.MergeFrom(other);
  }

  /** Changing an element of the original's list, in place, leaves a clone as it was. */
  method KeepOnElementChange(m: NegotiationResult, i: nat, other: Capability) returns (c: NegotiationResult)
    requires m.Valid() && other.Valid() && m.selectedCapabilities_ != null
    requires i < |m.selectedCapabilities_.capabilities_.items|
    modifies m.Below
    ensures fresh(c) && c.Valid() && c.Value() == old(m.Value())
  {
    c := new NegotiationResult.Clone(m);
    var list := m.selectedCapabilities_.capabilities_;
    assert list.Holds(list.items[i], list.Contents[i]);
    hide NegotiationResult.Valid, NegotiationResult.Value, Capability.Valid, Capability.Value, MsgOk, Merge;
    list.items[i].MergeFrom(other);
  }

  method KeepOnEvidenceChange(m: ErrorEnvelope, i: nat, other: Evidence) returns (c: ErrorEnvelope)
    requires m.Valid() && other.Valid() && i < |m.evidence_.items|
    modifies m.evidence_.Below
    ensures fresh(c) && c.Valid() && c.Value() == old(m.Value())
  {
    hide ErrorEnvelope.Value, Evidence.Valid, Evidence.Value, MsgOk, Merge;
    c := new ErrorEnvelope.Clone(m);
    assert m.evidence_.Holds(m.evidence_.items[i], m.evidence_.Contents[i]);
    hide ErrorEnvelope.Valid, EvidenceList.Valid;
    m.evidence_.items[i].MergeFrom(other);
  }

  // ------------------------------------------------- runs of calls on a policy

  /** A policy written and parsed into a new object. */
  method RewritePolicy(p: DNSPolicy) returns (q: DNSPolicy)
    requires p.Valid()
    ensures fresh(q) && fresh(q.serversV4_) && fresh(q.serversV6_)
    ensures fresh(q.splitDomains_) && fresh(q.searchDomains_)
    ensures q.Valid() && q.Value() == p.Value()
  {
    hide DNSPolicy.Valid, DNSPolicy.Value, WellFormed, MsgOk, Bytes, RunBytes, Empty;
    ghost var v := p.Value();
    var output := new CodedOutputStream();
    p.WriteTo(output);
    var input := new CodedInputStream(output.buf);
    q := new DNSPolicy();
    DnsWellFormed();
    ParseOfWrite(DNS_POLICY, v);
    var _ := q.MergeFromStream(input);
  }

  /** Every presence bit and value is back. */
  method ReparsePolicy(p: DNSPolicy) returns (q: DNSPolicy)
    requires p.Valid()
    ensures fresh(q) && fresh(q.serversV4_) && fresh(q.serversV6_)
    ensures fresh(q.splitDomains_) && fresh(q.searchDomains_)
    ensures q.Valid() && q.Value() == p.Value()
    ensures forall j :: 0 <= j < 4 ==> q.Present().View(j) == p.Present().View(j)
  {
    hide DNSPolicy.Valid, DNSPolicy.Value, Flags.View;
    q := RewritePolicy(p);
    ShownFlags(p, q);
  }

  lemma ShownFlags(p: DNSPolicy, q: DNSPolicy)
    requires p.Valid() && q.Valid() && p.Value() == q.Value()
    ensures forall j :: 0 <= j < 4 ==> q.Present().View(j) == p.Present().View(j)
  {
    hide Fourteen, MsgOk, Flags.View;
    assert p.Value().cells[5] == q.Value().cells[5] && p.Value().cells[6] == q.Value().cells[6];
    assert p.Value().cells[9] == q.Value().cells[9] && p.Value().cells[10] == q.Value().cells[10];
  }

  /** A call on a policy object. */
  datatype PolicyCall = SetFlag(i: nat, v: bool) | ClearFlag(i: nat) | CloneIt | MergeIn(other: DNSPolicy) | Resend

  /** The call, with what it reads of another policy. */
  ghost predicate Seen(c: PolicyCall, s: Call)
    reads if c.MergeIn? then {c.other} else {}
  {
    match c
    case SetFlag(i, v) => i < 4 && s == Put(i, v)
    case ClearFlag(i) => i < 4 && s == Drop(i)
    case CloneIt => s == Copy
    case MergeIn(q) => s == MergeWith(q.Present())
    case Resend => s == Reparse
  }

  /** The setter of flag `i`. */
  method SetFlagAt(p: DNSPolicy, i: nat, v: bool)
    requires p.Valid() && i < 4
    modifies p
    ensures p.Valid() && p.Present() == old(p.Present()).Set(i, v)
  {
    hide Flags.Set, Has, Raise;
    if i == 0 { p.SetServersDeclaredV4(v); }
    else if i == 1 { p.SetServersDeclaredV6(v); }
    else if i == 2 { p.SetBlockFallbackV4(v); }
    else { p.SetBlockFallbackV6(v); }
  }

  method ClearFlagAt(p: DNSPolicy, i: nat)
    requires p.Valid() && i < 4
    modifies p
    ensures p.Valid() && p.Present() == old(p.Present()).Clear(i)
  {
    hide Flags.Clear, Has, Lower;
    if i == 0 { p.ClearServersDeclaredV4(); }
    else if i == 1 { p.ClearServersDeclaredV6(); }
    else if i == 2 { p.ClearBlockFallbackV4(); }
    else { p.ClearBlockFallbackV6(); }
  }

  /** One call, on an object nothing else holds; a clone or a reparse goes on with the new object. */
  method RunCall(p: DNSPolicy, c: PolicyCall, ghost s: Call) returns (q: DNSPolicy)
    requires p.Valid() && Seen(c, s) && (c.MergeIn? ==> c.other.Valid())
    modifies p, p.serversV4_, p.serversV6_, p.splitDomains_, p.searchDomains_
    ensures q.Valid() && (q == p || (fresh(q) && fresh(q.serversV4_) && fresh(q.serversV6_) &&
                                     fresh(q.splitDomains_) && fresh(q.searchDomains_)))
    ensures forall j :: 0 <= j < 4 ==> q.Present().View(j) == FieldStep(old(p.Present()).View(j), j, s)
  {
    hide DNSPolicy.Valid, DNSPolicy.Value, Flags.Set, Flags.Clear, Flags.View, Flags.Merge;
    q := p;
    ghost var f := p.Present();
    if c.SetFlag? {
      SetFlagAt(p, c.i, c.v);
      forall j | 0 <= j < 4 ensures f.Set(c.i, c.v).View(j) == FieldStep(f.View(j), j, s) {
        SetView(f, c.i, c.v, j);
      }
    } else if c.ClearFlag? {
      ClearFlagAt(p, c.i);
      forall j | 0 <= j < 4 ensures f.Clear(c.i).View(j) == FieldStep(f.View(j), j, s) {
        SetView(f, c.i, false, j);
      }
    } else if c.CloneIt? {
      q := new DNSPolicy.Clone(p);
    } else if c.MergeIn? {
      ghost var g := c.other.Present();
      p.MergeFrom(c.other);
      forall j | 0 <= j < 4 ensures f.Merge(g).View(j) == FieldStep(f.View(j), j, s) { MergeView(f, g, j); }
    } else {
      q := ReparsePolicy(p);
    }
  }

  /** Over every run of calls on policy objects each presence field behaves as an optional bool of
      its own. The run works on a copy, so the policies merged in may include the start. */
  method RunPolicy(start: DNSPolicy, calls: seq<PolicyCall>, ghost seen: seq<Call>) returns (p: DNSPolicy)
    requires start.Valid() && |seen| == |calls|
    requires forall i :: 0 <= i < |calls| ==>
               Seen(calls[i], seen[i]) && (calls[i].MergeIn? ==> calls[i].other.Valid())
    ensures fresh(p) && p.Valid()
    ensures forall j :: 0 <= j < 4 ==> p.Present().View(j) == FieldAfter(start.Present().View(j), j, seen)
  {
    hide DNSPolicy.Valid, DNSPolicy.Value, Flags.View, FieldStep, FieldAfter;
    p := new DNSPolicy.Clone(start);
    ghost var f := start.Present();
    forall j | 0 <= j < 4 ensures FieldAfter(f.View(j), j, seen[..0]) == f.View(j) { NoCalls(f.View(j), j); }
    for i := 0 to |calls|
      invariant p.Valid() && fresh(p)
      invariant fresh(p.serversV4_) && fresh(p.serversV6_) && fresh(p.splitDomains_) && fresh(p.searchDomains_)
      invariant forall j :: 0 <= j < 4 ==> p.Present().View(j) == FieldAfter(f.View(j), j, seen[..i])
    {
      assert Seen(calls[i], seen[i]);
      p := RunCall(p, calls[i], seen[i]);
      Next(seen, i);
      forall j | 0 <= j < 4
        ensures FieldAfter(f.View(j), j, seen[..i + 1]) == FieldStep(FieldAfter(f.View(j), j, seen[..i]), j, seen[i])
      {
        FieldAfterSnoc(f.View(j), j, seen[..i], seen[i]);
      }
    }
    assert seen[..|seen|] == seen;
  }

  lemma NoCalls(o: Option<bool>, j: nat)
    requires j < 4
    ensures FieldAfter(o, j, []) == o
  {
  }

  /** The fields of a policy other than the four with explicit presence are the same. */
  ghost predicate SameElse(p: DNSPolicy, q: DNSPolicy)
    reads p, q, p.serversV4_, p.serversV6_, p.splitDomains_, p.searchDomains_
    reads q.serversV4_, q.serversV6_, q.splitDomains_, q.searchDomains_
  {
    && p.dnspolicyId_ == q.dnspolicyId_ && p.version_ == q.version_ && p.mode_ == q.mode_
    && p.serversV4_.Contents == q.serversV4_.Contents && p.serversV6_.Contents == q.serversV6_.Contents
    && p.splitDomains_.Contents == q.splitDomains_.Contents && p.searchDomains_.items == q.searchDomains_.items
    && p.dnssecValidate_ == q.dnssecValidate_ && p.upstreamDot_ == q.upstreamDot_
    && p.notAfterMs_ == q.notAfterMs_ && p.unknownFields == q.unknownFields
  }

  /** Stale stored values change neither the bytes written nor equality: a policy is its other
      fields and what its presence fields show. */
  lemma StaleValuesUnwritten(p: DNSPolicy, q: DNSPolicy)
    requires p.Valid() && q.Valid() && SameElse(p, q)
    requires p.Present().View(0) == q.Present().View(0) && p.Present().View(1) == q.Present().View(1)
    requires p.Present().View(2) == q.Present().View(2) && p.Present().View(3) == q.Present().View(3)
    ensures Bytes(DNS_POLICY, p.Value()) == Bytes(DNS_POLICY, q.Value())
    ensures Equals(DNS_POLICY, p.Value(), q.Value())
  {
    hide Fourteen, MsgOk, Equals, Bytes, Flags.View;
    assert p.Value() == q.Value();
    EqualsEquivalence(DNS_POLICY, p.Value(), p.Value(), p.Value());
  }
}
