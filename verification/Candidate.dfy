/** candidate.proto: hole-punching coordination. */
module Candidate {
  import opened Seqs
  import opened Wire
  import opened Unknown
  import opened Codec
  import opened Refinement
  import opened Sizes
  import opened Schemas
  import opened Streams
  import opened Classes
  import opened Repeated

  /** A pair of candidates, by index. */
  class CandidatePair {
    var localCandidateIndex_: uint
    var remoteCandidateIndex_: uint
    var unknownFields: seq<Rec>

    ghost predicate Valid()
      reads this
    {
      UnknownOk(CANDIDATE_PAIR, unknownFields)
    }

    ghost function Value(): (m: Msg)
      requires Valid()
      reads this
      ensures MsgOk(CANDIDATE_PAIR, m)
    {
      Msg([V(N(localCandidateIndex_)), V(N(remoteCandidateIndex_))], unknownFields)
    }

    constructor ()
      ensures Valid() && Value() == Empty(CANDIDATE_PAIR)
    {
      localCandidateIndex_, remoteCandidateIndex_, unknownFields := 0, 0, [];
    }

    /** Clone: the copy constructor. */
    constructor Clone(other: CandidatePair)
      requires other.Valid()
      ensures Valid() && Value() == other.Value()
    {
      localCandidateIndex_, remoteCandidateIndex_, unknownFields := other.localCandidateIndex_,
        other.remoteCandidateIndex_, other.unknownFields;
    }

    method WriteTo(output: CodedOutputStream)
      requires Valid()
      modifies output
      ensures output.buf == old(output.buf) + Bytes(CANDIDATE_PAIR, Value())
    {
      hide Upto, MsgOk, Bytes, PutRecs, PutVarint, ToWire, UnknownOk;
      ghost var s, v, base := CANDIDATE_PAIR, Value(), output.buf;
      StartWrite(s, v, base);
      WriteNumber(output, 8, U32, localCandidateIndex_, s, v, 0, base);
      WriteNumber(output, 16, U32, remoteCandidateIndex_, s, v, 1, base);
      ghost var done := output.buf;
      output.WriteUnknown(unknownFields);
      EndWrite(s, v, base, done, output.buf);
    }

    method CalculateSize() returns (size: nat)
      requires Valid()
      ensures size == |Bytes(CANDIDATE_PAIR, Value())|
    {
      CandidateWellFormed();
      hide MsgOk, Bytes, WellFormed, PrefixSize, VarintSize, UnknownOk, NumberSize, BlobSize;
      ghost var s, v := CANDIDATE_PAIR, Value();
      size := 0;
      StartSize(s, v);
      size := size + NumberSize(U32, localCandidateIndex_);
      NumberSized(s, v, 0, 1, U32, localCandidateIndex_);
      size := size + NumberSize(U32, remoteCandidateIndex_);
      NumberSized(s, v, 1, 2, U32, remoteCandidateIndex_);
      size := size + UnknownSize(unknownFields);
      SizeIsLength(s, v);
    }

    method MergeFrom(other: CandidatePair)
      requires Valid() && other.Valid()
      modifies this
      ensures Valid()
      ensures Value() == Merge(CANDIDATE_PAIR, old(Value()), old(other.Value()))
    {
      hide MsgOk, Merge, Union, UnknownOk, MergedUpto, Newer, NewerBool, NewerBlob, Bit;
      ghost var s, a, b := CANDIDATE_PAIR, Value(), other.Value();
      UnionOk(s, unknownFields, other.unknownFields);
      MergeScalars(other);
      unknownFields := Union(unknownFields, other.unknownFields);
      ghost var v := Value();
      StartMerge(s, a, b, v);
      NumberMerged(s, a, b, v, 0, 1, U32, old(localCandidateIndex_), old(other.localCandidateIndex_));
      NumberMerged(s, a, b, v, 1, 2, U32, old(remoteCandidateIndex_), old(other.remoteCandidateIndex_));
      EndMerge(s, a, b, v);
    }

    method MergeScalars(other: CandidatePair)
      modifies this`localCandidateIndex_, this`remoteCandidateIndex_
      ensures localCandidateIndex_ == Newer(old(localCandidateIndex_), old(other.localCandidateIndex_))
      ensures remoteCandidateIndex_ == Newer(old(remoteCandidateIndex_), old(other.remoteCandidateIndex_))
    {
      if other.localCandidateIndex_ != 0 { localCandidateIndex_ := other.localCandidateIndex_; }
      if other.remoteCandidateIndex_ != 0 { remoteCandidateIndex_ := other.remoteCandidateIndex_; }
    }

    method MergeFromStream(input: CodedInputStream) returns (r: Option<()>)
      requires Valid() && input.Valid()
      modifies this, input`pos, input`limit
      ensures Valid() && input.Valid()
      ensures r.None? ==> RunBytes(CANDIDATE_PAIR, old(Value()), old(input.Rest())).None?
      ensures r.Some? ==> RunBytes(CANDIDATE_PAIR, old(Value()), old(input.Rest())) == Some(Value())
      ensures r.Some? ==> input.Rest() == [] && input.limit == old(input.limit)
    {
      hide RunBytes, MsgOk, GetTag, GetBody, Rejects, Accepts, UnknownOk;
      ghost var s, start := CANDIDATE_PAIR, RunBytes(CANDIDATE_PAIR, Value(), input.Rest());
      while true
        invariant Valid() && input.Valid() && input.limit == old(input.limit)
        invariant RunBytes(s, Value(), input.Rest()) == start
        decreases |input.Rest()|
      {
        ghost var b, m := input.Rest(), Value();
        PassTag(s, m, b);
        var tag :- input.ReadTag();
        if tag == 0 { break; }
        if tag % 8 == 4 { return None; }
        var ok := ReadField(tag, input);
        if ok.None? {
          PassRejected(s, m, b, GetTag(b).value);
          return None;
        }
        PassAccepted(s, m, b, GetTag(b).value, Value(), input.Rest());
      }
      return Some(());
    }

    /** The switch of the parse loop. */
    method ReadField(tag: nat, input: CodedInputStream) returns (r: Option<()>)
      requires Valid() && input.Valid() && 8 <= tag < TWO_32
      modifies this, input`pos, input`limit
      ensures Valid() && input.Valid() && (r.Some? ==> input.limit == old(input.limit))
      ensures r.None? ==> Rejects(CANDIDATE_PAIR, old(Value()), tag, old(input.Rest()))
      ensures r.Some? ==> Accepts(CANDIDATE_PAIR, old(Value()), tag, old(input.Rest()), Value(), input.Rest())
    {
      CandidateWellFormed();
      hide Rejects, Accepts, MsgOk, WellFormed, GetLen, GetUInt64, GetBody, UnknownOk, Insert, Signed;
      ghost var s, m, b := CANDIDATE_PAIR, Value(), input.Rest();
      if tag == 8 {
        NumberRead(s, m, 0, 1, U32, b);
        localCandidateIndex_ :- input.ReadUInt32();
        Updated(m, 0, Value());
        return Some(());
      } else if tag == 16 {
        NumberRead(s, m, 1, 2, U32, b);
        remoteCandidateIndex_ :- input.ReadUInt32();
        Updated(m, 1, Value());
        return Some(());
      } else {
        DefaultRead(s, m, tag, b);
        var p :- input.ReadUnknown(tag);
        unknownFields := Insert(unknownFields, Rec(tag / 8, p));
        return Some(());
      }
    }
  }

  /** RepeatedField of CandidatePair: a list object of element objects. */
  class CandidatePairList {
    var items: seq<CandidatePair>
    ghost var Contents: seq<Msg>    // the values of the elements
    ghost var Below: set<object>    // the elements and the objects below them

    /** The element with all its objects is below the list, and its value is `m`. */
    ghost predicate Holds(e: CandidatePair, m: Msg)
      reads this`Below, Below
    {
      e in Below && e.Valid() && e.Value() == m
    }

    ghost predicate Valid()
      reads this, Below
      ensures Valid() ==> ElementsOk(CANDIDATE_PAIR, Contents)
      ensures Valid() ==> forall o: object :: o in Below ==> o is CandidatePair
    {
      && |Contents| == |items|
      && (forall i :: 0 <= i < |items| ==> Holds(items[i], Contents[i]))
      && (forall o: object :: o in Below ==> o is CandidatePair)
    }

    constructor ()
      ensures Valid() && Contents == [] && Below == {}
    {
      items, Contents, Below := [], [], {};
    }

    /** Clone: a new list of a clone of each element. */
    constructor Clone(other: CandidatePairList)
      requires other.Valid()
      ensures Valid() && fresh(Below) && Contents == other.Contents
    {
      items, Contents, Below := [], [], {};
      new;
      hide CandidatePair.Valid, CandidatePair.Value, ElementsOk, MsgOk;
      for i := 0 to |other.items|
        invariant Valid() && fresh(Below) && Contents == other.Contents[..i]
      {
        assert other.Holds(other.items[i], other.Contents[i]);
        var e := new CandidatePair.Clone(other.items[i]);
        Append(e);
      }
    }

    method Append(e: CandidatePair)
      requires Valid() && e.Valid()
      modifies this
      ensures Valid() && Contents == old(Contents) + [old(e.Value())]
      ensures Below == old(Below + {e})
    {
      hide CandidatePair.Valid, CandidatePair.Value, ElementsOk, MsgOk;
      items, Contents, Below := items + [e], Contents + [e.Value()], Below + {e};
    }

    /** Add(other): the elements of the other list, shared. */
    method Add(other: CandidatePairList)
      requires Valid() && other.Valid()
      modifies this
      ensures Valid() && Contents == old(Contents) + old(other.Contents) && Below == old(Below) + old(other.Below)
    {
      hide CandidatePair.Valid, CandidatePair.Value, ElementsOk, MsgOk;
      items, Contents, Below := items + other.items, Contents + other.Contents, Below + other.Below;
    }

    /** WriteTo: each element writes itself behind its tag and length. */
    method WriteTo(output: CodedOutputStream, tag: nat, ghost s: Schema, ghost m: Msg, ghost k: nat,
                   ghost base: seq<byte>)
      requires Valid() && MsgOk(s, m) && k < |s.cells| && Upto(s, m, k, base, output.buf)
      requires tag < 128 && tag % 8 == 2 && s.cells[k] == Msgs(tag / 8, CANDIDATE_PAIR)
        && m.cells[k] == Ms(Contents)
      modifies output
      ensures Upto(s, m, k + 1, base, output.buf)
    {
      ghost var before := output.buf;
      WriteElements(output, tag, tag / 8);
      hide Upto, MsgOk, PutRecs, SubRecs, Valid;
      MsgsWritten(s, m, k, tag / 8, CANDIDATE_PAIR, base, before, output.buf);
    }

    method WriteElements(output: CodedOutputStream, tag: nat, num: nat)
      requires Valid() && num <= 15 && tag == 8 * num + 2
      modifies output
      ensures output.buf == old(output.buf) + PutRecs(SubRecs(num, CANDIDATE_PAIR, Contents))
    {
      hide PutRecs, PutRec, SubRecs, PutVarint, Bytes, MsgOk, CandidatePair.Valid, CandidatePair.Value;
      ghost var t, base, rs := CANDIDATE_PAIR, output.buf, SubRecs(num, CANDIDATE_PAIR, Contents);
      NoRecs(base, rs);
      SubRecsAt(num, t, Contents, 0);
      for i := 0 to |items|
        invariant Valid() && |rs| == |items| && output.buf == base + PutRecs(rs[..i])
      {
        SubRecsAt(num, t, Contents, i);
        assert Holds(items[i], Contents[i]);
        ghost var done := output.buf;
        output.WriteRawTag(tag);
        var size := items[i].CalculateSize();
        output.WriteVarint(size);
        items[i].WriteTo(output);
        LenWritten(done + PutVarint(tag), Bytes(t, Contents[i]));
        Emitted(done, Rec(num, Len(Bytes(t, Contents[i]))));
        Grow(base, done, rs, i);
      }
    }

    /** CalculateSize: each element's own size with its tag and length. */
    method CalculateSize() returns (size: nat)
      requires Valid()
      ensures size == MessagesSize(CANDIDATE_PAIR, Contents)
    {
      CandidateWellFormed();
      hide MessagesSize, MsgOk, Bytes, WellFormed, CandidatePair.Valid, CandidatePair.Value;
      ghost var t := CANDIDATE_PAIR;
      size := 0;
      MessagesSizeAt(t, Contents, 0);
      for i := 0 to |items|
        invariant size == MessagesSize(t, Contents[..i])
      {
        MessagesSizeAt(t, Contents, i + 1);
        assert Holds(items[i], Contents[i]);
        var n := items[i].CalculateSize();
        SizeIsLength(t, Contents[i]);
        size := size + 1 + ComputeLengthSize(n);
      }
      assert Contents[..|items|] == Contents;
    }

    /** AddEntriesFrom: one record, parsed into a new element. */
    method AddEntry(input: CodedInputStream) returns (r: Option<()>)
      requires Valid() && input.Valid()
      modifies this, input`pos, input`limit
      ensures Valid() && input.Valid() && fresh(Below - old(Below)) && (r.Some? ==> input.limit == old(input.limit))
      ensures r.None? ==> Contents == old(Contents)
      ensures r.Some? ==> Contents != [] && Contents == old(Contents) + [Contents[|Contents| - 1]]
      ensures MsgOk(CANDIDATE_PAIR, Empty(CANDIDATE_PAIR))
      ensures SubParsed(CANDIDATE_PAIR, Empty(CANDIDATE_PAIR), old(input.Rest()), r,
                if r.None? then None else Some(Contents[|Contents| - 1]), input.Rest())
    {
      EmptyOk(CANDIDATE_PAIR);
      hide MsgOk, RunBytes, GetLen, Empty, ElementsOk, CandidatePair.Valid, CandidatePair.Value;
      var e := new CandidatePair();
      var outer :- input.PushLimit();
      var _ :- e.MergeFromStream(input);
      input.PopLimit(outer);
      Append(e);
      return Some(());
    }
  }

  /** A hole-punching round: candidate pairs and port hints. */
  class PunchSync {
    var sessionNonce_: seq<byte>
    var generation_: uint
    var punchAtMsRelative_: uint
    const pairs_: CandidatePairList
    const birthdayPortHints_: RepeatedValues
    var unknownFields: seq<Rec>

    ghost predicate Valid()
      reads this, pairs_, birthdayPortHints_, pairs_.Below
      ensures Valid() ==> forall o: object :: o in pairs_.Below ==> o is CandidatePair
    {
      pairs_.Valid() && AllIn(U32, birthdayPortHints_.items) && UnknownOk(PUNCH_SYNC, unknownFields)
    }

    ghost function Value(): (m: Msg)
      requires Valid()
      reads this, pairs_, birthdayPortHints_, pairs_.Below
      ensures MsgOk(PUNCH_SYNC, m)
    {
      Msg(Five(
        V(B(sessionNonce_)), V(N(generation_)), V(N(punchAtMsRelative_)), Ms(pairs_.Contents),
        Vs(birthdayPortHints_.items)), unknownFields)
    }

    constructor ()
      ensures Valid() && fresh(pairs_) && fresh(birthdayPortHints_) && pairs_.Below == {}
        && Value() == Empty(PUNCH_SYNC)
    {
      pairs_ := new CandidatePairList();
      birthdayPortHints_ := new RepeatedValues();
      sessionNonce_, generation_, punchAtMsRelative_, unknownFields := [], 0, 0, [];
    }

    /** Clone: the copy constructor. */
    constructor Clone(other: PunchSync)
      requires other.Valid()
      ensures Valid() && fresh(pairs_) && fresh(birthdayPortHints_) && fresh(pairs_.Below)
        && Value() == other.Value()
    {
      pairs_ := new CandidatePairList.Clone(other.pairs_);
      birthdayPortHints_ := new RepeatedValues.Clone(other.birthdayPortHints_);
      sessionNonce_, generation_, punchAtMsRelative_, unknownFields := other.sessionNonce_, other.generation_,
        other.punchAtMsRelative_, other.unknownFields;
    }

    method WriteTo(output: CodedOutputStream)
      requires Valid()
      modifies output
      ensures output.buf == old(output.buf) + Bytes(PUNCH_SYNC, Value())
    {
      hide Upto, MsgOk, Bytes, PutRecs, PutVarint, ToWire, UnknownOk, Five, CandidatePairList.Valid;
      ghost var s, v, base := PUNCH_SYNC, Value(), output.buf;
      StartWrite(s, v, base);
      WriteBlob(output, 10, sessionNonce_, s, v, 0, base);
      WriteNumber(output, 16, U32, generation_, s, v, 1, base);
      WriteNumber(output, 24, U32, punchAtMsRelative_, s, v, 2, base);
      pairs_.WriteTo(output, 34, s, v, 3, base);
      birthdayPortHints_.WritePackedUInt32(output, 42, s, v, 4, base);
      ghost var done := output.buf;
      output.WriteUnknown(unknownFields);
      EndWrite(s, v, base, done, output.buf);
    }

    method CalculateSize() returns (size: nat)
      requires Valid()
      ensures size == |Bytes(PUNCH_SYNC, Value())|
    {
      CandidateWellFormed();
      hide MsgOk, Bytes, WellFormed, PrefixSize, VarintSize, UnknownOk, NumberSize, BlobSize, Five,
        CandidatePairList.Valid;
      ghost var s, v := PUNCH_SYNC, Value();
      size := 0;
      StartSize(s, v);
      size := size + BlobSize(sessionNonce_);
      BlobSized(s, v, 0, 1, sessionNonce_);
      size := size + NumberSize(U32, generation_);
      NumberSized(s, v, 1, 2, U32, generation_);
      size := size + NumberSize(U32, punchAtMsRelative_);
      NumberSized(s, v, 2, 3, U32, punchAtMsRelative_);
      var pairsSize := pairs_.CalculateSize();
      size := size + pairsSize;
      MsgsSized(s, v, 3, 4, CANDIDATE_PAIR, pairs_.Contents);
      size := size + PackedFieldSize(U32, birthdayPortHints_.items);
      PackSized(s, v, 4, 5, U32, birthdayPortHints_.items);
      size := size + UnknownSize(unknownFields);
      SizeIsLength(s, v);
    }

    method MergeFrom(other: PunchSync)
      requires Valid() && other.Valid()
      modifies this, pairs_, birthdayPortHints_
      ensures Valid()
      ensures pairs_.Below == old(pairs_.Below) + old(other.pairs_.Below)
      ensures Value() == Merge(PUNCH_SYNC, old(Value()), old(other.Value()))
    {
      hide MsgOk, Merge, Union, UnknownOk, MergedUpto, Newer, NewerBool, NewerBlob, Bit, Five,
        CandidatePairList.Valid;
      ghost var s, a, b := PUNCH_SYNC, Value(), other.Value();
      UnionOk(s, unknownFields, other.unknownFields);
      MergePlain(other);
      ghost var v := Value();
      assert MergedUpto(s, a, b, v, 3) by {
        StartMerge(s, a, b, v);
        BlobMerged(s, a, b, v, 0, 1, old(sessionNonce_), old(other.sessionNonce_));
        NumberMerged(s, a, b, v, 1, 2, U32, old(generation_), old(other.generation_));
        NumberMerged(s, a, b, v, 2, 3, U32, old(punchAtMsRelative_), old(other.punchAtMsRelative_));
      }
      assert MergedUpto(s, a, b, v, 5) by {
        MsgsMerged(s, a, b, v, 3, 4, CANDIDATE_PAIR, old(pairs_.Contents), old(other.pairs_.Contents));
        PackMerged(s, a, b, v, 4, 5, U32, old(birthdayPortHints_.items), old(other.birthdayPortHints_.items));
      }
      EndMerge(s, a, b, v);
    }

    /** The fields that are not sub-messages, and the unknown fields. */
    method MergePlain(other: PunchSync)
      requires pairs_.Valid() && other.pairs_.Valid()
      modifies
               this`sessionNonce_, this`generation_, this`punchAtMsRelative_, this`unknownFields, pairs_,
               birthdayPortHints_
      ensures sessionNonce_ == NewerBlob(old(sessionNonce_), old(other.sessionNonce_))
      ensures generation_ == Newer(old(generation_), old(other.generation_))
      ensures punchAtMsRelative_ == Newer(old(punchAtMsRelative_), old(other.punchAtMsRelative_))
      ensures pairs_.Valid() && pairs_.Contents == old(pairs_.Contents) + old(other.pairs_.Contents)
      ensures pairs_.Below == old(pairs_.Below) + old(other.pairs_.Below)
      ensures birthdayPortHints_.items == old(birthdayPortHints_.items) + old(other.birthdayPortHints_.items)
      ensures unknownFields == Union(old(unknownFields), old(other.unknownFields))
    {
      hide Newer, NewerBool, NewerBlob, Union, ElementsOk, CandidatePairList.Valid;
      MergeNonce(other);
      MergeNumbers(other);
      pairs_.Add(other.pairs_);
      birthdayPortHints_.Add(other.birthdayPortHints_);
      unknownFields := Union(unknownFields, other.unknownFields);
    }

    method MergeNonce(other: PunchSync)
      modifies this`sessionNonce_
      ensures sessionNonce_ == NewerBlob(old(sessionNonce_), old(other.sessionNonce_))
    {
      if |other.sessionNonce_| != 0 { sessionNonce_ := other.sessionNonce_; }
    }

    method MergeNumbers(other: PunchSync)
      modifies this`generation_, this`punchAtMsRelative_
      ensures generation_ == Newer(old(generation_), old(other.generation_))
      ensures punchAtMsRelative_ == Newer(old(punchAtMsRelative_), old(other.punchAtMsRelative_))
    {
      if other.generation_ != 0 { generation_ := other.generation_; }
      if other.punchAtMsRelative_ != 0 { punchAtMsRelative_ := other.punchAtMsRelative_; }
    }

    method MergeFromStream(input: CodedInputStream) returns (r: Option<()>)
      requires Valid() && input.Valid()
      modifies this, pairs_, birthdayPortHints_, input`pos, input`limit
      ensures Valid() && input.Valid() && fresh(pairs_.Below - old(pairs_.Below))
      ensures r.None? ==> RunBytes(PUNCH_SYNC, old(Value()), old(input.Rest())).None?
      ensures r.Some? ==> RunBytes(PUNCH_SYNC, old(Value()), old(input.Rest())) == Some(Value())
      ensures r.Some? ==> input.Rest() == [] && input.limit == old(input.limit)
    {
      hide RunBytes, MsgOk, GetTag, GetBody, Rejects, Accepts, UnknownOk, Five, CandidatePairList.Valid;
      ghost var s, start := PUNCH_SYNC, RunBytes(PUNCH_SYNC, Value(), input.Rest());
      while true
        invariant Valid() && input.Valid() && input.limit == old(input.limit)
        invariant fresh(pairs_.Below - old(pairs_.Below))
        invariant RunBytes(s, Value(), input.Rest()) == start
        decreases |input.Rest()|
      {
        ghost var b, m := input.Rest(), Value();
        PassTag(s, m, b);
        var tag :- input.ReadTag();
        if tag == 0 { break; }
        if tag % 8 == 4 { return None; }
        var ok := ReadField(tag, input);
        if ok.None? {
          PassRejected(s, m, b, GetTag(b).value);
          return None;
        }
        PassAccepted(s, m, b, GetTag(b).value, Value(), input.Rest());
      }
      return Some(());
    }

    /** The switch of the parse loop. */
    method ReadField(tag: nat, input: CodedInputStream) returns (r: Option<()>)
      requires Valid() && input.Valid() && 8 <= tag < TWO_32
      modifies this, pairs_, birthdayPortHints_, input`pos, input`limit
      ensures Valid() && input.Valid() && (r.Some? ==> input.limit == old(input.limit))
      ensures fresh(pairs_.Below - old(pairs_.Below))
      ensures r.None? ==> Rejects(PUNCH_SYNC, old(Value()), tag, old(input.Rest()))
      ensures r.Some? ==> Accepts(PUNCH_SYNC, old(Value()), tag, old(input.Rest()), Value(), input.Rest())
    {
      CandidateWellFormed();
      hide Rejects, Accepts, MsgOk, WellFormed, GetLen, GetUInt64, GetBody, UnknownOk, Insert, Signed, Five,
        CandidatePairList.Valid;
      ghost var s, m, b := PUNCH_SYNC, Value(), input.Rest();
      if tag == 10 {
        BlobRead(s, m, 0, 1, b);
        sessionNonce_ :- input.ReadBytes();
        Updated(m, 0, Value());
        return Some(());
      } else if tag == 16 {
        NumberRead(s, m, 1, 2, U32, b);
        generation_ :- input.ReadUInt32();
        Updated(m, 1, Value());
        return Some(());
      } else if tag == 24 {
        NumberRead(s, m, 2, 3, U32, b);
        punchAtMsRelative_ :- input.ReadUInt32();
        Updated(m, 2, Value());
        return Some(());
      } else {
        r := ReadField2(tag, input);
      }
    }

    /** The rest of the switch. */
    method ReadField2(tag: nat, input: CodedInputStream) returns (r: Option<()>)
      requires Valid() && input.Valid() && 8 <= tag < TWO_32
      requires tag !in {10, 16, 24}
      modifies this, pairs_, birthdayPortHints_, input`pos, input`limit
      ensures Valid() && input.Valid() && (r.Some? ==> input.limit == old(input.limit))
      ensures fresh(pairs_.Below - old(pairs_.Below))
      ensures r.None? ==> Rejects(PUNCH_SYNC, old(Value()), tag, old(input.Rest()))
      ensures r.Some? ==> Accepts(PUNCH_SYNC, old(Value()), tag, old(input.Rest()), Value(), input.Rest())
    {
      CandidateWellFormed();
      hide Rejects, Accepts, MsgOk, WellFormed, GetLen, GetUInt64, GetBody, UnknownOk, Insert, Signed,
        RunBytes, Empty, Five, CandidatePairList.Valid;
      ghost var s, m, b := PUNCH_SYNC, Value(), input.Rest();
      if tag == 34 {
        MsgsRead(s, m, 3, 4, CANDIDATE_PAIR, pairs_.Contents, b);
        var _ :- pairs_.AddEntry(input);
        Updated(m, 3, Value());
        return Some(());
      } else if tag == 42 {
        PackRead(s, m, 4, 5, U32, birthdayPortHints_.items, b);
        var chunk :- input.ReadBytes();
        var es :- Unpack(U32, chunk);
        birthdayPortHints_.AddRange(es);
        Updated(m, 4, Value());
        return Some(());
      } else if tag == 40 {
        ElementRead(s, m, 4, 5, U32, birthdayPortHints_.items, b);
        var e :- input.ReadUInt32();
        birthdayPortHints_.Append(N(e));
        Updated(m, 4, Value());
        return Some(());
      } else {
        r := ReadUnknown(tag, input);
      }
    }

    /** The default label. */
    method ReadUnknown(tag: nat, input: CodedInputStream) returns (r: Option<()>)
      requires Valid() && input.Valid() && 8 <= tag < TWO_32
      requires tag !in {10, 16, 24, 34, 42, 40}
      modifies this, pairs_, birthdayPortHints_, input`pos, input`limit
      ensures Valid() && input.Valid() && (r.Some? ==> input.limit == old(input.limit))
      ensures fresh(pairs_.Below - old(pairs_.Below))
      ensures r.None? ==> Rejects(PUNCH_SYNC, old(Value()), tag, old(input.Rest()))
      ensures r.Some? ==> Accepts(PUNCH_SYNC, old(Value()), tag, old(input.Rest()), Value(), input.Rest())
    {
      CandidateWellFormed();
      hide Rejects, Accepts, MsgOk, WellFormed, GetLen, GetUInt64, GetBody, UnknownOk, Insert, Signed, NoLabel,
        Five, CandidatePairList.Valid;
      ghost var s, m, b := PUNCH_SYNC, Value(), input.Rest();
      Unlabelled(tag);
      DefaultRead(s, m, tag, b);
      var p :- input.ReadUnknown(tag);
      unknownFields := Insert(unknownFields, Rec(tag / 8, p));
      return Some(());
    }

    /** A tag that is none of the case labels. */
    static lemma Unlabelled(tag: nat)
      requires tag !in {10, 16, 24, 34, 42, 40}
      ensures |PUNCH_SYNC.cells| <= 14 && NoLabel(PUNCH_SYNC, tag)
    {
      hide Five, CandidatePairList.Valid;
    }
  }
}
