/** What the general theorems say of the repository's own messages, and where a law that
    looks natural fails. */
module Laws {
  import opened Seqs
  import opened Wire
  import opened Unknown
  import opened Codec
  import opened Merging
  import opened Refinement
  import opened Sizes
  import opened Ordering
  import opened Concat
  import opened Format
  import opened Fields
  import opened Equality
  import opened Schemas

  /** The cell lists of the modelled messages. */
  predicate Modelled(s: Schema) {
    || s == NEGOTIATION_RESULT || s == CAPABILITY_SET || s == CAPABILITY || s == CAPABILITY_PARAMETER
    || s == STRING_SET || s == ERROR_ENVELOPE || s == RESOLVED_ATTRIBUTES || s == EVIDENCE
    || s == IP_PREFIX || s == IP_ADDRESS || s == IPV4_ADDRESS || s == IPV6_ADDRESS
    || s == MESSAGE_METADATA || s == AUTH || s == VERSION_PRECONDITION || s == DNS_POLICY
    || s == SPLIT_DOMAIN_RULE || s == PUNCH_SYNC || s == CANDIDATE_PAIR || s == DEVICE
  }

  lemma ModelledWellFormed(s: Schema)
    requires Modelled(s)
    ensures WellFormed(s)
  {
    hide WellFormed;
    CapabilityTreeWellFormed();
    AddressesWellFormed();
    MetadataWellFormed();
    ErrorTreeWellFormed();
    DnsWellFormed();
    CandidateWellFormed();
    DeviceWellFormed();
  }

  /** Writing and parsing, for every modelled message: parsing the bytes written for `b` into `a`
      merges `b`; into a new object it gives `b` back; the predicted size is the length; messages
      with the same bytes are the same; and n written messages in a row parse to the left fold. */
  lemma CodecLaws(s: Schema, a: Msg, b: Msg, ms: seq<Msg>)
    requires Modelled(s) && MsgOk(s, a) && MsgOk(s, b) && forall i :: 0 <= i < |ms| ==> MsgOk(s, ms[i])
    ensures RunBytes(s, a, Bytes(s, b)) == Some(Merge(s, a, b))
    ensures Parse(s, Bytes(s, b)) == Some(b)
    ensures Size(s, b) == |Bytes(s, b)|
    ensures Bytes(s, a) == Bytes(s, b) <==> a == b
    ensures RunBytes(s, a, WriteAll(s, ms)) == Some(MergeAll(s, a, ms))
  {
    ModelledWellFormed(s);
    hide Modelled, WellFormed, MsgOk, Merge, RunBytes, Bytes, Size, Parse;
    ParseWriteIsMerge(s, a, b);
    ParseOfWrite(s, b);
    SizeIsLength(s, b);
    WriteInjective(s, a, b);
    ParseOfConcatIsFold(s, a, ms);
  }

  /** For every input the parser accepts, at every depth the unknown set holds only records no
      case label handles, and writing and parsing again changes nothing. */
  lemma DecodeInvariant(s: Schema, b: seq<byte>)
    requires Modelled(s) && Parse(s, b).Some?
    ensures MsgOk(s, Parse(s, b).value)
    ensures Parse(s, Bytes(s, Parse(s, b).value)) == Parse(s, b)
  {
    ModelledWellFormed(s);
    hide Modelled, WellFormed, Bytes, Parse;
    DecodeStable(s, b);
  }

  // ------------------------------------------------------------- merge laws

  predicate HoldsUint(m: Msg) { |m.cells| == 3 && m.cells[2].PickV? }

  predicate HoldsSet(m: Msg) { |m.cells| == 3 && m.cells[2].PickM? }

  predicate HoldsNonEmptySet(m: Msg) { HoldsSet(m) && m.cells[2].pm != Empty(STRING_SET) }

  /** Merging capability parameters is associative except exactly when the first holds a
      non-empty set_value (values or unknown fields), the second uint_value and the third
      set_value. */
  lemma ParameterAssociative(a: Msg, b: Msg, c: Msg)
    requires MsgOk(CAPABILITY_PARAMETER, a) && MsgOk(CAPABILITY_PARAMETER, b) && MsgOk(CAPABILITY_PARAMETER, c)
    ensures var s := CAPABILITY_PARAMETER;
            Merge(s, Merge(s, a, b), c) == Merge(s, a, Merge(s, b, c)) <==>
            !(HoldsNonEmptySet(a) && HoldsUint(b) && HoldsSet(c))
  {
    MergeAssociative(CAPABILITY_PARAMETER, a, b, c);
    ParameterCells(a);
    ParameterCells(b);
    ParameterCells(c);
    ScalarsRegroup(a, b, c);
    ParameterRegroups(a.cells[2], b.cells[2], c.cells[2]);
    hide Merge, MsgOk, CellOk, CellRegroups, Regroups, Empty;
  }

  lemma ParameterCells(m: Msg)
    requires MsgOk(CAPABILITY_PARAMETER, m)
    ensures |m.cells| == 3 && CellOk(One(1, Blob), m.cells[0]) && CellOk(One(2, Enum), m.cells[1])
    ensures CellOk(Alt(PARAMETER_VALUE), m.cells[2])
  {
    var s := CAPABILITY_PARAMETER;
    assert CellOk(s.cells[0], m.cells[0]) && CellOk(s.cells[1], m.cells[1]) && CellOk(s.cells[2], m.cells[2]);
    hide CellOk, UnknownOk;
  }

  lemma ScalarsRegroup(a: Msg, b: Msg, c: Msg)
    requires MsgOk(CAPABILITY_PARAMETER, a) && MsgOk(CAPABILITY_PARAMETER, b) && MsgOk(CAPABILITY_PARAMETER, c)
    ensures |a.cells| == |b.cells| == |c.cells| == 3
    ensures CellOk(Alt(PARAMETER_VALUE), a.cells[2]) && CellOk(Alt(PARAMETER_VALUE), b.cells[2])
            && CellOk(Alt(PARAMETER_VALUE), c.cells[2])
    ensures Regroups(CAPABILITY_PARAMETER, a, b, c) <==>
            CellRegroups(Alt(PARAMETER_VALUE), a.cells[2], b.cells[2], c.cells[2])
  {
    ParameterCells(a);
    ParameterCells(b);
    ParameterCells(c);
    var s := CAPABILITY_PARAMETER;
    assert CellRegroups(s.cells[0], a.cells[0], b.cells[0], c.cells[0]);
    assert CellRegroups(s.cells[1], a.cells[1], b.cells[1], c.cells[1]);
    hide CellRegroups, CellOk, UnknownOk;
  }

  lemma ParameterRegroups(x: Cont, y: Cont, z: Cont)
    requires CellOk(Alt(PARAMETER_VALUE), x) && CellOk(Alt(PARAMETER_VALUE), y) && CellOk(Alt(PARAMETER_VALUE), z)
    ensures CellRegroups(Alt(PARAMETER_VALUE), x, y, z) <==>
            !(x.PickM? && x.pm != Empty(STRING_SET) && y.PickV? && z.PickM?)
  {
    hide UnknownOk;
    if x.PickM? && z.PickM? {
      assert x.arm == 1 && z.arm == 1 && PARAMETER_VALUE[1] == MsgArm(4, STRING_SET);
      assert MsgOk(STRING_SET, x.pm) && MsgOk(STRING_SET, z.pm);
      StringSetCovers(x.pm, z.pm);
      if y.PickM? { PlainRegroups(STRING_SET, x.pm, y.pm, z.pm); }
      hide MsgOk, Covers, Empty, Regroups;
    }
  }

  lemma StringSetCovers(x: Msg, z: Msg)
    requires MsgOk(STRING_SET, x) && MsgOk(STRING_SET, z)
    ensures Covers(STRING_SET, x, z) <==> x == Empty(STRING_SET)
  {
    hide UnknownOk;
    if Covers(STRING_SET, x, z) {
      assert CellCovers(STRING_SET.cells[0], x.cells[0], z.cells[0]);
      MsgExtensional(x, Empty(STRING_SET));
    }
  }

  /** A failing input: a set of one string, then a number, then an empty set. Merged from the
      left the string is gone, merged from the right it is back. */
  lemma ParameterNotAssociative()
    ensures var s := CAPABILITY_PARAMETER;
            var a, b, c := Parameter(PickM(1, Msg([Vs([B([120])])], []))), Parameter(PickV(0, N(0))),
                           Parameter(PickM(1, Empty(STRING_SET)));
            && MsgOk(s, a) && MsgOk(s, b) && MsgOk(s, c)
            && Merge(s, Merge(s, a, b), c) != Merge(s, a, Merge(s, b, c))
  {
    var one := Msg([Vs([B([120])])], []);
    EmptyOk(STRING_SET);
    assert MsgOk(STRING_SET, one);
    assert one != Empty(STRING_SET) by { assert |one.cells[0].vs| == 1 && Empty(STRING_SET).cells[0] == Vs([]); }
    ParameterOk(PickM(1, one));
    ParameterOk(PickV(0, N(0)));
    ParameterOk(PickM(1, Empty(STRING_SET)));
    hide MsgOk, Merge, Empty;
    ParameterAssociative(Parameter(PickM(1, one)), Parameter(PickV(0, N(0))), Parameter(PickM(1, Empty(STRING_SET))));
  }

  function Parameter(value: Cont): Msg { Msg([V(B([])), V(N(0)), value], []) }

  lemma ParameterOk(value: Cont)
    requires CellOk(Alt(PARAMETER_VALUE), value)
    ensures MsgOk(CAPABILITY_PARAMETER, Parameter(value))
  {
    hide CellOk;
    assert CellOk(One(1, Blob), V(B([]))) && CellOk(One(2, Enum), V(N(0))) by { FirstCellsOk(); }
  }

  lemma FirstCellsOk()
    ensures CellOk(One(1, Blob), V(B([]))) && CellOk(One(2, Enum), V(N(0)))
  {
  }

  /** Merging IP addresses is associative except exactly when the first and third hold the same
      family, the second the other, and the first has content the third does not override. */
  lemma AddressAssociative(a: Msg, b: Msg, c: Msg)
    requires MsgOk(IP_ADDRESS, a) && MsgOk(IP_ADDRESS, b) && MsgOk(IP_ADDRESS, c)
    ensures |a.cells| == |b.cells| == |c.cells| == 1
    ensures CellOk(Alt(ADDRESS_ARMS), a.cells[0]) && CellOk(Alt(ADDRESS_ARMS), c.cells[0])
    ensures var s := IP_ADDRESS;
            Merge(s, Merge(s, a, b), c) == Merge(s, a, Merge(s, b, c)) <==>
            !ReturnsToFamily(a.cells[0], b.cells[0], c.cells[0])
  {
    MergeAssociative(IP_ADDRESS, a, b, c);
    AddressCell(a);
    AddressCell(b);
    AddressCell(c);
    AddressRegroups(a.cells[0], b.cells[0], c.cells[0]);
    assert Regroups(IP_ADDRESS, a, b, c) <==> CellRegroups(IP_ADDRESS.cells[0], a.cells[0], b.cells[0], c.cells[0]);
    hide Merge, MsgOk, CellOk, CellRegroups, Regroups, ReturnsToFamily;
  }

  /** A failing input: an IPv4 address, an IPv6 address, an empty IPv4 address. */
  lemma AddressNotAssociative()
    ensures var s, a, b, c := IP_ADDRESS, Address(0, [10]), Address(1, [32]), Address(0, []);
            && MsgOk(s, a) && MsgOk(s, b) && MsgOk(s, c)
            && Merge(s, Merge(s, a, b), c) != Merge(s, a, Merge(s, b, c))
  {
    AddressOk(0, [10]);
    AddressOk(1, [32]);
    AddressOk(0, []);
    assert !CellCovers(One(1, Blob), V(B([10])), V(B([])));
    var x, z := Octets(0, [10]), Octets(0, []);
    assert !Covers(IPV4_ADDRESS, x, z) by { assert !CellCovers(IPV4_ADDRESS.cells[0], x.cells[0], z.cells[0]); }
    hide MsgOk, Merge, Covers;
    AddressAssociative(Address(0, [10]), Address(1, [32]), Address(0, []));
  }

  function Octets(arm: nat, octets: seq<byte>): Msg {
    if arm == 0 then Msg([V(B(octets))], []) else Msg([V(B(octets)), V(N(0))], [])
  }

  function Address(arm: nat, octets: seq<byte>): Msg { Msg([PickM(arm, Octets(arm, octets))], []) }

  lemma AddressOk(arm: nat, octets: seq<byte>)
    requires arm < 2
    ensures MsgOk(IP_ADDRESS, Address(arm, octets)) && MsgOk(ADDRESS_ARMS[arm].msg, Octets(arm, octets))
  {
    assert MsgOk(ADDRESS_ARMS[arm].msg, Octets(arm, octets));
  }

  predicate ReturnsToFamily(x: Cont, y: Cont, z: Cont)
    requires CellOk(Alt(ADDRESS_ARMS), x) && CellOk(Alt(ADDRESS_ARMS), z)
  {
    && x.PickM? && y.PickM? && z.PickM? && x.arm == z.arm != y.arm
    && !Covers(ADDRESS_ARMS[x.arm].msg, x.pm, z.pm)
  }

  lemma AddressCell(m: Msg)
    requires MsgOk(IP_ADDRESS, m)
    ensures |m.cells| == 1 && CellOk(Alt(ADDRESS_ARMS), m.cells[0])
  {
    assert CellOk(IP_ADDRESS.cells[0], m.cells[0]);
    hide CellOk, UnknownOk;
  }

  lemma AddressRegroups(x: Cont, y: Cont, z: Cont)
    requires CellOk(Alt(ADDRESS_ARMS), x) && CellOk(Alt(ADDRESS_ARMS), y) && CellOk(Alt(ADDRESS_ARMS), z)
    ensures CellRegroups(Alt(ADDRESS_ARMS), x, y, z) <==> !ReturnsToFamily(x, y, z)
  {
    hide UnknownOk, Covers;
    assert ADDRESS_ARMS[0].MsgArm? && ADDRESS_ARMS[1].MsgArm? && |ADDRESS_ARMS| == 2;
    if x.PickM? && y.PickM? && z.PickM? && x.arm == z.arm == y.arm {
      PlainRegroups(ADDRESS_ARMS[x.arm].msg, x.pm, y.pm, z.pm);
    }
    hide MsgOk, Regroups;
  }

  /** MessageMetadata, ErrorEnvelope and CapabilitySet are monoids under MergeFrom, with the new
      object as the unit. */
  lemma MergeMonoid(s: Schema, a: Msg, b: Msg, c: Msg)
    requires s == MESSAGE_METADATA || s == ERROR_ENVELOPE || s == CAPABILITY_SET
    requires MsgOk(s, a) && MsgOk(s, b) && MsgOk(s, c)
    ensures MsgOk(s, Empty(s)) && Merge(s, Empty(s), a) == a == Merge(s, a, Empty(s))
    ensures Merge(s, Merge(s, a, b), c) == Merge(s, a, Merge(s, b, c))
  {
    MonoidSchemas();
    hide Plain, MsgOk, Merge, Empty;
    PlainMonoid(s, a, b, c);
  }

  lemma MonoidSchemas()
    ensures Plain(MESSAGE_METADATA) && Plain(ERROR_ENVELOPE) && Plain(CAPABILITY_SET)
  {
    hide Ten, Eleven;
    assert Plain(AUTH);
    ResolvedPlain();
  }

  lemma ResolvedPlain()
    ensures Plain(RESOLVED_ATTRIBUTES)
  {
    hide Nine;
  }

  // ------------------------------------------------------ explicit defaults

  function Pair(x: Val, y: Val): Msg { Msg([V(x), V(y)], []) }

  /** Parsing one record of field 1 of a candidate pair. */
  lemma FirstIndex(x: nat, y: nat, w: nat)
    requires x < TWO_32 && y < TWO_32 && w < TWO_32
    ensures MsgOk(CANDIDATE_PAIR, Pair(N(x), N(y)))
    ensures RunBytes(CANDIDATE_PAIR, Pair(N(x), N(y)), PutRecs([Rec(1, Varint(w))])) == Some(Pair(N(w), N(y)))
    ensures Records(PutRecs([Rec(1, Varint(w))])).Some?
  {
    var s, m, r := CANDIDATE_PAIR, Pair(N(x), N(y)), Rec(1, Varint(w));
    CandidateWellFormed();
    assert MsgOk(s, m);
    hide WellFormed, MsgOk, PutRecs, Run;
    ParsedNumber(s, m, 0, 1, U32, w, w);
    RecordsRoundTrip([r]);
    assert m.cells[0 := V(N(w))] == Pair(N(w), N(y)).cells;
  }

  /** Parsing a concatenation is not merging the parses: an explicit zero in the second part
      resets the field, and the merge loses it. */
  lemma ParseOfConcatIsNotMerge()
    ensures var s, a, b := CANDIDATE_PAIR, PutRecs([Rec(1, Varint(1))]), PutRecs([Rec(1, Varint(0))]);
            && Parse(s, a).Some? && Parse(s, b).Some?
            && Parse(s, a + b) != Some(Merge(s, Parse(s, a).value, Parse(s, b).value))
  {
    var s, a, b := CANDIDATE_PAIR, PutRecs([Rec(1, Varint(1))]), PutRecs([Rec(1, Varint(0))]);
    EmptyOk(s);
    assert Empty(s).cells == Pair(N(0), N(0)).cells;
    FirstIndex(0, 0, 1);
    FirstIndex(0, 0, 0);
    FirstIndex(1, 0, 0);
    hide RunBytes, Records, PutRecs, MsgOk, Merge;
    RunBytesConcat(s, Empty(s), a, b);
    MergeRightIdentity(s, Pair(N(1), N(0)));
  }

  // ------------------------------------------------------ records on the wire

  /** MessageMetadata does not depend on field order: two record sequences that agree on the
      records of each field number, in order, decode alike, known and unknown fields both. */
  lemma MetadataOrder(m: Msg, rs: seq<Rec>, ts: seq<Rec>)
    requires MsgOk(MESSAGE_METADATA, m) && AllOk(rs) && AllOk(ts)
    requires forall n: nat :: Only(rs, n) == Only(ts, n)
    ensures RunBytes(MESSAGE_METADATA, m, PutRecs(rs)) == RunBytes(MESSAGE_METADATA, m, PutRecs(ts))
  {
    MetadataOneofFree();
    RecordsRoundTrip(rs);
    RecordsRoundTrip(ts);
    hide OneofFree, MsgOk, Records, PutRecs, Run;
    FieldOrderIrrelevant(MESSAGE_METADATA, m, rs, ts);
  }

  lemma MetadataOneofFree()
    ensures OneofFree(MESSAGE_METADATA)
  {
    hide Eleven;
  }

  /** One record of a field, holding `p`. */
  function Frame(num: nat, p: seq<byte>): seq<byte> { PutRecs([Rec(num, Len(p))]) }

  /** Cutting the payload of MessageMetadata.auth, or of either member of IPAddress, at a record
      boundary into two records of the field decodes to the same message. */
  lemma PayloadSplits(s: Schema, num: nat, m: Msg, p: seq<byte>, q: seq<byte>)
    requires (s == MESSAGE_METADATA && num == 11) || (s == IP_ADDRESS && (num == 1 || num == 2))
    requires MsgOk(s, m) && Records(p).Some?
    ensures RunBytes(s, m, Frame(num, p) + Frame(num, q)) == RunBytes(s, m, Frame(num, p + q))
  {
    if num == 11 { AuthOwner(p); } else { AddressOwner(num, p); }
    hide MsgOk, Records, Frame, RunBytes, Owner, HoldsMessage;
    SplitBytes(s, num, m, p, q);
  }

  lemma SplitBytes(s: Schema, num: nat, m: Msg, p: seq<byte>, q: seq<byte>)
    requires MsgOk(s, m) && 1 <= num <= 15 && Records(p).Some?
    requires Owner(s, Rec(num, Len(p))).Some?
    requires HoldsMessage(s.cells[Owner(s, Rec(num, Len(p))).value], Rec(num, Len(p)))
    ensures RunBytes(s, m, Frame(num, p) + Frame(num, q)) == RunBytes(s, m, Frame(num, p + q))
  {
    var a, b, c := Rec(num, Len(p)), Rec(num, Len(q)), Rec(num, Len(p + q));
    RecordsRoundTrip([a, b]);
    RecordsRoundTrip([c]);
    PutRecsConcat([a], [b]);
    assert [a] + [b] == [a, b];
    hide MsgOk, Records, PutRecs, Run, Owner, HoldsMessage;
    SplitPayload(s, m, num, p, q);
  }

  lemma AuthOwner(p: seq<byte>)
    ensures var s, r := MESSAGE_METADATA, Rec(11, Len(p));
            Owner(s, r) == Some(10) && |s.cells| == 11 && HoldsMessage(s.cells[10], r)
  {
    MetadataWellFormed();
    hide Eleven, WellFormed;
    OwnerUnique(MESSAGE_METADATA, Rec(11, Len(p)), 10);
  }

  lemma AddressOwner(num: nat, p: seq<byte>)
    requires num == 1 || num == 2
    ensures var s, r := IP_ADDRESS, Rec(num, Len(p));
            Owner(s, r) == Some(0) && HoldsMessage(s.cells[0], r)
  {
    AddressesWellFormed();
    var r := Rec(num, Len(p));
    ArmUnique(ADDRESS_ARMS, r, num - 1);
    hide WellFormed;
    OwnerUnique(IP_ADDRESS, r, 0);
  }

  /** PunchSync.birthday_port_hints: cut into packed chunks and single elements in any way, with
      any other records between them, the list decoded is the list that one packed record gives. */
  lemma PortHintsAnyCut(m: Msg, rs: seq<Rec>, cs: seq<Chunk>)
    requires MsgOk(PUNCH_SYNC, m) && AllOk(rs) && ChunksOk(U32, cs)
    requires Sent(PUNCH_SYNC, rs, Some(4)) == ChunkRecs(5, U32, cs)
    ensures |m.cells| == 5 && m.cells[4].Vs?
    ensures var z := Run(PUNCH_SYNC, m, rs);
            z.Some? ==> |z.value.cells| == 5 && z.value.cells[4] == Vs(m.cells[4].vs + Joined(cs))
    ensures AllIn(U32, Joined(cs))
    ensures Fold(Pack(5, U32), m.cells[4], CellRecs(Pack(5, U32), Vs(Joined(cs)))) == Some(Vs(m.cells[4].vs + Joined(cs)))
  {
    var s, c := PUNCH_SYNC, Pack(5, U32);
    assert s.cells[4] == c && CellOk(c, m.cells[4]);
    AnyCutDecodes(5, U32, m.cells[4].vs, cs);
    JoinedIn(U32, cs);
    CandidateWellFormed();
    assert CellWellFormed(c);
    hide WellFormed, CellWellFormed, Fold, CellRecs, AllIn, MsgOk, Run, Sent, ChunkRecs;
    FieldParseWriteIsMerge(c, m.cells[4], Vs(Joined(cs)));
    RunByField(s, m, rs);
    var z := Run(s, m, rs);
    if z.Some? {
      assert ByField(s, m, rs, z);
      assert FieldResult(s, m, rs, 4) == Some(z.value.cells[4]);
    }
  }

  lemma {:induction false} JoinedIn(k: NumKind, cs: seq<Chunk>)
    requires ChunksOk(k, cs)
    ensures AllIn(k, Joined(cs))
  {
    if cs != [] { JoinedIn(k, cs[1..]); }
  }

  // ------------------------------------------------------------------ Device.revoked

  predicate Revoked(d: Msg) { |d.cells| == 14 && d.cells[13] == V(N(1)) }

  /** What a run does to a device: a merge of another object, or a parse of the bytes another
      object wrote. */
  datatype DeviceStep = Merged(other: Msg) | ParsedWritten(other: Msg)

  predicate StepsOk(steps: seq<DeviceStep>) {
    forall i :: 0 <= i < |steps| ==> MsgOk(DEVICE, steps[i].other)
  }

  function Apply(d: Msg, step: DeviceStep): (r: Option<Msg>)
    requires MsgOk(DEVICE, d) && MsgOk(DEVICE, step.other)
    ensures r.Some? ==> MsgOk(DEVICE, r.value)
  {
    match step
    case Merged(o) => Some(Merge(DEVICE, d, o))
    case ParsedWritten(o) => RunBytes(DEVICE, d, Bytes(DEVICE, o))
  }

  function ApplyAll(d: Msg, steps: seq<DeviceStep>): (r: Option<Msg>)
    requires MsgOk(DEVICE, d) && StepsOk(steps)
    ensures r.Some? ==> MsgOk(DEVICE, r.value)
    decreases |steps|
  {
    if steps == [] then Some(d)
    else
      match Apply(d, steps[0])
      case None => None
      case Some(e) => ApplyAll(e, steps[1..])
  }

  predicate BringsRevoked(steps: seq<DeviceStep>) {
    exists i :: 0 <= i < |steps| && Revoked(steps[i].other)
  }

  /** Over every run no step fails, and the device ends revoked exactly when it began revoked or
      some step brought a revoked one: the flag never goes back. */
  lemma {:induction false} RevokedIsOneWay(d: Msg, steps: seq<DeviceStep>)
    requires MsgOk(DEVICE, d) && StepsOk(steps)
    ensures ApplyAll(d, steps).Some?
    ensures Revoked(ApplyAll(d, steps).value) <==> Revoked(d) || BringsRevoked(steps)
    decreases |steps|
  {
    if steps != [] {
      StepRevoked(d, steps[0]);
      BringsNext(steps);
      hide MsgOk, Apply, Revoked, BringsRevoked;
      RevokedIsOneWay(Apply(d, steps[0]).value, steps[1..]);
    }
  }

  lemma BringsNext(steps: seq<DeviceStep>)
    requires steps != []
    ensures BringsRevoked(steps) <==> Revoked(steps[0].other) || BringsRevoked(steps[1..])
  {
    hide Revoked;
    assert forall i :: 1 <= i < |steps| ==> steps[i] == steps[1..][i - 1];
    if i :| 0 <= i < |steps[1..]| && Revoked(steps[1..][i].other) { assert Revoked(steps[i + 1].other); }
  }

  lemma StepRevoked(d: Msg, step: DeviceStep)
    requires MsgOk(DEVICE, d) && MsgOk(DEVICE, step.other)
    ensures Apply(d, step).Some?
    ensures Revoked(Apply(d, step).value) <==> Revoked(d) || Revoked(step.other)
  {
    DeviceWellFormed();
    hide MsgOk, WellFormed, Merge, Bytes, RunBytes, Revoked;
    ParseWriteIsMerge(DEVICE, d, step.other);
    MergeRevoked(d, step.other);
  }

  lemma MergeRevoked(d: Msg, o: Msg)
    requires MsgOk(DEVICE, d) && MsgOk(DEVICE, o)
    ensures Revoked(Merge(DEVICE, d, o)) <==> Revoked(d) || Revoked(o)
  {
    hide Fourteen, UnknownOk, Union;
    assert DEVICE.cells[13] == One(14, Bool);
    assert CellOk(DEVICE.cells[13], d.cells[13]) && CellOk(DEVICE.cells[13], o.cells[13]);
    assert Merge(DEVICE, d, o).cells[13] == CellMerge(DEVICE.cells[13], d.cells[13], o.cells[13]);
    hide MsgOk, Merge;
  }

  /** Whatever is parsed, a revoked device stops being revoked exactly when the last record of
      tag 112 holds an explicit zero. */
  lemma OnlyExplicitZeroResets(d: Msg, rs: seq<Rec>)
    requires MsgOk(DEVICE, d) && AllOk(rs) && Run(DEVICE, d, rs).Some? && Revoked(d)
    ensures var own := Sent(DEVICE, rs, Some(13));
            !Revoked(Run(DEVICE, d, rs).value) <==> own != [] && own[|own| - 1].payload == Varint(0)
  {
    var s, own := DEVICE, Sent(DEVICE, rs, Some(13));
    DeviceLastCell();
    SentOwned(s, rs, Some(13));
    forall i | 0 <= i < |own| ensures Owns(One(14, Bool), own[i]) {
      assert Owner(s, own[i]) == Some(13);
    }
    assert InRange(Bool, N(1));
    LastDecides(One(14, Bool), V(N(1)), own);
    RunByField(s, d, rs);
    assert ByField(s, d, rs, Run(s, d, rs));
    assert FieldResult(s, d, rs, 13) == Some(Run(s, d, rs).value.cells[13]);
    hide Fold, MsgOk, Run, Sent, Owns;
    if own != [] { assert RecOk(own[|own| - 1]) && Fits(Bool, own[|own| - 1].payload); }
  }

  lemma DeviceLastCell()
    ensures |DEVICE.cells| == 14 && DEVICE.cells[13] == One(14, Bool)
  {
    hide Fourteen;
  }

  // ------------------------------------------------------------------ DNSPolicy

  /** The four explicit-presence fields. */
  predicate PresenceCell(k: nat) { k == 5 || k == 6 || k == 9 || k == 10 }

  /** A policy with a field unset and the same policy with it set to false: they are equal and
      hash alike if false hashes to zero, but their bytes differ and each is read back as it was. */
  lemma FalseIsNotUnset(h: Hashers, m: Msg, k: nat)
    requires MsgOk(DNS_POLICY, m) && PresenceCell(k) && |m.cells| == 14 && m.cells[k] == O(None)
    ensures var n := m.(cells := m.cells[k := O(Some(N(0)))]);
            && MsgOk(DNS_POLICY, n) && Equals(DNS_POLICY, m, n)
            && (h.scalar(Bool, N(0)) == {} ==> Hash(h, DNS_POLICY, m) == Hash(h, DNS_POLICY, n))
            && Bytes(DNS_POLICY, m) != Bytes(DNS_POLICY, n)
            && Parse(DNS_POLICY, Bytes(DNS_POLICY, m)) == Some(m)
            && Parse(DNS_POLICY, Bytes(DNS_POLICY, n)) == Some(n)
  {
    var s, n := DNS_POLICY, m.(cells := m.cells[k := O(Some(N(0)))]);
    PolicyFlags(k);
    SetToFalse(m, n, k);
    DnsWellFormed();
    PolicyHashes(h);
    hide WellFormed, MsgOk, Equals, Bytes, Parse, Hash, ZeroHashes, Fourteen;
    assert m != n by { assert m.cells[k] != n.cells[k]; }
    WriteInjective(s, m, n);
    ParseOfWrite(s, m);
    ParseOfWrite(s, n);
    if h.scalar(Bool, N(0)) == {} { EqualHashes(h, s, m, n); }
  }

  lemma PolicyFlags(k: nat)
    requires PresenceCell(k)
    ensures |DNS_POLICY.cells| == 14 && DNS_POLICY.cells[k].Opt? && DNS_POLICY.cells[k].kind == Bool
  {
    hide Fourteen;
  }

  lemma SetToFalse(m: Msg, n: Msg, k: nat)
    requires MsgOk(DNS_POLICY, m) && k < |m.cells| == |DNS_POLICY.cells| && m.cells[k] == O(None)
    requires DNS_POLICY.cells[k].Opt? && DNS_POLICY.cells[k].kind == Bool
    requires n == m.(cells := m.cells[k := O(Some(N(0)))])
    ensures MsgOk(DNS_POLICY, n) && Equals(DNS_POLICY, m, n)
  {
    hide Fourteen, UnknownOk;
    EqualsEquivalence(DNS_POLICY, m, m, m);
  }

  /** For DNSPolicy equal messages have equal hashes exactly when false hashes to zero. */
  lemma PolicyHashes(h: Hashers)
    ensures ZeroHashes(h, DNS_POLICY) <==> h.scalar(Bool, N(0)) == {}
    ensures ZeroHashes(h, DNS_POLICY) <==>
            forall a, b :: MsgOk(DNS_POLICY, a) && MsgOk(DNS_POLICY, b) && Equals(DNS_POLICY, a, b) ==>
              Hash(h, DNS_POLICY, a) == Hash(h, DNS_POLICY, b)
  {
    PolicyZeroHashes(h);
    PolicySeparates(h);
    hide Fourteen, ZeroHashes, Separates, MsgOk, Equals, Hash;
    EqualHashesExactly(h, DNS_POLICY);
  }

  lemma PolicySeparates(h: Hashers)
    ensures Separates(h, DNS_POLICY)
  {
    ElementHashes(h);
    hide Fourteen, ZeroHashes;
  }

  lemma ElementHashes(h: Hashers)
    ensures ZeroHashes(h, IPV4_ADDRESS) && ZeroHashes(h, IPV6_ADDRESS) && ZeroHashes(h, SPLIT_DOMAIN_RULE)
  {
  }

  lemma PolicyZeroHashes(h: Hashers)
    ensures ZeroHashes(h, DNS_POLICY) <==> h.scalar(Bool, N(0)) == {}
  {
    ElementHashes(h);
    hide Fourteen;
    if ZeroHashes(h, DNS_POLICY) { assert CellZeroHashes(h, DNS_POLICY.cells[5]); }
  }

  /** For every modelled message equal messages have equal hashes; only DNSPolicy, where Equals
      ignores presence and the hash tests it, needs false to hash to zero. */
  lemma EqualHashLaw(h: Hashers, s: Schema, a: Msg, b: Msg)
    requires Modelled(s) && MsgOk(s, a) && MsgOk(s, b) && Equals(s, a, b)
    requires s == DNS_POLICY ==> h.scalar(Bool, N(0)) == {}
    ensures Hash(h, s, a) == Hash(h, s, b)
  {
    ModelledZeroHashes(h, s);
    hide Modelled, ZeroHashes, MsgOk, Equals, Hash;
    EqualHashes(h, s, a, b);
  }

  lemma ModelledZeroHashes(h: Hashers, s: Schema)
    requires Modelled(s) && (s == DNS_POLICY ==> h.scalar(Bool, N(0)) == {})
    ensures ZeroHashes(h, s)
  {
    CapabilityHashes(h);
    ElementHashes(h);
    ErrorHashes(h);
    MetadataHashes(h);
    DeviceHashes(h);
    PolicyZeroHashes(h);
    hide ZeroHashes;
  }

  lemma CapabilityHashes(h: Hashers)
    ensures ZeroHashes(h, STRING_SET) && ZeroHashes(h, CAPABILITY_PARAMETER) && ZeroHashes(h, CAPABILITY)
    ensures ZeroHashes(h, CAPABILITY_SET) && ZeroHashes(h, NEGOTIATION_RESULT)
  {
  }

  lemma ErrorHashes(h: Hashers)
    ensures ZeroHashes(h, IP_ADDRESS) && ZeroHashes(h, IP_PREFIX) && ZeroHashes(h, EVIDENCE)
    ensures ZeroHashes(h, RESOLVED_ATTRIBUTES) && ZeroHashes(h, ERROR_ENVELOPE)
  {
    ElementHashes(h);
    hide Nine, Ten;
    assert ZeroHashes(h, IP_ADDRESS);
    assert ZeroHashes(h, IP_PREFIX);
  }

  lemma MetadataHashes(h: Hashers)
    ensures ZeroHashes(h, AUTH) && ZeroHashes(h, MESSAGE_METADATA) && ZeroHashes(h, VERSION_PRECONDITION)
    ensures ZeroHashes(h, CANDIDATE_PAIR) && ZeroHashes(h, PUNCH_SYNC)
  {
    hide Eleven;
  }

  lemma DeviceHashes(h: Hashers)
    ensures ZeroHashes(h, DEVICE)
  {
    CapabilityHashes(h);
    ElementHashes(h);
    hide Eleven, Fourteen;
    assert ZeroHashes(h, SIGNED_STATEMENT) && ZeroHashes(h, DEVICE_PLATFORM_INFO) && ZeroHashes(h, PROTOCOL_VERSION);
    assert ZeroHashes(h, DEVICE_IDENTITY);
  }

  // --------------------------------------------------------- what Equals compares

  lemma CapabilityOptFree()
    ensures OptFree(STRING_SET) && OptFree(CAPABILITY_PARAMETER) && OptFree(CAPABILITY)
    ensures OptFree(CAPABILITY_SET) && OptFree(NEGOTIATION_RESULT)
  {
  }

  lemma ElementOptFree()
    ensures OptFree(IPV4_ADDRESS) && OptFree(IPV6_ADDRESS) && OptFree(SPLIT_DOMAIN_RULE)
  {
  }

  lemma ErrorOptFree()
    ensures OptFree(IP_ADDRESS) && OptFree(IP_PREFIX) && OptFree(EVIDENCE)
    ensures OptFree(RESOLVED_ATTRIBUTES) && OptFree(ERROR_ENVELOPE)
  {
    ElementOptFree();
    hide Nine, Ten;
    assert OptFree(IP_ADDRESS);
    assert OptFree(IP_PREFIX);
  }

  lemma MetadataOptFree()
    ensures OptFree(AUTH) && OptFree(MESSAGE_METADATA) && OptFree(VERSION_PRECONDITION)
    ensures OptFree(CANDIDATE_PAIR) && OptFree(PUNCH_SYNC)
  {
    hide Eleven;
  }

  lemma DeviceOptFree()
    ensures OptFree(DEVICE)
  {
    CapabilityOptFree();
    ElementOptFree();
    hide Eleven, Fourteen;
    assert OptFree(SIGNED_STATEMENT) && OptFree(DEVICE_PLATFORM_INFO) && OptFree(PROTOCOL_VERSION);
    assert OptFree(DEVICE_IDENTITY);
  }

  /** Of every modelled message but DNSPolicy, Equals compares everything. */
  lemma EqualsExactly(s: Schema, a: Msg, b: Msg)
    requires Modelled(s) && s != DNS_POLICY && MsgOk(s, a) && MsgOk(s, b)
    ensures Equals(s, a, b) <==> a == b
  {
    CapabilityOptFree();
    ElementOptFree();
    ErrorOptFree();
    MetadataOptFree();
    DeviceOptFree();
    hide OptFree, MsgOk, Equals;
    EqualsIsEquality(s, a, b);
  }

  /** Of DNSPolicy it compares everything but the presence of the four flags: absent is false. */
  lemma PolicyEquals(a: Msg, b: Msg)
    requires MsgOk(DNS_POLICY, a) && MsgOk(DNS_POLICY, b)
    ensures |a.cells| == 14 && |b.cells| == 14
    ensures Equals(DNS_POLICY, a, b) <==>
            && a.unknown == b.unknown
            && (forall k :: 0 <= k < 14 && k !in {5, 6, 9, 10} ==> a.cells[k] == b.cells[k])
            && forall k :: k in {5, 6, 9, 10} ==>
                 (a.cells[k] == O(Some(N(1))) <==> b.cells[k] == O(Some(N(1))))
  {
    var s := DNS_POLICY;
    assert |s.cells| == 14;
    forall k | 0 <= k < 14
      ensures k !in {5, 6, 9, 10} ==> (CellEquals(s.cells[k], a.cells[k], b.cells[k]) <==> a.cells[k] == b.cells[k])
      ensures k in {5, 6, 9, 10} ==>
                (CellEquals(s.cells[k], a.cells[k], b.cells[k]) <==>
                 (a.cells[k] == O(Some(N(1))) <==> b.cells[k] == O(Some(N(1)))))
    {
      PolicyCellEquals(k, a.cells[k], b.cells[k]);
    }
    hide CellEquals, CellOk, UnknownOk, Fourteen;
  }

  lemma PolicyCellEquals(k: nat, x: Cont, y: Cont)
    requires k < |DNS_POLICY.cells| && CellOk(DNS_POLICY.cells[k], x) && CellOk(DNS_POLICY.cells[k], y)
    ensures k !in {5, 6, 9, 10} ==> (CellEquals(DNS_POLICY.cells[k], x, y) <==> x == y)
    ensures k in {5, 6, 9, 10} ==>
              (CellEquals(DNS_POLICY.cells[k], x, y) <==> (x == O(Some(N(1))) <==> y == O(Some(N(1)))))
  {
    var c := DNS_POLICY.cells[k];
    if k in {5, 6, 9, 10} {
      assert c.Opt? && c.kind == Bool;
    } else {
      ElementOptFree();
      assert CellOptFree(c);
      CellEqualsIsEquality(c, x, y);
    }
  }

  // ------------------------------------------------------ the order on the wire

  /** Cell `i` ends below the next one. */
  predicate RisesAt(cells: seq<Cell>, i: nat) {
    i < |cells| ==>
      && (cells[i].Alt? ==> cells[i].arms != [] && ArmsAscend(cells[i].arms))
      && (i + 1 < |cells| ==> Top(cells[i]) < Low(cells[i + 1]))
  }

  lemma RisesEverywhere(cells: seq<Cell>)
    requires |cells| <= 14
    requires RisesAt(cells, 0) && RisesAt(cells, 1) && RisesAt(cells, 2) && RisesAt(cells, 3)
    requires RisesAt(cells, 4) && RisesAt(cells, 5) && RisesAt(cells, 6) && RisesAt(cells, 7)
    requires RisesAt(cells, 8) && RisesAt(cells, 9) && RisesAt(cells, 10) && RisesAt(cells, 11)
    requires RisesAt(cells, 12) && RisesAt(cells, 13)
    ensures Ascending(cells)
  {
    forall i | 0 <= i < |cells| ensures RisesAt(cells, i) { assert i < 7 || i >= 7; }
    forall k | 0 <= k < |cells| - 1 ensures Top(cells[k]) < Low(cells[k + 1]) { assert RisesAt(cells, k); }
    forall k | 0 <= k < |cells| && cells[k].Alt? ensures cells[k].arms != [] && ArmsAscend(cells[k].arms) {
      assert RisesAt(cells, k);
    }
  }

  lemma CapabilityAscending()
    ensures Ascending(STRING_SET.cells) && Ascending(CAPABILITY_PARAMETER.cells) && Ascending(CAPABILITY.cells)
    ensures Ascending(CAPABILITY_SET.cells) && Ascending(NEGOTIATION_RESULT.cells)
  {
  }

  lemma AddressAscending()
    ensures Ascending(IPV4_ADDRESS.cells) && Ascending(IPV6_ADDRESS.cells) && Ascending(IP_ADDRESS.cells)
    ensures Ascending(IP_PREFIX.cells) && Ascending(VERSION_PRECONDITION.cells)
  {
  }

  lemma ShortAscending()
    ensures Ascending(EVIDENCE.cells) && Ascending(SPLIT_DOMAIN_RULE.cells)
    ensures Ascending(CANDIDATE_PAIR.cells) && Ascending(PUNCH_SYNC.cells)
  {
  }

  lemma LongAscending()
    ensures Ascending(RESOLVED_ATTRIBUTES.cells) && Ascending(ERROR_ENVELOPE.cells)
    ensures Ascending(AUTH.cells) && Ascending(MESSAGE_METADATA.cells)
    ensures Ascending(DNS_POLICY.cells) && Ascending(DEVICE.cells)
  {
    hide Six, Nine, Ten, Eleven, Fourteen, Ascending;
    RisesEverywhere(RESOLVED_ATTRIBUTES.cells);
    RisesEverywhere(ERROR_ENVELOPE.cells);
    RisesEverywhere(AUTH.cells);
    RisesEverywhere(MESSAGE_METADATA.cells);
    RisesEverywhere(DNS_POLICY.cells);
    RisesEverywhere(DEVICE.cells);
  }

  lemma ModelledAscending(s: Schema)
    requires Modelled(s)
    ensures Ascending(s.cells)
  {
    CapabilityAscending();
    AddressAscending();
    ShortAscending();
    LongAscending();
    hide Ascending;
  }

  lemma CellRises(c: Cell, x: Cont)
    requires CellWellFormed(c) && CellOk(c, x) && (c.Alt? ==> c.arms != [] && ArmsAscend(c.arms))
    ensures forall i :: 0 <= i < |CellRecs(c, x)| ==> Low(c) <= CellRecs(c, x)[i].num <= Top(c)
    ensures forall i, j :: 0 <= i < j < |CellRecs(c, x)| ==> CellRecs(c, x)[i].num <= CellRecs(c, x)[j].num
  {
    CellRecsOwned(c, x);
    if c.Alt? {
      if x.PickV? || x.PickM? { NumsBetween(c, c.arms[x.arm].num); }
    }
  }

  lemma {:induction false} PrefixRises(s: Schema, m: Msg, n: nat)
    requires WellFormed(s) && MsgOk(s, m) && Ascending(s.cells) && n <= |s.cells|
    ensures forall i, j :: 0 <= i < j < |Prefix(s, m, n)| ==> Prefix(s, m, n)[i].num <= Prefix(s, m, n)[j].num
    ensures n > 0 ==> forall i :: 0 <= i < |Prefix(s, m, n)| ==> Prefix(s, m, n)[i].num <= Top(s.cells[n - 1])
    decreases n
  {
    if n > 0 {
      PrefixRises(s, m, n - 1);
      OnePrefix(s, m, n);
      assert s.cells[n - 1].Alt? ==> s.cells[n - 1].arms != [] && ArmsAscend(s.cells[n - 1].arms);
      assert n > 1 ==> Top(s.cells[n - 2]) < Low(s.cells[n - 2 + 1]);
      assert Low(s.cells[n - 1]) <= Top(s.cells[n - 1]) by { CellSpan(s.cells[n - 1]); }
      hide Prefix, CellRecs, CellOk, Low, Top;
      CellRises(s.cells[n - 1], m.cells[n - 1]);
    }
  }

  lemma CellSpan(c: Cell)
    requires c.Alt? ==> c.arms != [] && ArmsAscend(c.arms)
    ensures Low(c) <= Top(c)
  {
    if c.Alt? { ArmsRise(c.arms, 0, |c.arms| - 1); }
  }

  /** Known fields are written by rising number, then the unknown records by rising number. */
  lemma WrittenByNumber(s: Schema, m: Msg) returns (known: seq<Rec>)
    requires Modelled(s) && MsgOk(s, m)
    ensures WellFormed(s) && Wrote(s, m) == known + m.unknown
    ensures forall i :: 0 <= i < |known| ==> Owner(s, known[i]).Some?
    ensures forall i :: 0 <= i < |m.unknown| ==> Owner(s, m.unknown[i]).None?
    ensures forall i, j :: 0 <= i < j < |known| ==> known[i].num <= known[j].num
    ensures forall i, j :: 0 <= i < j < |m.unknown| ==> m.unknown[i].num <= m.unknown[j].num
  {
    ModelledWellFormed(s);
    ModelledAscending(s);
    hide Modelled, WellFormed, Wrote, Ascending, Owner, CellOk, Prefix, Bytes, Records;
    BytesRead(s, m);
    known := Prefix(s, m, |s.cells|);
    PrefixRises(s, m, |s.cells|);
    PrefixRanks(s, m, |s.cells|);
  }
}
