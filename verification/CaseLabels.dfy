/** What each case label of the parse loop does to a message, for the message kinds that have no
    class here: device.proto with the messages it holds, and the version precondition. Labels are
    tags: eight times the field number plus the wire type. */
module CaseLabels {
  import opened Seqs
  import opened Wire
  import opened Unknown
  import opened Codec
  import opened Refinement
  import opened Format
  import opened Fields
  import opened Schemas

  // ------------------------------------------------------- one case label

  /** The label stores the bytes of its record in cell `k`. */
  ghost predicate TakesBlob(s: Schema, m: Msg, tag: nat, k: nat)
    requires MsgOk(s, m) && 8 <= tag < 128
  {
    && tag % 8 == 2 && k < |m.cells|
    && forall bs :: Run(s, m, [Rec(tag / 8, Len(bs))]) == Some(m.(cells := m.cells[k := V(B(bs))]))
  }

  /** The label stores the number its varint stands for in cell `k`. */
  ghost predicate TakesNumber(s: Schema, m: Msg, tag: nat, kind: NumKind, k: nat)
    requires MsgOk(s, m) && 8 <= tag < 128
  {
    && tag % 8 == 0 && k < |m.cells|
    && forall w: nat, v: int :: w < 0x1_0000_0000_0000_0000 && Reads(kind, w, v) ==>
         Run(s, m, [Rec(tag / 8, Varint(w))]) == Some(m.(cells := m.cells[k := V(N(v))]))
  }

  /** The label parses its record into the message of cell `k`, or into a new one. */
  ghost predicate TakesMessage(s: Schema, m: Msg, tag: nat, t: Schema, k: nat)
    requires MsgOk(s, m) && 8 <= tag < 128
  {
    && tag % 8 == 2 && k < |m.cells| && m.cells[k].S?
    && MsgOk(t, Empty(t)) && (m.cells[k].s.Some? ==> MsgOk(t, m.cells[k].s.value))
    && forall bs ::
         var p := RunBytes(t, if m.cells[k].s.None? then Empty(t) else m.cells[k].s.value, bs);
         Run(s, m, [Rec(tag / 8, Len(bs))]) == if p.None? then None else Some(m.(cells := m.cells[k := S(p)]))
  }

  /** The label appends the number its varint stands for to cell `k`. */
  ghost predicate TakesElement(s: Schema, m: Msg, tag: nat, kind: NumKind, k: nat)
    requires MsgOk(s, m) && 8 <= tag < 128
  {
    && tag % 8 == 0 && k < |m.cells| && m.cells[k].Vs?
    && forall w: nat, v: int :: w < 0x1_0000_0000_0000_0000 && Reads(kind, w, v) ==>
         Run(s, m, [Rec(tag / 8, Varint(w))]) == Some(m.(cells := m.cells[k := Vs(m.cells[k].vs + [N(v)])]))
  }

  /** The label appends the numbers of its varints to cell `k`; a record that is not a sequence of
      varints is refused. */
  ghost predicate TakesPacked(s: Schema, m: Msg, tag: nat, kind: NumKind, k: nat)
    requires MsgOk(s, m) && 8 <= tag < 128
  {
    tag % 8 == 2 && k < |m.cells| && m.cells[k].Vs? && forall bs :: Appends(s, m, tag / 8, kind, k, bs)
  }

  ghost predicate Appends(s: Schema, m: Msg, num: nat, kind: NumKind, k: nat, bs: seq<byte>)
    requires MsgOk(s, m) && 1 <= num < 16 && k < |m.cells| && m.cells[k].Vs?
  {
    var z := Run(s, m, [Rec(num, Len(bs))]);
    if exists gs :: Cut(bs, gs)
    then exists gs, xs ::
           Cut(bs, gs) && Holds(kind, gs, xs) && z == Some(m.(cells := m.cells[k := Vs(m.cells[k].vs + xs)]))
    else z == None
  }

  /** The record goes to the unknown set, after those of its number, and no field changes. */
  ghost predicate Keeps(s: Schema, m: Msg, r: Rec)
    requires MsgOk(s, m) && RecOk(r)
  {
    var z := Run(s, m, [r]);
    && z.Some? && z.value.cells == m.cells
    && forall n :: Only(z.value.unknown, n) == Only(m.unknown, n) + if r.num == n then [r] else []
  }

  lemma BlobLabel(s: Schema, m: Msg, tag: nat, k: nat)
    requires WellFormed(s) && MsgOk(s, m) && k < |s.cells| && 8 <= tag < 128
    requires tag % 8 == 2 && s.cells[k] == One(tag / 8, Blob)
    ensures TakesBlob(s, m, tag, k)
  {
    assert |m.cells| == |s.cells|;
    forall bs ensures Run(s, m, [Rec(tag / 8, Len(bs))]) == Some(m.(cells := m.cells[k := V(B(bs))])) {
      ParsedBlob(s, m, k, tag / 8, bs);
    }
  }

  lemma NumberLabel(s: Schema, m: Msg, tag: nat, kind: NumKind, k: nat)
    requires WellFormed(s) && MsgOk(s, m) && k < |s.cells| && 8 <= tag < 128
    requires tag % 8 == 0 && s.cells[k] == One(tag / 8, kind)
    ensures TakesNumber(s, m, tag, kind, k)
  {
    assert |m.cells| == |s.cells|;
    hide WellFormed, MsgOk, Run, Reads;
    forall w: nat, v: int | w < 0x1_0000_0000_0000_0000 && Reads(kind, w, v)
      ensures Run(s, m, [Rec(tag / 8, Varint(w))]) == Some(m.(cells := m.cells[k := V(N(v))]))
    {
      ParsedNumber(s, m, k, tag / 8, kind, w, v);
    }
  }

  lemma MessageLabel(s: Schema, m: Msg, tag: nat, t: Schema, k: nat)
    requires WellFormed(s) && MsgOk(s, m) && k < |s.cells| && 8 <= tag < 128
    requires tag % 8 == 2 && s.cells[k] == Sub(tag / 8, t)
    ensures TakesMessage(s, m, tag, t, k)
  {
    assert |m.cells| == |s.cells| && CellOk(s.cells[k], m.cells[k]);
    EmptyOk(t);
    hide WellFormed, Run, RunBytes;
    forall bs
      ensures var p := RunBytes(t, if m.cells[k].s.None? then Empty(t) else m.cells[k].s.value, bs);
              Run(s, m, [Rec(tag / 8, Len(bs))]) == if p.None? then None else Some(m.(cells := m.cells[k := S(p)]))
    {
      ParsedSub(s, m, k, tag / 8, t, m.cells[k].s, bs);
    }
  }

  lemma ElementLabel(s: Schema, m: Msg, tag: nat, kind: NumKind, k: nat)
    requires WellFormed(s) && MsgOk(s, m) && k < |s.cells| && 8 <= tag < 128
    requires tag % 8 == 0 && s.cells[k] == Pack(tag / 8, kind)
    ensures TakesElement(s, m, tag, kind, k)
  {
    assert |m.cells| == |s.cells| && CellOk(s.cells[k], m.cells[k]);
    hide WellFormed, MsgOk, Run, Reads;
    forall w: nat, v: int | w < 0x1_0000_0000_0000_0000 && Reads(kind, w, v)
      ensures Run(s, m, [Rec(tag / 8, Varint(w))]) == Some(m.(cells := m.cells[k := Vs(m.cells[k].vs + [N(v)])]))
    {
      ParsedElement(s, m, k, tag / 8, kind, m.cells[k].vs, w, v);
    }
  }

  lemma PackedLabel(s: Schema, m: Msg, tag: nat, kind: NumKind, k: nat)
    requires WellFormed(s) && MsgOk(s, m) && k < |s.cells| && 8 <= tag < 128
    requires tag % 8 == 2 && s.cells[k] == Pack(tag / 8, kind)
    ensures TakesPacked(s, m, tag, kind, k)
  {
    assert |m.cells| == |s.cells| && CellOk(s.cells[k], m.cells[k]);
    hide WellFormed, MsgOk, Run, Cut, Holds;
    forall bs ensures Appends(s, m, tag / 8, kind, k, bs) {
      var xs := ParsedPacked(s, m, k, tag / 8, kind, m.cells[k].vs, bs);
    }
  }

  lemma OtherLabel(s: Schema, m: Msg, r: Rec)
    requires WellFormed(s) && MsgOk(s, m) && RecOk(r)
    requires forall k :: 0 <= k < |s.cells| ==> !HasLabel(s.cells[k], r.num, TypeNumber(r.payload))
    ensures Keeps(s, m, r)
  {
    ParsedUnknown(s, m, r, 0);
    forall n
      ensures Only(Run(s, m, [r]).value.unknown, n) == Only(m.unknown, n) + if r.num == n then [r] else []
    {
      ParsedUnknown(s, m, r, n);
    }
  }

  // ---------------------------------------------------------------- the tables

  function TagOf(r: Rec): nat { 8 * r.num + TypeNumber(r.payload) }

  lemma ProtocolVersionLabels(m: Msg)
    requires MsgOk(PROTOCOL_VERSION, m)
    ensures TakesNumber(PROTOCOL_VERSION, m, 8, U32, 0)
    ensures TakesNumber(PROTOCOL_VERSION, m, 16, U32, 1)
    ensures forall r :: RecOk(r) && TagOf(r) !in {8, 16} ==> Keeps(PROTOCOL_VERSION, m, r)
  {
    DeviceInfoWellFormed();
    hide WellFormed, MsgOk, TakesNumber, Keeps;
    var s := PROTOCOL_VERSION;
    NumberLabel(s, m, 8, U32, 0);
    NumberLabel(s, m, 16, U32, 1);
    forall r | RecOk(r) && TagOf(r) !in {8, 16} ensures Keeps(s, m, r) { OtherLabel(s, m, r); }
  }

  lemma SignedStatementLabels(m: Msg)
    requires MsgOk(SIGNED_STATEMENT, m)
    ensures TakesBlob(SIGNED_STATEMENT, m, 10, 0)
    ensures TakesNumber(SIGNED_STATEMENT, m, 16, Enum, 1)
    ensures forall r :: RecOk(r) && TagOf(r) !in {10, 16} ==> Keeps(SIGNED_STATEMENT, m, r)
  {
    DeviceInfoWellFormed();
    hide WellFormed, MsgOk, TakesNumber, TakesBlob, Keeps;
    var s := SIGNED_STATEMENT;
    BlobLabel(s, m, 10, 0);
    NumberLabel(s, m, 16, Enum, 1);
    forall r | RecOk(r) && TagOf(r) !in {10, 16} ensures Keeps(s, m, r) { OtherLabel(s, m, r); }
  }

  lemma PlatformInfoLabels(m: Msg)
    requires MsgOk(DEVICE_PLATFORM_INFO, m)
    ensures TakesNumber(DEVICE_PLATFORM_INFO, m, 8, Enum, 0)
    ensures TakesBlob(DEVICE_PLATFORM_INFO, m, 18, 1)
    ensures TakesBlob(DEVICE_PLATFORM_INFO, m, 26, 2)
    ensures TakesBlob(DEVICE_PLATFORM_INFO, m, 34, 3)
    ensures forall r :: RecOk(r) && TagOf(r) !in {8, 18, 26, 34} ==> Keeps(DEVICE_PLATFORM_INFO, m, r)
  {
    DeviceInfoWellFormed();
    hide WellFormed, MsgOk, TakesNumber, TakesBlob, Keeps;
    var s := DEVICE_PLATFORM_INFO;
    NumberLabel(s, m, 8, Enum, 0);
    BlobLabel(s, m, 18, 1);
    BlobLabel(s, m, 26, 2);
    BlobLabel(s, m, 34, 3);
    forall r | RecOk(r) && TagOf(r) !in {8, 18, 26, 34} ensures Keeps(s, m, r) { OtherLabel(s, m, r); }
  }

  lemma DeviceIdentityLabels(m: Msg)
    requires MsgOk(DEVICE_IDENTITY, m)
    ensures TakesBlob(DEVICE_IDENTITY, m, 10, 0)
    ensures TakesBlob(DEVICE_IDENTITY, m, 18, 1)
    ensures TakesNumber(DEVICE_IDENTITY, m, 24, U32, 2)
    ensures TakesBlob(DEVICE_IDENTITY, m, 34, 3)
    ensures TakesNumber(DEVICE_IDENTITY, m, 40, Enum, 4)
    ensures TakesBlob(DEVICE_IDENTITY, m, 50, 5)
    ensures TakesNumber(DEVICE_IDENTITY, m, 56, Enum, 6)
    ensures TakesNumber(DEVICE_IDENTITY, m, 64, U32, 7)
    ensures TakesMessage(DEVICE_IDENTITY, m, 74, SIGNED_STATEMENT, 8)
    ensures TakesNumber(DEVICE_IDENTITY, m, 80, Bool, 9)
    ensures TakesNumber(DEVICE_IDENTITY, m, 88, U64, 10)
    ensures forall r :: RecOk(r) && TagOf(r) !in {10, 18, 24, 34, 40, 50, 56, 64, 74, 80, 88} ==>
              Keeps(DEVICE_IDENTITY, m, r)
  {
    DeviceIdentityWellFormed();
    hide WellFormed, MsgOk, Eleven, TakesNumber, TakesBlob, TakesMessage, Keeps, HasLabel, TagOf;
    var s := DEVICE_IDENTITY;
    BlobLabel(s, m, 10, 0);
    BlobLabel(s, m, 18, 1);
    NumberLabel(s, m, 24, U32, 2);
    BlobLabel(s, m, 34, 3);
    NumberLabel(s, m, 40, Enum, 4);
    BlobLabel(s, m, 50, 5);
    NumberLabel(s, m, 56, Enum, 6);
    NumberLabel(s, m, 64, U32, 7);
    MessageLabel(s, m, 74, SIGNED_STATEMENT, 8);
    NumberLabel(s, m, 80, Bool, 9);
    NumberLabel(s, m, 88, U64, 10);
    forall r | RecOk(r) && TagOf(r) !in {10, 18, 24, 34, 40, 50, 56, 64, 74, 80, 88} ensures Keeps(s, m, r) {
      IdentityRest(r);
      OtherLabel(s, m, r);
    }
  }

  lemma IdentityRest(r: Rec)
    requires TagOf(r) !in {10, 18, 24, 34, 40, 50, 56, 64, 74, 80, 88}
    ensures forall k :: 0 <= k < |DEVICE_IDENTITY.cells| ==>
              !HasLabel(DEVICE_IDENTITY.cells[k], r.num, TypeNumber(r.payload))
  {
    hide Eleven;
  }

  /** device.proto: roles may come one by one or packed. */
  lemma DeviceLabels(m: Msg)
    requires MsgOk(DEVICE, m)
    ensures TakesBlob(DEVICE, m, 10, 0)
    ensures TakesBlob(DEVICE, m, 18, 1)
    ensures TakesMessage(DEVICE, m, 26, DEVICE_IDENTITY, 2)
    ensures TakesBlob(DEVICE, m, 34, 3)
    ensures TakesMessage(DEVICE, m, 42, DEVICE_PLATFORM_INFO, 4)
    ensures TakesElement(DEVICE, m, 48, Enum, 5)
    ensures TakesPacked(DEVICE, m, 50, Enum, 5)
    ensures TakesMessage(DEVICE, m, 58, CAPABILITY_SET, 6)
    ensures TakesMessage(DEVICE, m, 66, PROTOCOL_VERSION, 7)
    ensures TakesMessage(DEVICE, m, 74, IPV4_ADDRESS, 8)
    ensures TakesMessage(DEVICE, m, 82, IPV6_ADDRESS, 9)
    ensures TakesNumber(DEVICE, m, 88, U64, 10)
    ensures TakesNumber(DEVICE, m, 96, U64, 11)
    ensures TakesNumber(DEVICE, m, 104, U64, 12)
    ensures TakesNumber(DEVICE, m, 112, Bool, 13)
    ensures forall r :: RecOk(r) && TagOf(r) !in {10, 18, 26, 34, 42, 48, 50, 58, 66, 74, 82, 88, 96, 104, 112} ==>
              Keeps(DEVICE, m, r)
  {
    DeviceWellFormed();
    hide WellFormed, MsgOk, Fourteen, TakesNumber, TakesBlob, TakesMessage, TakesElement, TakesPacked, Keeps, HasLabel,
      TagOf;
    var s := DEVICE;
    BlobLabel(s, m, 10, 0);
    BlobLabel(s, m, 18, 1);
    MessageLabel(s, m, 26, DEVICE_IDENTITY, 2);
    BlobLabel(s, m, 34, 3);
    MessageLabel(s, m, 42, DEVICE_PLATFORM_INFO, 4);
    ElementLabel(s, m, 48, Enum, 5);
    PackedLabel(s, m, 50, Enum, 5);
    MessageLabel(s, m, 58, CAPABILITY_SET, 6);
    MessageLabel(s, m, 66, PROTOCOL_VERSION, 7);
    MessageLabel(s, m, 74, IPV4_ADDRESS, 8);
    MessageLabel(s, m, 82, IPV6_ADDRESS, 9);
    NumberLabel(s, m, 88, U64, 10);
    NumberLabel(s, m, 96, U64, 11);
    NumberLabel(s, m, 104, U64, 12);
    NumberLabel(s, m, 112, Bool, 13);
    forall r | RecOk(r) && TagOf(r) !in {10, 18, 26, 34, 42, 48, 50, 58, 66, 74, 82, 88, 96, 104, 112}
      ensures Keeps(s, m, r)
    {
      DeviceRest(r);
      OtherLabel(s, m, r);
    }
  }

  lemma DeviceRest(r: Rec)
    requires TagOf(r) !in {10, 18, 26, 34, 42, 48, 50, 58, 66, 74, 82, 88, 96, 104, 112}
    ensures forall k :: 0 <= k < |DEVICE.cells| ==> !HasLabel(DEVICE.cells[k], r.num, TypeNumber(r.payload))
  {
    hide Fourteen;
  }

  /** common.proto: each member of the precondition replaces the one held. */
  lemma PreconditionLabels(m: Msg, w: nat, v: int)
    requires MsgOk(VERSION_PRECONDITION, m) && w < 0x1_0000_0000_0000_0000
    ensures Reads(U64, w, v) ==>
              Run(VERSION_PRECONDITION, m, [Rec(1, Varint(w))]) == Some(m.(cells := [PickV(0, N(v))]))
    ensures Reads(Bool, w, v) ==>
              Run(VERSION_PRECONDITION, m, [Rec(2, Varint(w))]) == Some(m.(cells := [PickV(1, N(v))]))
    ensures forall r :: RecOk(r) && TagOf(r) !in {8, 16} ==> Keeps(VERSION_PRECONDITION, m, r)
  {
    AuthWellFormed();
    hide WellFormed, Keeps, Run, Reads;
    var s := VERSION_PRECONDITION;
    assert |m.cells| == 1 && s.cells[0] == Alt(PRECONDITION_ARMS);
    if Reads(U64, w, v) {
      ParsedMemberNumber(s, m, 0, PRECONDITION_ARMS, 0, 1, U64, w, v);
      assert m.cells[0 := PickV(0, N(v))] == [PickV(0, N(v))];
    }
    if Reads(Bool, w, v) {
      ParsedMemberNumber(s, m, 0, PRECONDITION_ARMS, 1, 2, Bool, w, v);
      assert m.cells[0 := PickV(1, N(v))] == [PickV(1, N(v))];
    }
    forall r | RecOk(r) && TagOf(r) !in {8, 16} ensures Keeps(s, m, r) { OtherLabel(s, m, r); }
  }
}
