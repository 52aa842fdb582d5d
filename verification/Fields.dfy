/** What WriteTo puts on the wire and what one record does to a message, field kind by field kind,
    stated on the records themselves. */
module Fields {
  import opened Seqs
  import opened Wire
  import opened Unknown
  import opened Codec
  import opened Merging
  import opened Refinement
  import opened Ordering
  import opened Format

  // ------------------------------------------------------------------ labels

  function KindType(k: Kind): nat { if k.Blob? then 2 else 0 }

  /** The tag with this number and wire type is a case label of the field. */
  predicate HasLabel(c: Cell, num: nat, wt: nat) {
    match c
    case One(n, k) => num == n && wt == KindType(k)
    case Opt(n, k) => num == n && wt == KindType(k)
    case Pack(n, _) => num == n && (wt == 0 || wt == 2)
    case Alt(arms) => exists i :: 0 <= i < |arms| && ArmHasLabel(arms[i], num, wt)
    case _ => num == c.num && wt == 2
  }

  predicate ArmHasLabel(a: Arm, num: nat, wt: nat) {
    num == a.num && wt == if a.ScalarArm? then KindType(a.kind) else 2
  }

  /** A field handles exactly the records whose tag is one of its case labels. */
  lemma OwnsExactly(c: Cell, r: Rec)
    ensures Owns(c, r) <==> HasLabel(c, r.num, TypeNumber(r.payload))
  {
    if c.Alt? {
      var k := FindArm(c.arms, r, 0);
      if k.Some? { assert ArmHasLabel(c.arms[k.value], r.num, TypeNumber(r.payload)); }
    }
  }

  // --------------------------------------------------------- records by label

  /** The records with the number and wire type, in order. */
  function Tagged(rs: seq<Rec>, num: nat, wt: nat): seq<Rec> {
    if rs == [] then []
    else
      var r := rs[|rs| - 1];
      Tagged(rs[..|rs| - 1], num, wt) + if r.num == num && TypeNumber(r.payload) == wt then [r] else []
  }

  /** The records of the bytes WriteTo writes. */
  ghost function Wrote(s: Schema, m: Msg): (rs: seq<Rec>)
    requires WellFormed(s) && MsgOk(s, m)
    ensures Records(Bytes(s, m)) == Some(rs)
  {
    BytesRead(s, m);
    Records(Bytes(s, m)).value
  }

  lemma {:induction false} SentConcat(s: Schema, a: seq<Rec>, b: seq<Rec>, o: Option<nat>)
    ensures Sent(s, a + b, o) == Sent(s, a, o) + Sent(s, b, o)
  {
    hide Owner;
    if b == [] {
      Unit(a);
      Unit(Sent(s, a, o));
    } else {
      var head, last := b[..|b| - 1], b[|b| - 1];
      Last(b);
      Assoc(a, head, [last]);
      SentConcat(s, a, head, o);
      SentSnoc(s, a + head, last, o);
      SentSnoc(s, head, last, o);
      Assoc(Sent(s, a, o), Sent(s, head, o), [last]);
    }
  }

  lemma {:induction false} SentAll(s: Schema, rs: seq<Rec>, p: Option<nat>, o: Option<nat>)
    requires forall i :: 0 <= i < |rs| ==> Owner(s, rs[i]) == p
    ensures Sent(s, rs, o) == if o == p then rs else []
  {
    hide Owner;
    if rs != [] {
      SentAll(s, rs[..|rs| - 1], p, o);
      Last(rs);
    }
  }

  lemma CellOwners(s: Schema, m: Msg, k: nat)
    requires WellFormed(s) && MsgOk(s, m) && k < |s.cells|
    ensures CellOk(s.cells[k], m.cells[k])
    ensures forall i :: 0 <= i < |CellRecs(s.cells[k], m.cells[k])| ==>
              Owner(s, CellRecs(s.cells[k], m.cells[k])[i]) == Some(k)
  {
    CellRecsOwned(s.cells[k], m.cells[k]);
    var rs := CellRecs(s.cells[k], m.cells[k]);
    forall i | 0 <= i < |rs| ensures Owner(s, rs[i]) == Some(k) { OwnerUnique(s, rs[i], k); }
  }

  lemma {:induction false} PrefixSent(s: Schema, m: Msg, n: nat, o: Option<nat>)
    requires WellFormed(s) && MsgOk(s, m) && n <= |s.cells|
    ensures o.Some? && o.value < n ==> CellOk(s.cells[o.value], m.cells[o.value])
    ensures Sent(s, Prefix(s, m, n), o) ==
            if o.Some? && o.value < n then CellRecs(s.cells[o.value], m.cells[o.value]) else []
    decreases n
  {
    hide *;
    if n == 0 {
      EmptySent(s, m, o);
      return;
    }
    PrefixSent(s, m, n - 1, o);
    CellOwners(s, m, n - 1);
    OnePrefix(s, m, n);
    var rs := CellRecs(s.cells[n - 1], m.cells[n - 1]);
    SentConcat(s, Prefix(s, m, n - 1), rs, o);
    SentAll(s, rs, Some(n - 1), o);
    Unit(rs);
    Unit(Sent(s, Prefix(s, m, n - 1), o));
  }

  lemma EmptySent(s: Schema, m: Msg, o: Option<nat>)
    requires MsgOk(s, m)
    ensures |m.cells| == |s.cells| && Sent(s, Prefix(s, m, 0), o) == []
  {
  }

  lemma OnePrefix(s: Schema, m: Msg, n: nat)
    requires MsgOk(s, m) && 0 < n <= |s.cells|
    ensures |m.cells| == |s.cells| && CellOk(s.cells[n - 1], m.cells[n - 1])
    ensures Prefix(s, m, n) == Prefix(s, m, n - 1) + CellRecs(s.cells[n - 1], m.cells[n - 1])
  {
    hide CellRecs, CellOk, UnknownOk;
  }

  lemma UnknownOwners(s: Schema, m: Msg, o: Option<nat>)
    requires MsgOk(s, m)
    ensures Sent(s, m.unknown, o) == if o.None? then m.unknown else []
  {
    SentAll(s, m.unknown, None, o);
  }

  /** The records each field wrote, and the unknown ones. */
  lemma WroteSent(s: Schema, m: Msg, o: Option<nat>)
    requires WellFormed(s) && MsgOk(s, m) && (o.Some? ==> o.value < |s.cells|)
    ensures |m.cells| == |s.cells| && AllOk(Wrote(s, m))
    ensures o.Some? ==> CellOk(s.cells[o.value], m.cells[o.value])
    ensures Sent(s, Wrote(s, m), o) ==
            if o.Some? then CellRecs(s.cells[o.value], m.cells[o.value]) else m.unknown
  {
    hide Sent, Prefix, CellRecs, CellOk, WellFormed, Records, Bytes;
    BytesRead(s, m);
    var p := Prefix(s, m, |s.cells|);
    PrefixSent(s, m, |s.cells|, o);
    UnknownOwners(s, m, o);
    SentConcat(s, p, m.unknown, o);
    Unit(Sent(s, p, o));
    Unit(m.unknown);
  }

  lemma {:induction false} TaggedOfSent(s: Schema, rs: seq<Rec>, o: Option<nat>, num: nat, wt: nat)
    requires forall i :: 0 <= i < |rs| && rs[i].num == num && TypeNumber(rs[i].payload) == wt ==> Owner(s, rs[i]) == o
    ensures Tagged(rs, num, wt) == Tagged(Sent(s, rs, o), num, wt)
  {
    hide Owner;
    if rs != [] {
      var head, r := rs[..|rs| - 1], rs[|rs| - 1];
      TaggedOfSent(s, head, o, num, wt);
      Last(rs);
      SentSnoc(s, head, r, o);
      TaggedSnoc(Sent(s, head, o), r, num, wt);
      Unit(Tagged(head, num, wt));
    }
  }

  lemma TaggedSnoc(rs: seq<Rec>, r: Rec, num: nat, wt: nat)
    ensures Tagged(rs + [r], num, wt) ==
            Tagged(rs, num, wt) + if r.num == num && TypeNumber(r.payload) == wt then [r] else []
  {
    Snoc(rs, r);
  }

  lemma {:induction false} TaggedAll(rs: seq<Rec>, num: nat, wt: nat)
    ensures (forall i :: 0 <= i < |rs| ==> rs[i].num == num && TypeNumber(rs[i].payload) == wt) ==>
              Tagged(rs, num, wt) == rs
    ensures (forall i :: 0 <= i < |rs| ==> rs[i].num != num || TypeNumber(rs[i].payload) != wt) ==>
              Tagged(rs, num, wt) == []
  {
    if rs != [] {
      TaggedAll(rs[..|rs| - 1], num, wt);
      Last(rs);
    }
  }

  /** The records under a case label are the ones its field wrote. */
  lemma TaggedField(s: Schema, m: Msg, k: nat, num: nat, wt: nat)
    requires WellFormed(s) && MsgOk(s, m) && k < |s.cells| && HasLabel(s.cells[k], num, wt)
    ensures |m.cells| == |s.cells| && CellOk(s.cells[k], m.cells[k])
    ensures Tagged(Wrote(s, m), num, wt) == Tagged(CellRecs(s.cells[k], m.cells[k]), num, wt)
  {
    hide Wrote, CellRecs, CellOk, MsgOk;
    WroteSent(s, m, Some(k));
    var rs := Wrote(s, m);
    forall i | 0 <= i < |rs| && rs[i].num == num && TypeNumber(rs[i].payload) == wt
      ensures Owner(s, rs[i]) == Some(k)
    {
      OwnsExactly(s.cells[k], rs[i]);
      OwnerUnique(s, rs[i], k);
    }
    TaggedOfSent(s, rs, Some(k), num, wt);
  }

  // -------------------------------------------------------------- what is written

  function BlobRecs(num: nat, bs: seq<byte>): seq<Rec> { if |bs| == 0 then [] else [Rec(num, Len(bs))] }

  /** A number that is not zero, as the 64-bit word congruent to it. */
  function NumberRecs(num: nat, v: int): seq<Rec> {
    if v == 0 then [] else [Rec(num, Varint(v % 0x1_0000_0000_0000_0000))]
  }

  function StringRecs(num: nat, vs: seq<Val>): seq<Rec>
    requires AllIn(Blob, vs)
  {
    seq(|vs|, i requires 0 <= i < |vs| => Rec(num, Len(vs[i].bs)))
  }

  function MessageRecs(num: nat, t: Schema, ms: seq<Msg>): seq<Rec>
    requires forall i :: 0 <= i < |ms| ==> MsgOk(t, ms[i])
  {
    seq(|ms|, i requires 0 <= i < |ms| => Rec(num, Len(Bytes(t, ms[i]))))
  }

  /** Nothing for an empty list, otherwise one record of the shortest varint of each number. */
  ghost predicate PackedRecs(rs: seq<Rec>, num: nat, vs: seq<Val>) {
    if vs == [] then rs == []
    else
      exists gs: seq<seq<byte>> ::
        && rs == [Rec(num, Len(Flat(gs)))] && |gs| == |vs|
        && forall i :: 0 <= i < |vs| ==> vs[i].N? && gs[i] == PutVarint(vs[i].n % 0x1_0000_0000_0000_0000)
  }

  lemma WroteBlob(s: Schema, m: Msg, k: nat, num: nat, bs: seq<byte>)
    requires WellFormed(s) && MsgOk(s, m) && k < |s.cells| == |m.cells|
    requires s.cells[k] == One(num, Blob) && m.cells[k] == V(B(bs))
    ensures Tagged(Wrote(s, m), num, 2) == BlobRecs(num, bs)
  {
    hide Wrote, WellFormed, MsgOk;
    TaggedField(s, m, k, num, 2);
    TaggedAll(BlobRecs(num, bs), num, 2);
  }

  lemma WroteNumber(s: Schema, m: Msg, k: nat, num: nat, kind: NumKind, v: int)
    requires WellFormed(s) && MsgOk(s, m) && k < |s.cells| == |m.cells|
    requires s.cells[k] == One(num, kind) && m.cells[k] == V(N(v)) && InKind(kind, v)
    ensures Tagged(Wrote(s, m), num, 0) == NumberRecs(num, v)
  {
    hide Wrote, WellFormed, MsgOk, ToWire, InKind;
    TaggedField(s, m, k, num, 0);
    NumberWritten(kind, v);
    TaggedAll(NumberRecs(num, v), num, 0);
  }

  /** A present field is written, its default included; an absent one is not. */
  lemma WroteOptional(s: Schema, m: Msg, k: nat, num: nat, kind: NumKind, o: Option<Val>)
    requires WellFormed(s) && MsgOk(s, m) && k < |s.cells| == |m.cells|
    requires s.cells[k] == Opt(num, kind) && m.cells[k] == O(o)
    requires o.Some? ==> o.value.N? && InKind(kind, o.value.n)
    ensures Tagged(Wrote(s, m), num, 0) ==
            if o.None? then [] else [Rec(num, Varint(o.value.n % 0x1_0000_0000_0000_0000))]
  {
    hide Wrote, WellFormed, MsgOk, ToWire, InKind;
    TaggedField(s, m, k, num, 0);
    if o.Some? { NumberWritten(kind, o.value.n); }
    TaggedAll(if o.None? then [] else [Rec(num, Varint(o.value.n % 0x1_0000_0000_0000_0000))], num, 0);
  }

  lemma WroteSub(s: Schema, m: Msg, k: nat, num: nat, t: Schema, o: Option<Msg>)
    requires WellFormed(s) && MsgOk(s, m) && k < |s.cells| == |m.cells|
    requires s.cells[k] == Sub(num, t) && m.cells[k] == S(o) && (o.Some? ==> MsgOk(t, o.value))
    ensures Tagged(Wrote(s, m), num, 2) == if o.None? then [] else [Rec(num, Len(Bytes(t, o.value)))]
  {
    hide Wrote, WellFormed, MsgOk, Bytes;
    TaggedField(s, m, k, num, 2);
    TaggedAll(if o.None? then [] else [Rec(num, Len(Bytes(t, o.value)))], num, 2);
  }

  lemma {:induction false} ScalarsAre(num: nat, vs: seq<Val>)
    requires AllIn(Blob, vs)
    ensures Scalars(num, Blob, vs) == StringRecs(num, vs)
  {
    if vs != [] {
      ScalarsAre(num, vs[1..]);
      Cons(StringRecs(num, vs));
      assert StringRecs(num, vs)[1..] == StringRecs(num, vs[1..]);
    }
  }

  lemma WroteStrings(s: Schema, m: Msg, k: nat, num: nat, vs: seq<Val>)
    requires WellFormed(s) && MsgOk(s, m) && k < |s.cells| == |m.cells|
    requires s.cells[k] == Rep(num) && m.cells[k] == Vs(vs) && AllIn(Blob, vs)
    ensures Tagged(Wrote(s, m), num, 2) == StringRecs(num, vs)
  {
    hide Wrote, WellFormed, MsgOk;
    TaggedField(s, m, k, num, 2);
    ScalarsAre(num, vs);
    TaggedAll(StringRecs(num, vs), num, 2);
  }

  lemma PackRecsAre(num: nat, kind: NumKind, vs: seq<Val>)
    requires AllIn(kind, vs)
    ensures PackedRecs(CellRecs(Pack(num, kind), Vs(vs)), num, vs)
  {
    hide PutVarint, PackBytes, Flat;
    var gs := PackedWritten(kind, vs);
  }

  /** A packed field writes no unpacked element. */
  lemma WrotePacked(s: Schema, m: Msg, k: nat, num: nat, kind: NumKind, vs: seq<Val>)
    requires WellFormed(s) && MsgOk(s, m) && k < |s.cells| == |m.cells|
    requires s.cells[k] == Pack(num, kind) && m.cells[k] == Vs(vs) && AllIn(kind, vs)
    ensures PackedRecs(Tagged(Wrote(s, m), num, 2), num, vs) && Tagged(Wrote(s, m), num, 0) == []
  {
    PackTagged(num, kind, vs);
    hide WellFormed, MsgOk, Wrote, Tagged, PackedRecs, CellRecs, CellOk, AllIn;
    TaggedField(s, m, k, num, 2);
    TaggedField(s, m, k, num, 0);
    PackRecsAre(num, kind, vs);
  }

  lemma PackTagged(num: nat, kind: NumKind, vs: seq<Val>)
    requires AllIn(kind, vs)
    ensures CellOk(Pack(num, kind), Vs(vs))
    ensures Tagged(CellRecs(Pack(num, kind), Vs(vs)), num, 2) == CellRecs(Pack(num, kind), Vs(vs))
    ensures Tagged(CellRecs(Pack(num, kind), Vs(vs)), num, 0) == []
  {
    hide PackBytes, AllIn;
    var rs := CellRecs(Pack(num, kind), Vs(vs));
    TaggedAll(rs, num, 2);
    TaggedAll(rs, num, 0);
  }

  lemma {:induction false} SubRecsAre(num: nat, t: Schema, ms: seq<Msg>)
    requires forall i :: 0 <= i < |ms| ==> MsgOk(t, ms[i])
    ensures SubRecs(num, t, ms) == MessageRecs(num, t, ms)
    decreases |ms|
  {
    hide MsgOk, Bytes;
    if ms != [] {
      SubRecsAre(num, t, ms[1..]);
      Cons(MessageRecs(num, t, ms));
      assert MessageRecs(num, t, ms)[1..] == MessageRecs(num, t, ms[1..]);
    }
  }

  lemma WroteMessages(s: Schema, m: Msg, k: nat, num: nat, t: Schema, ms: seq<Msg>)
    requires WellFormed(s) && MsgOk(s, m) && k < |s.cells| == |m.cells|
    requires s.cells[k] == Msgs(num, t) && m.cells[k] == Ms(ms)
    requires forall i :: 0 <= i < |ms| ==> MsgOk(t, ms[i])
    ensures Tagged(Wrote(s, m), num, 2) == MessageRecs(num, t, ms)
  {
    hide Wrote, WellFormed, MsgOk, Bytes, SubRecs;
    TaggedField(s, m, k, num, 2);
    SubRecsAre(num, t, ms);
    TaggedAll(MessageRecs(num, t, ms), num, 2);
  }

  /** What one member of a oneof writes: nothing unless it is the member held; a scalar is written
      even when it is zero or empty. */
  function MemberRecs(arms: seq<Arm>, x: Cont, i: nat): seq<Rec>
    requires i < |arms| && CellOk(Alt(arms), x)
  {
    match x
    case PickV(j, v) =>
      if i != j then []
      else if v.B? then [Rec(arms[i].num, Len(v.bs))]
      else [Rec(arms[i].num, Varint(v.n % 0x1_0000_0000_0000_0000))]
    case PickM(j, p) => if i != j then [] else [Rec(arms[i].num, Len(Bytes(arms[i].msg, p)))]
    case _ => []
  }

  lemma WroteMember(s: Schema, m: Msg, k: nat, arms: seq<Arm>, i: nat, num: nat, wt: nat)
    requires WellFormed(s) && MsgOk(s, m) && k < |s.cells| == |m.cells|
    requires s.cells[k] == Alt(arms) && CellOk(Alt(arms), m.cells[k]) && i < |arms| && ArmHasLabel(arms[i], num, wt)
    ensures Tagged(Wrote(s, m), num, wt) == MemberRecs(arms, m.cells[k], i)
  {
    assert HasLabel(s.cells[k], num, wt);
    assert ArmsDistinct(arms) by { assert CellWellFormed(s.cells[k]); }
    hide Wrote, WellFormed, MsgOk, CellRecs, CellOk, Tagged, MemberRecs, HasLabel, ArmHasLabel;
    TaggedField(s, m, k, num, wt);
    MemberTagged(arms, m.cells[k], i, num, wt);
  }

  lemma MemberTagged(arms: seq<Arm>, x: Cont, i: nat, num: nat, wt: nat)
    requires ArmsDistinct(arms) && CellOk(Alt(arms), x) && i < |arms| && ArmHasLabel(arms[i], num, wt)
    ensures Tagged(CellRecs(Alt(arms), x), num, wt) == MemberRecs(arms, x, i)
  {
    hide Tagged, MsgOk, Bytes;
    var rs := CellRecs(Alt(arms), x);
    TaggedAll(rs, num, wt);
    if x.PickV? && x.pv.N? {
      RangeMeans(arms[x.arm].kind, x.pv);
      NumberWritten(arms[x.arm].kind, x.pv.n);
      hide InKind, ToWire;
    }
  }

  /** Records under no case label are the unknown ones. */
  lemma WroteUnknown(s: Schema, m: Msg, num: nat, wt: nat)
    requires WellFormed(s) && MsgOk(s, m)
    requires forall k :: 0 <= k < |s.cells| ==> !HasLabel(s.cells[k], num, wt)
    ensures Tagged(Wrote(s, m), num, wt) == Tagged(m.unknown, num, wt)
  {
    hide Wrote, MsgOk, WellFormed;
    WroteSent(s, m, None);
    var rs := Wrote(s, m);
    forall i | 0 <= i < |rs| && rs[i].num == num && TypeNumber(rs[i].payload) == wt ensures Owner(s, rs[i]) == None {
      if Owner(s, rs[i]).Some? { OwnsExactly(s.cells[Owner(s, rs[i]).value], rs[i]); }
    }
    TaggedOfSent(s, rs, None, num, wt);
  }

  /** A new object writes nothing. */
  lemma EmptyWritesNothing(s: Schema)
    ensures MsgOk(s, Empty(s)) && Bytes(s, Empty(s)) == []
  {
    EmptyOk(s);
    EmptyPrefix(s, |s.cells|);
  }

  lemma {:induction false} EmptyPrefix(s: Schema, n: nat)
    requires n <= |s.cells| && MsgOk(s, Empty(s))
    ensures Prefix(s, Empty(s), n) == []
    decreases n
  {
    if n > 0 {
      EmptyPrefix(s, n - 1);
      assert Empty(s).cells[n - 1] == CellEmpty(s.cells[n - 1]);
      EmptyCell(s.cells[n - 1]);
    }
  }

  lemma EmptyCell(c: Cell)
    requires CellOk(c, CellEmpty(c))
    ensures CellRecs(c, CellEmpty(c)) == []
  {
  }

  // ---------------------------------------------------------------- the order

  /** Where the record's field stands in the class; unknown records come after every field. */
  function Rank(s: Schema, r: Rec): nat {
    match Owner(s, r)
    case None => |s.cells|
    case Some(k) => k
  }

  /** Fields are written in the order of the class and unknown records last. */
  lemma WrittenInOrder(s: Schema, m: Msg, i: nat, j: nat)
    requires WellFormed(s) && MsgOk(s, m) && i < j < |Wrote(s, m)|
    ensures Rank(s, Wrote(s, m)[i]) <= Rank(s, Wrote(s, m)[j])
    ensures Rank(s, Wrote(s, m)[i]) == |s.cells| ==> Wrote(s, m)[i].num <= Wrote(s, m)[j].num
  {
    hide WellFormed, Wrote, Prefix, Records, Bytes, Owner;
    BytesRead(s, m);
    var p := Prefix(s, m, |s.cells|);
    assert Wrote(s, m) == p + m.unknown;
    PrefixRanks(s, m, |s.cells|);
  }

  lemma {:induction false} PrefixRanks(s: Schema, m: Msg, n: nat)
    requires WellFormed(s) && MsgOk(s, m) && n <= |s.cells|
    ensures forall i :: 0 <= i < |Prefix(s, m, n)| ==> Rank(s, Prefix(s, m, n)[i]) < n
    ensures forall i, j :: 0 <= i < j < |Prefix(s, m, n)| ==>
              Rank(s, Prefix(s, m, n)[i]) <= Rank(s, Prefix(s, m, n)[j])
    decreases n
  {
    hide WellFormed, MsgOk, CellRecs, Owner, CellOk;
    if n > 0 {
      PrefixRanks(s, m, n - 1);
      CellOwners(s, m, n - 1);
      OnePrefix(s, m, n);
      hide Prefix;
    }
  }

  // ----------------------------------------------------- what one record does

  lemma HandledBy(s: Schema, m: Msg, k: nat, r: Rec)
    requires WellFormed(s) && MsgOk(s, m) && RecOk(r) && k < |s.cells|
    requires HasLabel(s.cells[k], r.num, TypeNumber(r.payload))
    ensures |m.cells| == |s.cells| && CellOk(s.cells[k], m.cells[k]) && Owns(s.cells[k], r)
    ensures var z := CellStep(s.cells[k], m.cells[k], r);
            Run(s, m, [r]) == if z.None? then None else Some(m.(cells := m.cells[k := z.value]))
  {
    hide WellFormed, CellStep, Owner, Run;
    OwnsExactly(s.cells[k], r);
    OwnerUnique(s, r, k);
    RunOne(s, m, r);
  }

  /** A string or bytes record replaces the field. */
  lemma ParsedBlob(s: Schema, m: Msg, k: nat, num: nat, bs: seq<byte>)
    requires WellFormed(s) && MsgOk(s, m) && k < |s.cells| == |m.cells| && s.cells[k] == One(num, Blob)
    ensures RecOk(Rec(num, Len(bs))) && Run(s, m, [Rec(num, Len(bs))]) == Some(m.(cells := m.cells[k := V(B(bs))]))
  {
    hide WellFormed, MsgOk, Run;
    CellNumber(s, k);
    HandledBy(s, m, k, Rec(num, Len(bs)));
  }

  lemma CellNumber(s: Schema, k: nat)
    requires WellFormed(s) && k < |s.cells|
    ensures !s.cells[k].Alt? ==> 1 <= s.cells[k].num <= 15
    ensures s.cells[k].Alt? ==> forall i :: 0 <= i < |s.cells[k].arms| ==> 1 <= s.cells[k].arms[i].num <= 15
  {
    assert CellWellFormed(s.cells[k]);
  }

  /** A number record replaces the field by the number its word stands for, an explicit zero too. */
  lemma ParsedNumber(s: Schema, m: Msg, k: nat, num: nat, kind: NumKind, w: nat, v: int)
    requires WellFormed(s) && MsgOk(s, m) && k < |s.cells| == |m.cells| && s.cells[k] == One(num, kind)
    requires w < 0x1_0000_0000_0000_0000 && Reads(kind, w, v)
    ensures RecOk(Rec(num, Varint(w))) && Run(s, m, [Rec(num, Varint(w))]) == Some(m.(cells := m.cells[k := V(N(v))]))
  {
    hide WellFormed, MsgOk, Run, FromWire, Reads;
    CellNumber(s, k);
    NumberTaken(kind, w, v);
    HandledBy(s, m, k, Rec(num, Varint(w)));
  }

  lemma ParsedOptional(s: Schema, m: Msg, k: nat, num: nat, kind: NumKind, w: nat, v: int)
    requires WellFormed(s) && MsgOk(s, m) && k < |s.cells| == |m.cells| && s.cells[k] == Opt(num, kind)
    requires w < 0x1_0000_0000_0000_0000 && Reads(kind, w, v)
    ensures RecOk(Rec(num, Varint(w)))
    ensures Run(s, m, [Rec(num, Varint(w))]) == Some(m.(cells := m.cells[k := O(Some(N(v)))]))
  {
    hide WellFormed, MsgOk, Run, FromWire, Reads;
    CellNumber(s, k);
    NumberTaken(kind, w, v);
    HandledBy(s, m, k, Rec(num, Varint(w)));
  }

  /** A sub-message record is parsed into the message held, or into a new one. */
  lemma ParsedSub(s: Schema, m: Msg, k: nat, num: nat, t: Schema, o: Option<Msg>, bs: seq<byte>)
    requires WellFormed(s) && MsgOk(s, m) && k < |s.cells| == |m.cells| && s.cells[k] == Sub(num, t)
    requires m.cells[k] == S(o) && (o.Some? ==> MsgOk(t, o.value)) && MsgOk(t, Empty(t))
    ensures RecOk(Rec(num, Len(bs)))
    ensures var p := RunBytes(t, if o.None? then Empty(t) else o.value, bs);
            Run(s, m, [Rec(num, Len(bs))]) == if p.None? then None else Some(m.(cells := m.cells[k := S(p)]))
  {
    hide WellFormed, MsgOk, Run, RunBytes;
    CellNumber(s, k);
    HandledBy(s, m, k, Rec(num, Len(bs)));
  }

  /** A record of a repeated string is appended. */
  lemma ParsedString(s: Schema, m: Msg, k: nat, num: nat, vs: seq<Val>, bs: seq<byte>)
    requires WellFormed(s) && MsgOk(s, m) && k < |s.cells| == |m.cells| && s.cells[k] == Rep(num)
    requires m.cells[k] == Vs(vs)
    ensures RecOk(Rec(num, Len(bs)))
    ensures Run(s, m, [Rec(num, Len(bs))]) == Some(m.(cells := m.cells[k := Vs(vs + [B(bs)])]))
  {
    hide WellFormed, MsgOk, Run;
    CellNumber(s, k);
    HandledBy(s, m, k, Rec(num, Len(bs)));
  }

  /** An unpacked element is appended. */
  lemma ParsedElement(s: Schema, m: Msg, k: nat, num: nat, kind: NumKind, vs: seq<Val>, w: nat, v: int)
    requires WellFormed(s) && MsgOk(s, m) && k < |s.cells| == |m.cells| && s.cells[k] == Pack(num, kind)
    requires m.cells[k] == Vs(vs) && w < 0x1_0000_0000_0000_0000 && Reads(kind, w, v)
    ensures RecOk(Rec(num, Varint(w)))
    ensures Run(s, m, [Rec(num, Varint(w))]) == Some(m.(cells := m.cells[k := Vs(vs + [N(v)])]))
  {
    hide WellFormed, MsgOk, Run, FromWire, Reads;
    CellNumber(s, k);
    NumberTaken(kind, w, v);
    HandledBy(s, m, k, Rec(num, Varint(w)));
  }

  /** A packed record appends the numbers of its varints, and is refused if it is not a sequence
      of varints. */
  lemma ParsedPacked(s: Schema, m: Msg, k: nat, num: nat, kind: NumKind, vs: seq<Val>, bs: seq<byte>)
    returns (xs: seq<Val>)
    requires WellFormed(s) && MsgOk(s, m) && k < |s.cells| == |m.cells| && s.cells[k] == Pack(num, kind)
    requires m.cells[k] == Vs(vs)
    ensures RecOk(Rec(num, Len(bs)))
    ensures (exists gs :: Cut(bs, gs)) ==> exists gs :: Cut(bs, gs) && Holds(kind, gs, xs)
    ensures Run(s, m, [Rec(num, Len(bs))]) ==
            if exists gs :: Cut(bs, gs) then Some(m.(cells := m.cells[k := Vs(vs + xs)])) else None
  {
    hide WellFormed, MsgOk, Run, Unpack, Cut, Holds;
    CellNumber(s, k);
    PackedExactly(kind, bs);
    xs := [];
    if Unpack(kind, bs).Some? {
      xs := Unpack(kind, bs).value;
      var gs := PackedRead(kind, bs);
    }
    HandledBy(s, m, k, Rec(num, Len(bs)));
  }

  /** A record of a repeated message is parsed on its own and appended. */
  lemma ParsedMessage(s: Schema, m: Msg, k: nat, num: nat, t: Schema, ms: seq<Msg>, bs: seq<byte>)
    requires WellFormed(s) && MsgOk(s, m) && k < |s.cells| == |m.cells| && s.cells[k] == Msgs(num, t)
    requires m.cells[k] == Ms(ms) && MsgOk(t, Empty(t))
    ensures RecOk(Rec(num, Len(bs)))
    ensures var p := RunBytes(t, Empty(t), bs);
            Run(s, m, [Rec(num, Len(bs))]) ==
            if p.None? then None else Some(m.(cells := m.cells[k := Ms(ms + [p.value])]))
  {
    hide WellFormed, MsgOk, Run, RunBytes;
    CellNumber(s, k);
    HandledBy(s, m, k, Rec(num, Len(bs)));
  }

  lemma MemberLabel(s: Schema, k: nat, arms: seq<Arm>, i: nat, r: Rec)
    requires WellFormed(s) && k < |s.cells| && s.cells[k] == Alt(arms) && i < |arms|
    requires ArmHasLabel(arms[i], r.num, TypeNumber(r.payload))
    ensures 1 <= arms[i].num <= 15 && HasLabel(s.cells[k], r.num, TypeNumber(r.payload))
    ensures FindArm(arms, r, 0) == Some(i)
  {
    CellNumber(s, k);
    assert CellWellFormed(s.cells[k]);
    ArmUnique(arms, r, i);
  }

  /** A scalar member replaces what the oneof holds. */
  lemma ParsedMemberBlob(s: Schema, m: Msg, k: nat, arms: seq<Arm>, i: nat, num: nat, bs: seq<byte>)
    requires WellFormed(s) && MsgOk(s, m) && k < |s.cells| == |m.cells| && s.cells[k] == Alt(arms)
    requires i < |arms| && arms[i] == ScalarArm(num, Blob)
    ensures RecOk(Rec(num, Len(bs)))
    ensures Run(s, m, [Rec(num, Len(bs))]) == Some(m.(cells := m.cells[k := PickV(i, B(bs))]))
  {
    hide WellFormed, MsgOk, Run, FindArm;
    MemberLabel(s, k, arms, i, Rec(num, Len(bs)));
    HandledBy(s, m, k, Rec(num, Len(bs)));
  }

  lemma ParsedMemberNumber(s: Schema, m: Msg, k: nat, arms: seq<Arm>, i: nat, num: nat, kind: NumKind, w: nat, v: int)
    requires WellFormed(s) && MsgOk(s, m) && k < |s.cells| == |m.cells| && s.cells[k] == Alt(arms)
    requires i < |arms| && arms[i] == ScalarArm(num, kind)
    requires w < 0x1_0000_0000_0000_0000 && Reads(kind, w, v)
    ensures RecOk(Rec(num, Varint(w)))
    ensures Run(s, m, [Rec(num, Varint(w))]) == Some(m.(cells := m.cells[k := PickV(i, N(v))]))
  {
    hide WellFormed, MsgOk, Run, FindArm, FromWire, Reads;
    MemberLabel(s, k, arms, i, Rec(num, Varint(w)));
    NumberTaken(kind, w, v);
    HandledBy(s, m, k, Rec(num, Varint(w)));
  }

  /** A message member is parsed into a copy of the message held if it is this member, otherwise
      into a new one, and replaces what the oneof holds. */
  lemma ParsedMemberMessage(s: Schema, m: Msg, k: nat, arms: seq<Arm>, i: nat, num: nat, t: Schema, bs: seq<byte>)
    requires WellFormed(s) && MsgOk(s, m) && k < |s.cells| == |m.cells| && s.cells[k] == Alt(arms)
    requires i < |arms| && arms[i] == MsgArm(num, t) && CellOk(Alt(arms), m.cells[k]) && MsgOk(t, Empty(t))
    ensures RecOk(Rec(num, Len(bs)))
    ensures var x := m.cells[k];
            var p := RunBytes(t, if x.PickM? && x.arm == i then x.pm else Empty(t), bs);
            Run(s, m, [Rec(num, Len(bs))]) ==
            if p.None? then None else Some(m.(cells := m.cells[k := PickM(i, p.value)]))
  {
    hide WellFormed, MsgOk, Run, FindArm, RunBytes, SubBuilder;
    MemberLabel(s, k, arms, i, Rec(num, Len(bs)));
    SubBuilderIsHeld(arms, m.cells[k], i);
    HandledBy(s, m, k, Rec(num, Len(bs)));
  }

  /** A record under no case label goes to the unknown set, after those of its number. */
  lemma ParsedUnknown(s: Schema, m: Msg, r: Rec, n: nat)
    requires WellFormed(s) && MsgOk(s, m) && RecOk(r)
    requires forall k :: 0 <= k < |s.cells| ==> !HasLabel(s.cells[k], r.num, TypeNumber(r.payload))
    ensures Run(s, m, [r]).Some? && Run(s, m, [r]).value.cells == m.cells
    ensures Only(Run(s, m, [r]).value.unknown, n) == Only(m.unknown, n) + if r.num == n then [r] else []
  {
    hide Insert, Only, CellOk, WellFormed;
    RunOne(s, m, r);
    if Owner(s, r).Some? { OwnsExactly(s.cells[Owner(s, r).value], r); }
    InsertOk(s, m.unknown, r);
    OnlyInsert(m.unknown, r, n);
  }
}
